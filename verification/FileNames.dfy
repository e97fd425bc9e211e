/** The names of the local image store: built from a task, an index and the
    kind of resource, and parsed back when the directories are listed. */
module FileNames {
  import opened Wrappers
  import opened Decimal

  datatype Resource = Original | Thumb | Reference | ReferenceThumb

  predicate IsThumb(res: Resource) {
    res == Thumb || res == ReferenceThumb
  }

  predicate IsReference(res: Resource) {
    res == Reference || res == ReferenceThumb
  }

  // ---- Building ----

  function FileStem(task: string, idx: int, res: Resource): string {
    (if IsReference(res) then "ref_" else "") + task + "_" + FormatInt(idx)
  }

  /** Thumbnails are always JPEGs; originals keep their extension. */
  function FileName(task: string, idx: int, res: Resource, ext: string): string {
    if IsThumb(res) then "tmp_" + FileStem(task, idx, res) + ".jpg" else FileStem(task, idx, res) + "." + ext
  }

  // ---- Parsing ----

  function Lower(s: string): string {
    seq(|s|, i requires 0 <= i < |s| => if 'A' <= s[i] <= 'Z' then (s[i] as int + 32) as char else s[i])
  }

  predicate HasSuffix(s: string, suffix: string) {
    |suffix| <= |s| && s[|s| - |suffix|..] == suffix
  }

  function TrimPrefix(s: string, prefix: string): string {
    if prefix <= s then s[|prefix|..] else s
  }

  function TrimSuffix(s: string, suffix: string): string {
    if HasSuffix(s, suffix) then s[..|s| - |suffix|] else s
  }

  function LastIndex(s: string, c: char): (i: int)
    ensures -1 <= i < |s|
  {
    if s == "" then -1 else if s[|s| - 1] == c then |s| - 1 else LastIndex(s[..|s| - 1], c)
  }

  /** From the last dot of the last path element, or nothing. */
  function Ext(s: string): string {
    if s == "" || s[|s| - 1] == '/' then ""
    else if s[|s| - 1] == '.' then "."
    else
      var before := Ext(s[..|s| - 1]);
      if before == "" then "" else before + [s[|s| - 1]]
  }

  const IMAGE_EXTENSIONS := {".png", ".jpg", ".jpeg", ".webp"}

  function ParseFileInfo(name: string, res: Resource): Option<(string, int)> {
    if IsThumb(res) then
      var stem := ThumbStem(name, "tmp_", ".jpg");
      if stem.None? then None else ParseStem(stem.value, res)
    else
      if Lower(Ext(name)) !in IMAGE_EXTENSIONS then None
      else ParseStem(TrimSuffix(name, Ext(name)), res)
  }

  function ThumbStem(name: string, prefix: string, suffix: string): Option<string> {
    if !(prefix <= name) || !HasSuffix(Lower(name), suffix) then None
    else Some(TrimSuffix(TrimPrefix(name, prefix), suffix))
  }

  function ParseStem(stem: string, res: Resource): Option<(string, int)> {
    if IsReference(res) then
      if !("ref_" <= stem) then None else SplitIndex(TrimPrefix(stem, "ref_"))
    else
      if "ref_" <= stem then None else SplitIndex(stem)
  }

  function SplitIndex(raw: string): Option<(string, int)> {
    var pos := LastIndex(raw, '_');
    if pos <= 0 || pos >= |raw| - 1 then None
    else
      var idx := Atoi(raw[pos + 1..]);
      if idx.None? || idx.value < 0 then None else Some((raw[..pos], idx.value))
  }

  // ---- Round trip ----

  /** A name can be parsed back exactly when the index is not negative and the
      task is not empty and, for what is no reference, the name does not look
      like one: that shuts out the id "ref" as well as those with the prefix. */
  predicate Parseable(task: string, idx: int, res: Resource) {
    idx >= 0 && task != "" && (IsReference(res) || !("ref_" <= task + "_"))
  }

  lemma {:induction false} LastIndexOf(a: string, c: char, b: string)
    requires c !in b
    ensures LastIndex(a + [c] + b, c) == |a|
    decreases |b|
  {
    var s := a + [c] + b;
    if b != "" {
      assert s[..|s| - 1] == a + [c] + b[..|b| - 1];
      assert s[|s| - 1] == b[|b| - 1];
      LastIndexOf(a, c, b[..|b| - 1]);
    }
  }

  lemma {:induction false} ExtOf(stem: string, ext: string)
    requires '.' !in ext && '/' !in ext
    ensures Ext(stem + "." + ext) == "." + ext
    decreases |ext|
  {
    var s := stem + "." + ext;
    if ext != "" {
      assert s[..|s| - 1] == stem + "." + ext[..|ext| - 1];
      assert s[|s| - 1] == ext[|ext| - 1];
      ExtOf(stem, ext[..|ext| - 1]);
      assert "." + ext == ("." + ext[..|ext| - 1]) + [ext[|ext| - 1]];
    }
  }

  lemma NumeralHasNoUnderscore(idx: int)
    ensures '_' !in FormatInt(idx) && |FormatInt(idx)| >= 1
  {
    PrintThenValue(if idx < 0 then -idx else idx);
    if idx < 0 {
      assert FormatInt(idx)[1..] == Print(-idx);
      assert forall c :: c in FormatInt(idx) ==> c == '-' || c in Print(-idx);
    }
  }

  lemma SplitGivesBack(task: string, idx: int)
    requires MIN_INT <= idx <= MAX_INT
    ensures SplitIndex(task + "_" + FormatInt(idx)) == if task != "" && idx >= 0 then Some((task, idx)) else None
  {
    var raw := task + "_" + FormatInt(idx);
    NumeralHasNoUnderscore(idx);
    LastIndexOf(task, '_', FormatInt(idx));
    assert raw == task + ['_'] + FormatInt(idx);
    assert raw[|task| + 1..] == FormatInt(idx) && raw[..|task|] == task;
    FormatThenAtoi(idx);
  }

  lemma LooksLikeReference(task: string, tail: string)
    ensures "ref_" <= task + "_" + tail <==> "ref_" <= task + "_"
  {
    var s := task + "_" + tail;
    assert s[..|task| + 1] == task + "_";
    if |task| < 3 {
      assert s[|task|] == '_' && "ref_"[|task|] != '_';
    }
  }

  lemma PrefixComesOff(prefix: string, rest: string)
    ensures prefix <= prefix + rest && TrimPrefix(prefix + rest, prefix) == rest
  {
    assert (prefix + rest)[..|prefix|] == prefix;
  }

  lemma SuffixComesOff(rest: string, suffix: string)
    ensures HasSuffix(rest + suffix, suffix) && TrimSuffix(rest + suffix, suffix) == rest
  {
  }

  lemma ReferenceStem(rest: string, res: Resource)
    requires IsReference(res)
    ensures ParseStem("ref_" + rest, res) == SplitIndex(rest)
  {
    PrefixComesOff("ref_", rest);
  }

  lemma PlainStem(task: string, tail: string, res: Resource)
    requires !IsReference(res)
    ensures ParseStem(task + "_" + tail, res) == if "ref_" <= task + "_" then None else SplitIndex(task + "_" + tail)
  {
    LooksLikeReference(task, tail);
  }

  lemma Associates(a: string, b: string, c: string, d: string)
    ensures a + b + c + d == a + (b + c + d)
  {
  }

  lemma StemGivesBack(task: string, idx: int, res: Resource)
    requires MIN_INT <= idx <= MAX_INT
    ensures ParseStem(FileStem(task, idx, res), res) == if Parseable(task, idx, res) then Some((task, idx)) else None
  {
    SplitGivesBack(task, idx);
    if IsReference(res) {
      Associates("ref_", task, "_", FormatInt(idx));
      ReferenceStem(task + "_" + FormatInt(idx), res);
    } else {
      Associates("", task, "_", FormatInt(idx));
      assert "" + (task + "_" + FormatInt(idx)) == task + "_" + FormatInt(idx);
      PlainStem(task, FormatInt(idx), res);
    }
  }

  lemma ThumbStemGivesBack(prefix: string, stem: string, suffix: string)
    requires Lower(suffix) == suffix
    ensures ThumbStem(prefix + stem + suffix, prefix, suffix) == Some(stem)
  {
    assert prefix + stem + suffix == prefix + (stem + suffix);
    PrefixComesOff(prefix, stem + suffix);
    SuffixComesOff(stem, suffix);
    assert Lower(prefix + stem + suffix)[|prefix + stem|..] == Lower(suffix);
  }

  lemma ThumbNameGivesStem(stem: string, res: Resource)
    requires IsThumb(res)
    ensures ParseFileInfo("tmp_" + stem + ".jpg", res) == ParseStem(stem, res)
  {
    assert Lower(".jpg") == ".jpg";
    ThumbStemGivesBack("tmp_", stem, ".jpg");
  }

  lemma DottedExtension(ext: string)
    requires ext in {"png", "jpg", "jpeg", "webp"}
    ensures '.' !in ext && '/' !in ext && Lower("." + ext) == "." + ext && "." + ext in IMAGE_EXTENSIONS
  {
    if ext == "png" {
      assert "." + ext == ".png";
    } else if ext == "jpg" {
      assert "." + ext == ".jpg";
    } else if ext == "jpeg" {
      assert "." + ext == ".jpeg";
    } else {
      assert "." + ext == ".webp";
    }
  }

  lemma OriginalNameGivesStem(stem: string, res: Resource, ext: string)
    requires !IsThumb(res) && ext in {"png", "jpg", "jpeg", "webp"}
    ensures ParseFileInfo(stem + "." + ext, res) == ParseStem(stem, res)
  {
    DottedExtension(ext);
    ExtOf(stem, ext);
    assert stem + "." + ext == stem + ("." + ext);
    SuffixComesOff(stem, "." + ext);
  }

  /** What is parsed of a name is the stem it was built from. */
  lemma NameGivesStem(task: string, idx: int, res: Resource, ext: string)
    requires ext in {"png", "jpg", "jpeg", "webp"}
    ensures ParseFileInfo(FileName(task, idx, res, ext), res) == ParseStem(FileStem(task, idx, res), res)
  {
    if IsThumb(res) {
      ThumbNameGivesStem(FileStem(task, idx, res), res);
    } else {
      OriginalNameGivesStem(FileStem(task, idx, res), res, ext);
    }
  }

  /** For every task, 64-bit index, kind and extension: the name parses back to
      its task and index if it is parseable, and otherwise not at all. */
  lemma NameParsesBack(task: string, idx: int, res: Resource, ext: string)
    requires MIN_INT <= idx <= MAX_INT && ext in {"png", "jpg", "jpeg", "webp"}
    ensures ParseFileInfo(FileName(task, idx, res, ext), res) ==
      if Parseable(task, idx, res) then Some((task, idx)) else None
  {
    NameGivesStem(task, idx, res, ext);
    StemGivesBack(task, idx, res);
  }

  /** Within a directory (originals and references, or their thumbnails) no two
      parseable images share a name. */
  lemma NamesAreDistinct(task1: string, idx1: int, res1: Resource, ext1: string,
                         task2: string, idx2: int, res2: Resource, ext2: string)
    requires MIN_INT <= idx1 <= MAX_INT && MIN_INT <= idx2 <= MAX_INT
    requires ext1 in {"png", "jpg", "jpeg", "webp"} && ext2 in {"png", "jpg", "jpeg", "webp"}
    requires Parseable(task1, idx1, res1) && Parseable(task2, idx2, res2)
    requires IsThumb(res1) == IsThumb(res2)
    requires FileName(task1, idx1, res1, ext1) == FileName(task2, idx2, res2, ext2)
    ensures res1 == res2 && task1 == task2 && idx1 == idx2
  {
    NameParsesBack(task1, idx1, res1, ext1);
    NameParsesBack(task2, idx2, res2, ext2);
    if res1 != res2 {
      if IsReference(res1) {
        ReferencesAreNoOriginals(task1, idx1, res1, ext1, res2);
      } else {
        ReferencesAreNoOriginals(task2, idx2, res2, ext2, res1);
      }
    }
  }

  lemma ReferencesAreNoOriginals(task: string, idx: int, res: Resource, ext: string, other: Resource)
    requires ext in {"png", "jpg", "jpeg", "webp"}
    requires IsReference(res) && !IsReference(other) && IsThumb(res) == IsThumb(other)
    ensures ParseFileInfo(FileName(task, idx, res, ext), other) == None
  {
    var plain := "ref_" + task;
    var digits := FormatInt(idx);
    Associates("ref_", task, "_", digits);
    assert FileStem(plain, idx, other) == FileStem(task, idx, res) by {
      assert "" + plain == plain;
    }
    NameGivesStem(plain, idx, other, ext);
    PrefixComesOff("ref_", task + "_" + digits);
  }
}
