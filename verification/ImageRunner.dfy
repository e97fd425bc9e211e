/** The image runner: bounded retries of one attempt, and parallel batches that
    are topped up until exactly the requested number of images is there. */
module ImageRunner {

  /** Error codes; Blank is the empty string. */
  datatype Code =
    | Blank | Unknown | NoAccount | RateLimited | AuthRequired | NetworkTransient | Upstream
    | InvalidResponse | Archive | Other(name: string)

  /** An image kept for archiving, and the address it was fetched from. */
  datatype Archived = Archived(index: nat, source: string)

  datatype Images = Images(fileIds: seq<string>, urls: seq<string>, contentTypes: seq<string>,
                           archive: seq<Archived>, account: nat)

  const NO_IMAGES := Images([], [], [], [], 0)

  function Max(a: nat, b: nat): nat {
    if a >= b then a else b
  }

  function ImageCount(d: Images): nat {
    Max(Max(|d.fileIds|, |d.urls|), |d.archive|)
  }

  function Prefix<T>(s: seq<T>, n: nat): seq<T> {
    if |s| > n then s[..n] else s
  }

  function Trim(d: Images, max: nat): Images {
    if max == 0 then d
    else d.(fileIds := Prefix(d.fileIds, max), urls := Prefix(d.urls, max),
            contentTypes := Prefix(d.contentTypes, max), archive := Prefix(d.archive, max))
  }

  // ---- Retries ----

  /** What one attempt comes back with: whether it worked, the code it reports,
      the code it left in its result, and the images in its result. */
  datatype Attempt = Attempt(ok: bool, status: Code, resultCode: Code, data: Images)

  function CodeOf(a: Attempt): Code {
    if a.status != Blank then a.status else if a.resultCode != Blank then a.resultCode else Unknown
  }

  function MaxAttemptWindow(maxAttempts: int): nat {
    if maxAttempts < 2 then 2 else maxAttempts
  }

  function RetryLimit(maxAttempts: int, code: Code): nat {
    var allowed := if maxAttempts <= 0 then 1 else maxAttempts;
    match code
    case Upstream => 2
    case AuthRequired => if allowed < 2 then 2 else allowed
    case RateLimited => if allowed < 2 then 2 else allowed
    case NetworkTransient => if allowed < 2 then 2 else allowed
    case _ => allowed
  }

  predicate Retryable(code: Code) {
    code in {RateLimited, NoAccount, AuthRequired, NetworkTransient, Upstream}
  }

  /** The reasons for which attempt k is the last one. */
  predicate Stops(maxAttempts: int, attempt: nat -> Attempt, cancelled: nat -> bool, k: nat) {
    || cancelled(k)
    || attempt(k).ok
    || !Retryable(CodeOf(attempt(k)))
    || k >= RetryLimit(maxAttempts, CodeOf(attempt(k)))
  }

  /** The loop bound never cuts a retry the limits permit: whatever happens, the
      last attempt of the window has a reason of its own to be the last. */
  lemma WindowNeverCuts(maxAttempts: int, attempt: nat -> Attempt, cancelled: nat -> bool)
    ensures forall code :: RetryLimit(maxAttempts, code) <= MaxAttemptWindow(maxAttempts)
    ensures Stops(maxAttempts, attempt, cancelled, MaxAttemptWindow(maxAttempts))
  {
    forall code: Code
      ensures RetryLimit(maxAttempts, code) <= MaxAttemptWindow(maxAttempts)
    {
      match code
      case Upstream =>
      case _ =>
    }
  }

  datatype RunResult = RunResult(attempts: nat, data: Images, code: Code)

  /** Stops at the first attempt with a reason to; the result's images are those
      of the last attempt made, whatever the earlier ones brought. */
  method RunWithRetry(maxAttempts: int, attempt: nat -> Attempt, cancelled: nat -> bool, initial: RunResult)
    returns (ok: bool, r: RunResult)
    ensures 1 <= r.attempts <= MaxAttemptWindow(maxAttempts)
    ensures Stops(maxAttempts, attempt, cancelled, r.attempts)
    ensures forall j :: 1 <= j < r.attempts ==> !Stops(maxAttempts, attempt, cancelled, j)
    ensures ok <==> !cancelled(r.attempts) && attempt(r.attempts).ok
    ensures !cancelled(r.attempts) ==> r.data == attempt(r.attempts).data
    ensures cancelled(r.attempts) ==>
      r.code == Unknown && r.data == if r.attempts == 1 then initial.data else attempt(r.attempts - 1).data
    ensures !ok && !cancelled(r.attempts) ==> r.code == CodeOf(attempt(r.attempts))
  {
    r := initial;
    WindowNeverCuts(maxAttempts, attempt, cancelled);
    var k := 1;
    while k <= MaxAttemptWindow(maxAttempts)
      invariant 1 <= k <= MaxAttemptWindow(maxAttempts) + 1
      invariant forall j :: 1 <= j < k ==> !Stops(maxAttempts, attempt, cancelled, j)
      invariant r.data == if k == 1 then initial.data else attempt(k - 1).data
    {
      r := r.(attempts := k);
      if cancelled(k) {
        return false, r.(code := Unknown);
      }
      var a := attempt(k);
      r := r.(data := a.data);
      if a.ok {
        return true, r;
      }
      var status := a.status;
      if status == Blank {
        status := a.resultCode;
      }
      if status == Blank {
        status := Unknown;
      }
      r := r.(code := status);
      if !Retryable(status) {
        return false, r;
      }
      if k >= RetryLimit(maxAttempts, status) {
        return false, r;
      }
      k := k + 1;
    }
    assert false;
  }

  // ---- Batches ----

  /** What one of the requests of a batch ends with. */
  datatype Sub = Sub(ok: bool, attempts: nat, data: Images, code: Code)

  /** A successful attempt brings one address for every file, perhaps none, and
      the images behind all of the addresses or of none. */
  predicate Aligned(d: Images, archiving: bool) {
    && |d.urls| == |d.fileIds| == |d.contentTypes|
    && (d.urls != [] ==> d.account > 0)
    && Belongs(d, archiving)
  }

  predicate Belongs(d: Images, archiving: bool) {
    if archiving
    then |d.archive| == |d.urls| && forall i :: 0 <= i < |d.archive| ==> d.archive[i] == Archived(i, d.urls[i])
    else d.archive == []
  }

  /** The requests of a batch come back in any order, one for every missing
      image; the order is part of what the oracle chooses. */
  ghost predicate Answers(batch: (nat, nat) -> seq<Sub>, archiving: bool) {
    forall b, count ::
      && |batch(b, count)| == count
      && forall i :: 0 <= i < count && batch(b, count)[i].ok ==> Aligned(batch(b, count)[i].data, archiving)
  }

  /** What the answers of a run of batches amount to: the first address and
      file of every successful one, in order of arrival, and its account. */
  function FirstUrls(subs: seq<Sub>): seq<string> {
    if subs == [] then []
    else
      var last := subs[|subs| - 1];
      FirstUrls(subs[..|subs| - 1]) + if last.ok then Prefix(last.data.urls, 1) else []
  }

  function FirstFiles(subs: seq<Sub>): seq<string> {
    if subs == [] then []
    else
      var last := subs[|subs| - 1];
      FirstFiles(subs[..|subs| - 1]) + if last.ok then Prefix(last.data.fileIds, 1) else []
  }

  function Accounts(subs: seq<Sub>): multiset<nat> {
    if subs == [] then multiset{}
    else
      var last := subs[|subs| - 1];
      Accounts(subs[..|subs| - 1]) + if Brings(last) then multiset{last.data.account} else multiset{}
  }

  predicate Brings(sub: Sub) {
    sub.ok && sub.data.urls != []
  }

  /** The code of the last answer that brought no image. */
  function LastCode(subs: seq<Sub>): Code {
    if subs == [] then Blank
    else
      var last := subs[|subs| - 1];
      if Brings(last) then LastCode(subs[..|subs| - 1]) else if last.ok then InvalidResponse else last.code
  }

  function Attempts(subs: seq<Sub>): nat {
    if subs == [] then 0 else Attempts(subs[..|subs| - 1]) + subs[|subs| - 1].attempts
  }

  function Flat(answers: seq<seq<Sub>>): seq<Sub> {
    if answers == [] then [] else Flat(answers[..|answers| - 1]) + answers[|answers| - 1]
  }

  function Insert(a: Archived, s: seq<Archived>): seq<Archived> {
    if s == [] || a.index <= s[0].index then [a] + s else [s[0]] + Insert(a, s[1..])
  }

  function SortByIndex(s: seq<Archived>): seq<Archived> {
    if s == [] then [] else Insert(s[0], SortByIndex(s[1..]))
  }

  lemma {:induction false} SortedStays(s: seq<Archived>)
    requires forall i, j :: 0 <= i < j < |s| ==> s[i].index < s[j].index
    ensures SortByIndex(s) == s
  {
    if s != [] {
      SortedStays(s[1..]);
    }
  }

  /** The result under construction. */
  datatype Gathering = Gathering(data: Images, quotaUsed: multiset<nat>, attempts: nat, successes: nat, lastCode: Code)

  const EMPTY := Gathering(NO_IMAGES, multiset{}, 0, 0, Blank)

  ghost predicate Sound(g: Gathering, subs: seq<Sub>, archiving: bool) {
    && g.data.urls == FirstUrls(subs) && g.data.fileIds == FirstFiles(subs)
    && |g.data.urls| == |g.data.fileIds| == |g.data.contentTypes| == g.successes == |g.quotaUsed|
    && Belongs(g.data, archiving)
    && g.quotaUsed == Accounts(subs) && 0 !in g.quotaUsed
    && g.attempts == Attempts(subs) && g.lastCode == LastCode(subs)
    && (if g.successes > 0 then g.data.account in g.quotaUsed else g.data.account == 0)
  }

  /** Trimmed to one image, an aligned result with any has just the first. */
  lemma TrimmedToOne(d: Images, archiving: bool)
    requires Aligned(d, archiving) && d.urls != []
    ensures var one := Trim(d, 1);
      && one.urls == [d.urls[0]] && one.fileIds == [d.fileIds[0]] && one.contentTypes == [d.contentTypes[0]]
      && one.archive == (if archiving then [Archived(0, d.urls[0])] else [])
      && ImageCount(one) == 1
  {
  }

  lemma FoldsOfOneMore(subs: seq<Sub>, sub: Sub)
    ensures Attempts(subs + [sub]) == Attempts(subs) + sub.attempts
    ensures FirstUrls(subs + [sub]) == FirstUrls(subs) + if sub.ok then Prefix(sub.data.urls, 1) else []
    ensures FirstFiles(subs + [sub]) == FirstFiles(subs) + if sub.ok then Prefix(sub.data.fileIds, 1) else []
    ensures Accounts(subs + [sub]) == Accounts(subs) + if Brings(sub) then multiset{sub.data.account} else multiset{}
    ensures LastCode(subs + [sub]) ==
      if Brings(sub) then LastCode(subs) else if sub.ok then InvalidResponse else sub.code
  {
    assert (subs + [sub])[..|subs|] == subs;
  }

  function Rebase(archive: seq<Archived>, base: nat): seq<Archived> {
    seq(|archive|, j requires 0 <= j < |archive| => Archived(base + archive[j].index, archive[j].source))
  }

  /** Takes one answer in; it brings at most one image. */
  method Absorb(g: Gathering, sub: Sub, ghost subs: seq<Sub>, ghost archiving: bool) returns (h: Gathering)
    requires Sound(g, subs, archiving) && (sub.ok ==> Aligned(sub.data, archiving))
    ensures Sound(h, subs + [sub], archiving)
    ensures h.successes <= g.successes + 1
  {
    FoldsOfOneMore(subs, sub);
    h := g.(attempts := g.attempts + sub.attempts);
    if !sub.ok {
      return h.(lastCode := sub.code);
    }
    var one := Trim(sub.data, 1);
    var imageCount := ImageCount(one);
    if imageCount <= 0 {
      return h.(lastCode := InvalidResponse);
    }
    var d, quotaUsed := Place(g.data, g.quotaUsed, one, imageCount, sub.data, archiving);
    h := h.(data := d, quotaUsed := quotaUsed, successes := g.successes + 1);
  }

  /** The image goes to the next index, with its address, its archive entry and
      a unit of its account's quota. */
  method Place(data: Images, quota: multiset<nat>, one: Images, imageCount: nat, ghost whole: Images,
               ghost archiving: bool)
    returns (d: Images, quotaUsed: multiset<nat>)
    requires |data.urls| == |data.fileIds| && Belongs(data, archiving)
    requires Aligned(whole, archiving) && one == Trim(whole, 1) && imageCount == ImageCount(one) > 0
    ensures d.urls == data.urls + Prefix(whole.urls, 1) && d.fileIds == data.fileIds + Prefix(whole.fileIds, 1)
    ensures whole.urls != [] && |d.urls| == |data.urls| + 1 && |d.fileIds| == |data.fileIds| + 1
    ensures |d.contentTypes| == |data.contentTypes| + 1 && Belongs(d, archiving)
    ensures d.account == if data.account == 0 then whole.account else data.account
    ensures quotaUsed == quota + multiset{whole.account}
  {
    TrimmedToOne(whole, archiving);
    var base := ImageCount(data);
    var placed := Rebase(one.archive, base);
    d := Images(data.fileIds + one.fileIds, data.urls + one.urls, data.contentTypes + one.contentTypes,
                data.archive + placed, if data.account == 0 then one.account else data.account);
    quotaUsed := quota;
    if one.account > 0 {
      quotaUsed := quotaUsed[one.account := quotaUsed[one.account] + imageCount];
    }
    assert quotaUsed == quota + multiset{whole.account};
    assert placed == if archiving then [Archived(|data.urls|, whole.urls[0])] else [];
  }

  /** Takes the answers of a batch in, as they arrive. */
  method AbsorbAll(g: Gathering, subs: seq<Sub>, ghost before: seq<Sub>, ghost archiving: bool) returns (h: Gathering)
    requires Sound(g, before, archiving)
    requires forall i :: 0 <= i < |subs| && subs[i].ok ==> Aligned(subs[i].data, archiving)
    ensures Sound(h, before + subs, archiving)
    ensures h.successes <= g.successes + |subs|
  {
    h := g;
    assert before + subs[..0] == before;
    for i := 0 to |subs|
      invariant Sound(h, before + subs[..i], archiving) && h.successes <= g.successes + i
    {
      h := Absorb(h, subs[i], before + subs[..i], archiving);
      assert before + subs[..i] + [subs[i]] == before + subs[..i + 1];
    }
    assert subs[..|subs|] == subs;
  }

  datatype Parallel = Parallel(success: bool, data: Images, attempts: nat, quotaUsed: multiset<nat>, code: Code)

  /** Every batch asks for exactly what the ones before it left missing. */
  ghost predicate AsksForMissing(n: nat, batch: (nat, nat) -> seq<Sub>, answers: seq<seq<Sub>>) {
    forall b :: 0 <= b < |answers| ==> AsksFor(n, batch, answers[..b], answers[b])
  }

  ghost predicate AsksFor(n: nat, batch: (nat, nat) -> seq<Sub>, before: seq<seq<Sub>>, subs: seq<Sub>) {
    |FirstUrls(Flat(before))| < n && subs == batch(|before| + 1, n - |FirstUrls(Flat(before))|)
  }

  /** The loop over batches. */
  method RunBatches(n: nat, maxBatches: nat, batch: (nat, nat) -> seq<Sub>, cancelled: nat -> bool,
                    ghost archiving: bool)
    returns (g: Gathering, answers: seq<seq<Sub>>)
    requires Answers(batch, archiving)
    ensures |answers| <= maxBatches && AsksForMissing(n, batch, answers)
    ensures Sound(g, Flat(answers), archiving) && g.successes <= n
    ensures g.successes < n ==> |answers| == maxBatches || (answers != [] && cancelled(|answers|))
  {
    g, answers := EMPTY, [];
    while |answers| < maxBatches
      invariant |answers| <= maxBatches && AsksForMissing(n, batch, answers)
      invariant Sound(g, Flat(answers), archiving) && g.successes <= n
    {
      var remaining := n - ImageCount(g.data);
      if remaining <= 0 {
        break;
      }
      var subs := batch(|answers| + 1, remaining);
      g := AbsorbAll(g, subs, Flat(answers), archiving);
      Extend(n, batch, answers, subs);
      answers := answers + [subs];
      if cancelled(|answers|) {
        break;
      }
    }
  }

  /** Tops the images up batch by batch. It succeeds exactly when n images are
      there, never more; image i then belongs to address i, and every image is
      charged to the account that made it. It gives up only when the batches are
      used up or the request was cancelled. */
  method RunParallel(n: nat, maxAttempts: int, batch: (nat, nat) -> seq<Sub>, cancelled: nat -> bool,
                     ghost archiving: bool)
    returns (r: Parallel, answers: seq<seq<Sub>>)
    requires n > 1 && Answers(batch, archiving)
    ensures |answers| <= Max(n, MaxAttemptWindow(maxAttempts)) && AsksForMissing(n, batch, answers)
    ensures r.data.urls == FirstUrls(Flat(answers)) && r.data.fileIds == FirstFiles(Flat(answers))
    ensures r.success <==> |r.data.urls| == n
    ensures ImageCount(r.data) == |r.data.urls| == |r.data.fileIds| == |r.data.contentTypes| <= n
    ensures Belongs(r.data, archiving)
    ensures r.quotaUsed == Accounts(Flat(answers)) && |r.quotaUsed| == |r.data.urls| && 0 !in r.quotaUsed
    ensures r.attempts == Attempts(Flat(answers))
    ensures r.success ==> r.code == Blank && r.data.account in r.quotaUsed
    ensures !r.success ==>
      |answers| == Max(n, MaxAttemptWindow(maxAttempts)) || (answers != [] && cancelled(|answers|))
    ensures !r.success ==>
      r.code == if |r.data.urls| > 0 then InvalidResponse
                else if LastCode(Flat(answers)) == Blank then Unknown else LastCode(Flat(answers))
  {
    var maxBatches := n;
    if MaxAttemptWindow(maxAttempts) > maxBatches {
      maxBatches := MaxAttemptWindow(maxAttempts);
    }
    var g;
    g, answers := RunBatches(n, maxBatches, batch, cancelled, archiving);
    var data := g.data;
    if |data.archive| > 1 {
      SortedStays(data.archive);
      data := data.(archive := SortByIndex(data.archive));
    }
    var got := ImageCount(data);
    if got > n {
      data := Trim(data, n);
      got := ImageCount(data);
    }
    if got >= n {
      return Parallel(true, data, g.attempts, g.quotaUsed, Blank), answers;
    }
    var code := if g.successes > 0 then InvalidResponse else if g.lastCode == Blank then Unknown else g.lastCode;
    r := Parallel(false, data, g.attempts, g.quotaUsed, code);
  }

  /** A request for one image: retries alone, no batches. */
  method RunSingle(maxAttempts: int, attempt: nat -> Attempt, cancelled: nat -> bool, ghost archiving: bool)
    returns (success: bool, r: RunResult, quotaUsed: multiset<nat>)
    requires forall k :: attempt(k).ok ==> Aligned(attempt(k).data, archiving)
    ensures Stops(maxAttempts, attempt, cancelled, r.attempts)
    ensures forall j :: 1 <= j < r.attempts ==> !Stops(maxAttempts, attempt, cancelled, j)
    ensures success <==>
      !cancelled(r.attempts) && attempt(r.attempts).ok && attempt(r.attempts).data.urls != []
    ensures !cancelled(r.attempts) && attempt(r.attempts).ok && !success ==> r.code == InvalidResponse
    ensures success ==>
      && ImageCount(r.data) == 1 && Belongs(r.data, archiving)
      && r.data.urls == Prefix(attempt(r.attempts).data.urls, 1)
      && quotaUsed == multiset{attempt(r.attempts).data.account}
    ensures !success ==> quotaUsed == multiset{}
  {
    quotaUsed := multiset{};
    success, r := RunWithRetry(maxAttempts, attempt, cancelled, RunResult(0, NO_IMAGES, Unknown));
    if success {
      ghost var whole := r.data;
      r := r.(data := Trim(r.data, 1));
      if ImageCount(r.data) < 1 {
        return false, r.(code := InvalidResponse), multiset{};
      }
      TrimmedToOne(whole, archiving);
      quotaUsed := multiset{}[r.data.account := QuotaImageCount(r.data, 1)];
    }
  }

  function QuotaImageCount(d: Images, fallback: int): nat {
    if |d.fileIds| > 0 then |d.fileIds|
    else if |d.urls| > 0 then |d.urls|
    else if fallback > 0 then fallback
    else 1
  }

  lemma Extend(n: nat, batch: (nat, nat) -> seq<Sub>, answers: seq<seq<Sub>>, subs: seq<Sub>)
    requires AsksForMissing(n, batch, answers) && |FirstUrls(Flat(answers))| < n
    requires subs == batch(|answers| + 1, n - |FirstUrls(Flat(answers))|)
    ensures AsksForMissing(n, batch, answers + [subs])
    ensures Flat(answers + [subs]) == Flat(answers) + subs
  {
    var more := answers + [subs];
    assert more[..|answers|] == answers;
    forall b | 0 <= b < |more|
      ensures AsksFor(n, batch, more[..b], more[b])
    {
      if b < |answers| {
        assert more[..b] == answers[..b] && AsksFor(n, batch, answers[..b], answers[b]);
      }
    }
  }
}
