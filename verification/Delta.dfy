/** The extractor that turns an upstream event stream into the text shown to
    the user: it remembers the path patches leave out, follows the recipient,
    and drops thoughts. */
module Delta {
  import opened Wrappers

  datatype Json =
    | Null | Bool(b: bool) | Num(x: real) | Str(s: string) | Arr(items: seq<Json>) | Obj(fields: map<string, Json>)

  /** What a data line parses to: the end marker, an object, or neither. */
  datatype Frame = DoneMark | NotAnObject | Raw(fields: map<string, Json>)

  const TEXT_PATH := "/message/content/parts/0"
  const STATUS_PATH := "/message/status"
  const THOUGHTS := "/message/content/thoughts"
  const FINISHED := "finished_successfully"
  const ALL := "all"

  /** A string field; a missing field or one of another kind counts as none. */
  function StrOf(m: map<string, Json>, key: string): Option<string> {
    if key in m && m[key].Str? then Some(m[key].s) else None
  }

  function StrOr(m: map<string, Json>, key: string, default: string): string {
    if StrOf(m, key).Some? then StrOf(m, key).value else default
  }

  function ObjOf(m: map<string, Json>, key: string): Option<map<string, Json>> {
    if key in m && m[key].Obj? then Some(m[key].fields) else None
  }

  /** The first part of a message, when it is a string. */
  function FirstPart(msg: map<string, Json>): Option<string> {
    match ObjOf(msg, "content")
    case None => None
    case Some(content) =>
      if "parts" in content && content["parts"].Arr? && |content["parts"].items| > 0 && content["parts"].items[0].Str?
      then Some(content["parts"].items[0].s) else None
  }

  predicate IsText(path: string) {
    path == "" || path == TEXT_PATH
  }

  predicate IsThoughts(path: string) {
    THOUGHTS <= path
  }

  // ---- The extractor as a function ----

  datatype State = State(lastFull: string, curP: string, recipient: string)

  datatype Output = Output(text: string, final: bool)

  const NOTHING := Output("", false)

  function Recipient(s: State): string {
    if s.recipient == "" then ALL else s.recipient
  }

  function ExtractString(s: State, v: string): Output {
    if s.curP == STATUS_PATH && v == FINISHED then Output("", true)
    else if s.recipient == ALL && IsText(s.curP) then Output(v, false)
    else NOTHING
  }

  /** The patches of an array frame, each under its own path or the last one. */
  function ExtractPatch(s: State, out: Output, item: Json): (State, Output) {
    if !item.Obj? then (s, out)
    else
      var subP := StrOr(item.fields, "p", "");
      var subO := StrOr(item.fields, "o", "");
      var subV := StrOf(item.fields, "v");
      var path := if subP != "" then subP else s.curP;
      var after := s.(curP := path);
      if IsThoughts(path) || subV.None? then (after, out)
      else if path == STATUS_PATH then (after, Output(out.text, out.final || subV.value == FINISHED))
      else if IsText(path) && (subO == "" || subO == "append") && s.recipient == ALL
      then (after, Output(out.text + subV.value, out.final))
      else (after, out)
  }

  function ExtractPatches(s: State, items: seq<Json>): (State, Output) {
    if items == [] then (s, NOTHING)
    else
      var (before, out) := ExtractPatches(s, items[..|items| - 1]);
      ExtractPatch(before, out, items[|items| - 1])
  }

  /** The message of an object frame; or of a frame of the old protocol, which
      carries the whole text every time. */
  function ReadMessage(s: State, message: Option<map<string, Json>>, snapshot: bool): (State, Output) {
    match message
    case None => (s, NOTHING)
    case Some(msg) =>
      var named := if StrOr(msg, "recipient", "") != "" then s.(recipient := StrOr(msg, "recipient", "")) else s;
      match FirstPart(msg)
      case None => (named, NOTHING)
      case Some(cur) =>
        var added := if snapshot && s.lastFull <= cur then cur[|s.lastFull|..] else cur;
        (named.(lastFull := cur),
         Output(if named.recipient == ALL then added else "", StrOr(msg, "status", "") == FINISHED))
  }

  function ExtractFrame(s0: State, frame: Frame): (State, Output) {
    var s := s0.(recipient := Recipient(s0));
    match frame
    case DoneMark => (s, Output("", true))
    case NotAnObject => (s, NOTHING)
    case Raw(raw) =>
      if StrOf(raw, "type") == Some("message_stream_complete") then (s, Output("", true))
      else
        var t := s.(curP := StrOr(raw, "p", s.curP));
        if IsThoughts(t.curP) || "v" !in raw then (t, NOTHING)
        else
          match raw["v"]
          case Str(v) => (t, ExtractString(t, v))
          case Arr(items) => ExtractPatches(t, items)
          case Obj(m) => ReadMessage(t, ObjOf(m, "message"), false)
          case _ => ReadMessage(t, ObjOf(raw, "message"), true)
  }

  // ---- The extractor as it runs ----

  class DeltaExtractor {
    var lastFull: string
    var curP: string
    var recipient: string

    constructor ()
      ensures Current() == State("", "", "")
    {
      lastFull, curP, recipient := "", "", "";
    }

    function Current(): State
      reads this
    {
      State(lastFull, curP, recipient)
    }

    method Extract(frame: Frame) returns (text: string, final: bool)
      modifies this
      ensures (Current(), Output(text, final)) == ExtractFrame(old(Current()), frame)
    {
      if recipient == "" {
        recipient := ALL;
      }
      if frame.DoneMark? {
        return "", true;
      }
      if frame.NotAnObject? {
        return "", false;
      }
      var raw := frame.fields;
      if StrOf(raw, "type") == Some("message_stream_complete") {
        return "", true;
      }
      var p := StrOf(raw, "p");
      if p.Some? {
        curP := p.value;
      }
      if IsThoughts(curP) {
        return "", false;
      }
      if "v" !in raw {
        return "", false;
      }
      match raw["v"]
      case Str(s) =>
        if recipient != ALL {
          return "", curP == STATUS_PATH && s == FINISHED;
        }
        if curP == STATUS_PATH && s == FINISHED {
          return "", true;
        }
        return if curP == "" || curP == TEXT_PATH then s else "", false;
      case Arr(items) =>
        text, final := Patches(items);
      case Obj(m) =>
        text, final := Message(ObjOf(m, "message"), false);
      case _ =>
        text, final := Message(ObjOf(raw, "message"), true);
    }

    method Patches(items: seq<Json>) returns (text: string, final: bool)
      modifies this
      ensures (Current(), Output(text, final)) == ExtractPatches(old(Current()), items)
    {
      text, final := "", false;
      ghost var s := Current();
      for i := 0 to |items|
        invariant (Current(), Output(text, final)) == ExtractPatches(s, items[..i])
      {
        assert items[..i + 1][..i] == items[..i];
        if !items[i].Obj? {
          continue;
        }
        var m := items[i].fields;
        var subP := StrOr(m, "p", "");
        var subO := StrOr(m, "o", "");
        if subP != "" {
          curP := subP;
        }
        if IsThoughts(curP) {
          continue;
        }
        if curP == STATUS_PATH {
          if StrOf(m, "v") == Some(FINISHED) {
            final := true;
          }
          continue;
        }
        if (curP == "" || curP == TEXT_PATH) && (subO == "" || subO == "append") && recipient == ALL {
          if StrOf(m, "v").Some? {
            text := text + StrOf(m, "v").value;
          }
        }
      }
      assert items[..|items|] == items;
    }

    method Message(message: Option<map<string, Json>>, snapshot: bool) returns (text: string, final: bool)
      modifies this
      ensures (Current(), Output(text, final)) == ReadMessage(old(Current()), message, snapshot)
    {
      text, final := "", false;
      if message.None? {
        return;
      }
      var msg := message.value;
      var r := StrOr(msg, "recipient", "");
      if r != "" {
        recipient := r;
      }
      var cur := FirstPart(msg);
      if cur.None? {
        return;
      }
      var delta := cur.value;
      if snapshot && lastFull <= cur.value {
        delta := cur.value[|lastFull|..];
      }
      lastFull := cur.value;
      final := StrOr(msg, "status", "") == FINISHED;
      if recipient == ALL {
        text := delta;
      }
    }
  }
}
