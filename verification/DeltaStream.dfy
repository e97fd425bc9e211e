/** What the extractor is for: a stream that leaves out repeated paths yields
    the same text as the stream with every path spelled out. */
module DeltaStream {
  import opened Wrappers
  import opened Delta

  // ---- The stream as its sender means it ----

  datatype Patch = Patch(path: string, op: string, value: Json)

  /** A stream with every path spelled out. A message may come with its text or
      without; a snapshot repeats the whole message every time. */
  datatype Event =
    | Single(patch: Patch)
    | Batch(patches: seq<Patch>)
    | Opening(recipient: string, text: Option<string>, finished: bool)
    | Snapshot(recipient: string, text: Option<string>, finished: bool)
    | Finish
    | Noise

  /** Whom the sender addresses, and the last whole message it sent. */
  datatype Sender = Sender(recipient: string, last: string)

  predicate Finishes(p: Patch) {
    p.path == STATUS_PATH && p.value == Str(FINISHED)
  }

  /** The text a patch appends to the answer. */
  function Appended(p: Patch): string {
    if IsText(p.path) && (p.op == "" || p.op == "append") && p.value.Str? then p.value.s else ""
  }

  function BatchText(patches: seq<Patch>): string {
    if patches == [] then "" else BatchText(patches[..|patches| - 1]) + Appended(patches[|patches| - 1])
  }

  predicate BatchFinishes(patches: seq<Patch>) {
    patches != [] && (BatchFinishes(patches[..|patches| - 1]) || Finishes(patches[|patches| - 1]))
  }

  predicate IsMessage(e: Event) {
    e.Opening? || e.Snapshot?
  }

  function Named(recipient: string, e: Event): string {
    if IsMessage(e) && e.recipient != "" then e.recipient else recipient
  }

  function After(from: Sender, e: Event): Sender {
    Sender(Named(from.recipient, e), if IsMessage(e) && e.text.Some? then e.text.value else from.last)
  }

  /** What a snapshot adds to the message it continues. */
  function Added(last: string, whole: string): string {
    if last <= whole then whole[|last|..] else whole
  }

  /** What an event means to the user. */
  function Meaning(from: Sender, e: Event): Output {
    var shown := Named(from.recipient, e) == ALL;
    match e
    case Single(p) => Output(if shown then Appended(p) else "", Finishes(p))
    case Batch(patches) =>
      Output(if shown then BatchText(patches) else "", BatchFinishes(patches))
    case Opening(_, text, finished) => Output(if shown && text.Some? then text.value else "", finished)
    case Snapshot(_, text, finished) =>
      Output(if shown && text.Some? then Added(from.last, text.value) else "", finished)
    case Finish => Output("", true)
    case Noise => NOTHING
  }

  /** The whole answer, up to and including the event that finishes it. */
  function Answer(from: Sender, events: seq<Event>): string
    decreases events
  {
    if events == [] then ""
    else
      var out := Meaning(from, events[0]);
      out.text + if out.final then "" else Answer(After(from, events[0]), events[1..])
  }

  // ---- The stream on the wire ----

  /** The path in force once a frame's own p has been read. */
  function FramePath(cur: string, frame: Frame): string {
    if frame.Raw? then StrOr(frame.fields, "p", cur) else cur
  }

  /** An array item spells its patch out or leaves out the path in force; an
      empty path cannot be told from one left out. An item that is no object
      patches nothing. */
  predicate ItemCarries(cur: string, item: Json, p: Patch) {
    if item.Obj? then
      && p.path == (if StrOr(item.fields, "p", "") != "" then StrOr(item.fields, "p", "") else cur)
      && StrOr(item.fields, "o", "") == p.op
      && (if p.value.Str? then StrOf(item.fields, "v") == Some(p.value.s) else StrOf(item.fields, "v") == None)
    else p == Patch(cur, "", Null)
  }

  function PathAfter(cur: string, patches: seq<Patch>): string {
    if patches == [] then cur else patches[|patches| - 1].path
  }

  predicate ItemsCarry(cur: string, items: seq<Json>, patches: seq<Patch>) {
    |items| == |patches| &&
    forall i :: 0 <= i < |items| ==> ItemCarries(PathAfter(cur, patches[..i]), items[i], patches[i])
  }

  /** A frame carries an event under the path in force. */
  predicate Carries(cur: string, frame: Frame, e: Event) {
    match e
    case Finish => frame.DoneMark? || Completes(frame)
    case Noise =>
      || frame.NotAnObject?
      || (frame.Raw? && !Completes(frame) && "v" !in frame.fields)
      || (IsFrame(frame) && frame.fields["v"].Obj? && ObjOf(frame.fields["v"].fields, "message").None?)
    case Single(p) =>
      && IsFrame(frame) && p.path == FramePath(cur, frame) && frame.fields["v"] == p.value
      && p.op == StrOr(frame.fields, "o", "")
      && !p.value.Arr? && !p.value.Obj?
      && (!p.value.Str? ==> ObjOf(frame.fields, "message").None?)
    case Batch(patches) =>
      && IsFrame(frame) && frame.fields["v"].Arr?
      && ItemsCarry(FramePath(cur, frame), frame.fields["v"].items, patches)
    case Opening(recipient, text, finished) =>
      && IsFrame(frame) && frame.fields["v"].Obj?
      && MessageCarries(ObjOf(frame.fields["v"].fields, "message"), recipient, text, finished)
    case Snapshot(recipient, text, finished) =>
      && IsFrame(frame) && !frame.fields["v"].Str? && !frame.fields["v"].Arr? && !frame.fields["v"].Obj?
      && MessageCarries(ObjOf(frame.fields, "message"), recipient, text, finished)
  }

  /** A message finishes the answer only beside a text. */
  predicate MessageCarries(message: Option<map<string, Json>>, recipient: string, text: Option<string>,
                           finished: bool)
  {
    && message.Some?
    && StrOr(message.value, "recipient", "") == recipient
    && FirstPart(message.value) == text
    && (finished <==> text.Some? && StrOr(message.value, "status", "") == FINISHED)
  }

  predicate Completes(frame: Frame) {
    frame.Raw? && StrOf(frame.fields, "type") == Some("message_stream_complete")
  }

  predicate IsFrame(frame: Frame) {
    frame.Raw? && !Completes(frame) && "v" in frame.fields
  }

  /** The path in force after a frame, were every frame read. */
  function NextPath(cur: string, frame: Frame, e: Event): string {
    match e
    case Batch(patches) => PathAfter(FramePath(cur, frame), patches)
    case Finish => cur
    case _ => FramePath(cur, frame)
  }

  /** A frame that holds an array, an object or a whole message is dropped while
      the path in force is among the thoughts, whatever it carries. */
  predicate Swallowed(cur: string, frame: Frame, e: Event) {
    (e.Batch? || IsMessage(e)) && IsThoughts(FramePath(cur, frame))
  }

  /** The operation of a string frame is never read: on the text path, one that
      is no append is taken for one. */
  predicate Misread(e: Event) {
    e.Single? && e.patch.value.Str? && IsText(e.patch.path) && e.patch.op != "" && e.patch.op != "append"
  }

  // ---- Every frame carries something ----

  function PatchOf(cur: string, item: Json): (p: Patch)
    ensures ItemCarries(cur, item, p)
  {
    if !item.Obj? then Patch(cur, "", Null)
    else
      Patch(if StrOr(item.fields, "p", "") != "" then StrOr(item.fields, "p", "") else cur,
            StrOr(item.fields, "o", ""),
            if StrOf(item.fields, "v").Some? then Str(StrOf(item.fields, "v").value) else Null)
  }

  lemma {:induction false} EveryArrayCarries(cur: string, items: seq<Json>) returns (patches: seq<Patch>)
    ensures ItemsCarry(cur, items, patches)
    decreases |items|
  {
    patches := [];
    if items != [] {
      var n := |items| - 1;
      var before := EveryArrayCarries(cur, items[..n]);
      patches := before + [PatchOf(PathAfter(cur, before), items[n])];
      forall i | 0 <= i < |items|
        ensures ItemCarries(PathAfter(cur, patches[..i]), items[i], patches[i])
      {
        assert patches[..i] == before[..i];
        assert before[..n] == before;
        if i < n {
          assert ItemCarries(PathAfter(cur, before[..i]), items[..n][i], before[i]);
        }
      }
    }
  }

  function MessageOf(frame: Frame): Option<map<string, Json>> {
    if !IsFrame(frame) then None
    else
      match frame.fields["v"]
      case Str(_) => None
      case Arr(_) => None
      case Obj(m) => ObjOf(m, "message")
      case _ => ObjOf(frame.fields, "message")
  }

  /** There is no frame the events cannot describe. */
  lemma EveryFrameCarries(cur: string, frame: Frame) returns (e: Event)
    ensures Carries(cur, frame, e)
  {
    if frame.DoneMark? || Completes(frame) {
      e := Finish;
    } else if MessageOf(frame).Some? {
      var msg := MessageOf(frame).value;
      var text := FirstPart(msg);
      var finished := text.Some? && StrOr(msg, "status", "") == FINISHED;
      var recipient := StrOr(msg, "recipient", "");
      e := if frame.fields["v"].Obj? then Opening(recipient, text, finished) else Snapshot(recipient, text, finished);
    } else if IsFrame(frame) && frame.fields["v"].Arr? {
      var patches := EveryArrayCarries(FramePath(cur, frame), frame.fields["v"].items);
      e := Batch(patches);
    } else if IsFrame(frame) && !frame.fields["v"].Obj? {
      e := Single(Patch(FramePath(cur, frame), StrOr(frame.fields, "o", ""), frame.fields["v"]));
    } else {
      e := Noise;
    }
  }

  // ---- Frame by frame ----

  lemma PathsDiffer()
    ensures !IsThoughts(STATUS_PATH) && !IsThoughts(TEXT_PATH) && !IsThoughts("")
    ensures !IsText(STATUS_PATH)
  {
    assert STATUS_PATH[9] == 's' && THOUGHTS[9] == 'c';
    assert |TEXT_PATH| < |THOUGHTS|;
  }

  lemma ItemMeansItsPatch(s: State, out: Output, item: Json, p: Patch)
    requires ItemCarries(s.curP, item, p)
    ensures ExtractPatch(s, out, item) ==
      (s.(curP := p.path), Output(out.text + if s.recipient == ALL then Appended(p) else "", out.final || Finishes(p)))
  {
    PathsDiffer();
    assert out.text + "" == out.text;
  }

  lemma ItemsCarryPrefix(cur: string, items: seq<Json>, patches: seq<Patch>, n: nat)
    requires ItemsCarry(cur, items, patches) && |items| == n + 1
    ensures ItemsCarry(cur, items[..n], patches[..n])
    ensures ItemCarries(PathAfter(cur, patches[..n]), items[n], patches[n])
  {
    forall i | 0 <= i < n
      ensures ItemCarries(PathAfter(cur, patches[..n][..i]), items[..n][i], patches[..n][i])
    {
      assert patches[..n][..i] == patches[..i];
    }
  }

  function BatchMeaning(s: State, patches: seq<Patch>): (State, Output) {
    (s.(curP := PathAfter(s.curP, patches)),
     Output(if s.recipient == ALL then BatchText(patches) else "", BatchFinishes(patches)))
  }

  lemma {:induction false} PatchesMeanTheirText(s: State, items: seq<Json>, patches: seq<Patch>)
    requires ItemsCarry(s.curP, items, patches)
    ensures ExtractPatches(s, items) == BatchMeaning(s, patches)
    decreases |items|
  {
    if items != [] {
      var n := |items| - 1;
      ItemsCarryPrefix(s.curP, items, patches, n);
      PatchesMeanTheirText(s, items[..n], patches[..n]);
      var (t, out) := BatchMeaning(s, patches[..n]);
      ItemMeansItsPatch(t, out, items[n], patches[n]);
      BatchMeansOneMore(s, patches);
    }
  }

  lemma BatchMeansOneMore(s: State, patches: seq<Patch>)
    requires patches != []
    ensures
      var p := patches[|patches| - 1];
      var (t, out) := BatchMeaning(s, patches[..|patches| - 1]);
      BatchMeaning(s, patches) ==
        (t.(curP := p.path),
         Output(out.text + if t.recipient == ALL then Appended(p) else "", out.final || Finishes(p)))
  {
    var out := BatchMeaning(s, patches[..|patches| - 1]).1;
    assert out.text + "" == out.text;
  }

  function SenderOf(s: State): Sender {
    Sender(Recipient(s), s.lastFull)
  }

  /** The extractor does with a frame what its event means: it gives that
      output, and ends with the sender and the path in force that follow. */
  predicate DoesAsMeant(s: State, frame: Frame, e: Event) {
    var (t, out) := ExtractFrame(s, frame);
    && out == Meaning(SenderOf(s), e)
    && SenderOf(t) == After(SenderOf(s), e)
    && t.curP == NextPath(s.curP, frame, e)
  }

  lemma SingleMeansItsEvent(s: State, frame: Frame, p: Patch)
    requires Carries(s.curP, frame, Single(p)) && !Misread(Single(p))
    ensures DoesAsMeant(s, frame, Single(p))
  {
    PathsDiffer();
  }

  lemma MisreadIsAppended(s: State, frame: Frame, e: Event)
    requires Carries(s.curP, frame, e) && Misread(e)
    ensures ExtractFrame(s, frame) ==
      (State(s.lastFull, e.patch.path, Recipient(s)),
       Output(if Recipient(s) == ALL then e.patch.value.s else "", false))
    ensures DoesAsMeant(s, frame, e) <==> Recipient(s) != ALL || e.patch.value.s == ""
  {
    PathsDiffer();
  }

  lemma BatchMeansItsEvent(s: State, frame: Frame, patches: seq<Patch>)
    requires Carries(s.curP, frame, Batch(patches)) && !Swallowed(s.curP, frame, Batch(patches))
    ensures DoesAsMeant(s, frame, Batch(patches))
  {
    var t := s.(curP := FramePath(s.curP, frame), recipient := Recipient(s));
    PatchesMeanTheirText(t, frame.fields["v"].items, patches);
  }

  lemma OpeningMeansItsEvent(s: State, frame: Frame, e: Event)
    requires e.Opening? && Carries(s.curP, frame, e) && !Swallowed(s.curP, frame, e)
    ensures DoesAsMeant(s, frame, e)
  {
  }

  lemma SnapshotMeansItsEvent(s: State, frame: Frame, e: Event)
    requires e.Snapshot? && Carries(s.curP, frame, e) && !Swallowed(s.curP, frame, e)
    ensures DoesAsMeant(s, frame, e)
  {
  }

  /** A frame that is neither swallowed nor misread does what its event means,
      whatever was left out of it. */
  lemma FrameMeansItsEvent(s: State, frame: Frame, e: Event)
    requires Carries(s.curP, frame, e) && !Swallowed(s.curP, frame, e) && !Misread(e)
    ensures DoesAsMeant(s, frame, e)
  {
    match e
    case Single(p) => SingleMeansItsEvent(s, frame, p);
    case Batch(patches) => BatchMeansItsEvent(s, frame, patches);
    case Opening(_, _, _) => OpeningMeansItsEvent(s, frame, e);
    case Snapshot(_, _, _) => SnapshotMeansItsEvent(s, frame, e);
    case _ =>
  }

  /** An event that would change nothing: no output, the same sender, and the
      path the frame itself names. */
  predicate IsIdle(cur: string, from: Sender, frame: Frame, e: Event) {
    Meaning(from, e) == NOTHING && After(from, e) == from && NextPath(cur, frame, e) == FramePath(cur, frame)
  }

  predicate Harmless(cur: string, from: Sender, frame: Frame, e: Event) {
    && (Swallowed(cur, frame, e) ==> IsIdle(cur, from, frame, e))
    && (Misread(e) && from.recipient == ALL ==> e.patch.value.s == "")
  }

  /** For every state, frame and event it carries: the extractor does what the
      event means exactly when the frame is not swallowed or its event is idle,
      and it is not misread or there is no text to show. */
  lemma AsMeantExactly(s: State, frame: Frame, e: Event)
    requires Carries(s.curP, frame, e)
    ensures DoesAsMeant(s, frame, e) <==> Harmless(s.curP, SenderOf(s), frame, e)
  {
    if Misread(e) {
      MisreadIsAppended(s, frame, e);
    } else if !Swallowed(s.curP, frame, e) {
      FrameMeansItsEvent(s, frame, e);
    }
  }

  // ---- Stream by stream ----

  function Transcript(s: State, frames: seq<Frame>): string
    decreases frames
  {
    if frames == [] then ""
    else
      var (t, out) := ExtractFrame(s, frames[0]);
      out.text + if out.final then "" else Transcript(t, frames[1..])
  }

  /** Frames carry events one by one, and none that is swallowed or misread would
      change anything, up to the event that finishes. */
  predicate Stream(cur: string, from: Sender, frames: seq<Frame>, events: seq<Event>)
    decreases frames
  {
    if frames == [] || events == [] then frames == [] && events == []
    else
      && Carries(cur, frames[0], events[0])
      && Harmless(cur, from, frames[0], events[0])
      && (!Meaning(from, events[0]).final ==>
            Stream(NextPath(cur, frames[0], events[0]), After(from, events[0]), frames[1..], events[1..]))
  }

  /** The extractor gives exactly the answer of the spelled-out stream. */
  lemma {:induction false} TranscriptIsTheAnswer(s: State, frames: seq<Frame>, events: seq<Event>)
    requires Stream(s.curP, SenderOf(s), frames, events)
    ensures Transcript(s, frames) == Answer(SenderOf(s), events)
    decreases frames
  {
    if frames != [] {
      AsMeantExactly(s, frames[0], events[0]);
      var (t, out) := ExtractFrame(s, frames[0]);
      if !out.final {
        TranscriptIsTheAnswer(t, frames[1..], events[1..]);
      }
    }
  }

  /** Whatever frames come, none of which names "all": while somebody else is
      addressed nothing is extracted. */
  lemma {:induction false} OthersSeeNothing(s: State, frames: seq<Frame>)
    requires Recipient(s) != ALL
    requires forall frame :: frame in frames && MessageOf(frame).Some? ==>
      StrOr(MessageOf(frame).value, "recipient", "") != ALL
    ensures Transcript(s, frames) == ""
    decreases frames
  {
    if frames != [] {
      var frame := frames[0];
      var e := EveryFrameCarries(s.curP, frame);
      assert frame in frames;
      FrameForOthers(s, frame, e);
      OthersSeeNothing(ExtractFrame(s, frame).0, frames[1..]);
    }
  }

  lemma FrameForOthers(s: State, frame: Frame, e: Event)
    requires Recipient(s) != ALL && Carries(s.curP, frame, e)
    requires MessageOf(frame).Some? ==> StrOr(MessageOf(frame).value, "recipient", "") != ALL
    ensures ExtractFrame(s, frame).1.text == "" && Recipient(ExtractFrame(s, frame).0) != ALL
  {
    if Misread(e) {
      MisreadIsAppended(s, frame, e);
    } else if !Swallowed(s.curP, frame, e) {
      FrameMeansItsEvent(s, frame, e);
    }
  }

  // ---- The conditions are needed ----

  lemma TwoFrames(s: State, f: Frame, g: Frame)
    ensures
      var (t, out) := ExtractFrame(s, f);
      !out.final ==> Transcript(s, [f, g]) == out.text + ExtractFrame(t, g).1.text
  {
    var (t, out) := ExtractFrame(s, f);
    assert [f, g][1..] == [g] && [g][1..] == [];
    var last := ExtractFrame(t, g).1;
    assert last.text + "" == last.text;
    assert Transcript(t, [g]) == last.text;
  }

  lemma TwoEvents(from: Sender, a: Event, b: Event)
    ensures !Meaning(from, a).final ==>
      Answer(from, [a, b]) == Meaning(from, a).text + Meaning(After(from, a), b).text
  {
    assert [a, b][1..] == [b] && [b][1..] == [];
    var last := Meaning(After(from, a), b);
    assert last.text + "" == last.text;
    assert Answer(After(from, a), [b]) == last.text;
  }

  lemma ThoughtFrame(s: State, frame: Frame, text: string)
    requires frame == Raw(map["p" := Str(THOUGHTS), "v" := Str(text)])
    ensures Carries(s.curP, frame, Single(Patch(THOUGHTS, "", Str(text))))
    ensures ExtractFrame(s, frame) == (State(s.lastFull, THOUGHTS, Recipient(s)), NOTHING)
    ensures Meaning(Sender(ALL, ""), Single(Patch(THOUGHTS, "", Str(text)))) == NOTHING
  {
    PathsDiffer();
    assert |THOUGHTS| > |TEXT_PATH|;
  }

  lemma ArrayFrame(s: State, frame: Frame, item: Json, text: Patch)
    requires IsThoughts(s.curP)
    requires frame == Raw(map["v" := Arr([item])]) && ItemCarries(s.curP, item, text)
    ensures Carries(s.curP, frame, Batch([text]))
    ensures ExtractFrame(s, frame) == (s.(recipient := Recipient(s)), NOTHING)
  {
    assert [text][..0] == [];
  }

  /** An array frame that relies on the path in force being among the thoughts
      loses the text it carries. */
  lemma SwallowedTextIsLost() returns (frames: seq<Frame>, events: seq<Event>)
    ensures |frames| == |events| == 2
    ensures Carries("", frames[0], events[0])
    ensures Carries(NextPath("", frames[0], events[0]), frames[1], events[1])
    ensures Answer(Sender(ALL, ""), events) == "hi" && Transcript(State("", "", ""), frames) == ""
  {
    var s0, thought := State("", "", ""), Single(Patch(THOUGHTS, "", Str("hm")));
    var f0 := Raw(map["p" := Str(THOUGHTS), "v" := Str("hm")]);
    ThoughtFrame(s0, f0, "hm");
    var text := Patch(TEXT_PATH, "append", Str("hi"));
    var item := Obj(map["p" := Str(TEXT_PATH), "o" := Str("append"), "v" := Str("hi")]);
    var f1 := Raw(map["v" := Arr([item])]);
    ArrayFrame(ExtractFrame(s0, f0).0, f1, item, text);
    TwoFrames(s0, f0, f1);
    TwoEvents(Sender(ALL, ""), thought, Batch([text]));
    assert BatchText([text]) == BatchText([]) + Appended(text);
    frames, events := [f0, f1], [thought, Batch([text])];
  }

  lemma TextFrame(s: State, frame: Frame, op: string, text: string)
    requires frame == Raw(map["p" := Str(TEXT_PATH), "o" := Str(op), "v" := Str(text)]) && Recipient(s) == ALL
    ensures Carries(s.curP, frame, Single(Patch(TEXT_PATH, op, Str(text))))
    ensures ExtractFrame(s, frame) == (State(s.lastFull, TEXT_PATH, ALL), Output(text, false))
  {
    PathsDiffer();
  }

  /** A string frame that replaces the text is taken for one that appends. */
  lemma ReplacementIsAppended() returns (frames: seq<Frame>, events: seq<Event>)
    ensures |frames| == |events| == 2
    ensures Carries("", frames[0], events[0])
    ensures Carries(NextPath("", frames[0], events[0]), frames[1], events[1])
    ensures events[1] == Single(Patch(TEXT_PATH, "replace", Str("bye")))
    ensures Answer(Sender(ALL, ""), events) == "hi" && Transcript(State("", "", ""), frames) == "hibye"
  {
    var s0 := State("", "", "");
    var f0 := Raw(map["p" := Str(TEXT_PATH), "o" := Str("append"), "v" := Str("hi")]);
    var f1 := Raw(map["p" := Str(TEXT_PATH), "o" := Str("replace"), "v" := Str("bye")]);
    var e0, e1 := Single(Patch(TEXT_PATH, "append", Str("hi"))), Single(Patch(TEXT_PATH, "replace", Str("bye")));
    TextFrame(s0, f0, "append", "hi");
    TextFrame(ExtractFrame(s0, f0).0, f1, "replace", "bye");
    TwoFrames(s0, f0, f1);
    TwoEvents(Sender(ALL, ""), e0, e1);
    assert "hi" + "bye" == "hibye" && "hi" + "" == "hi";
    PathsDiffer();
    frames, events := [f0, f1], [e0, e1];
  }
}
