/** The usage log's background writer: a bounded channel, a batch that is
    handed to the database when it is full or the ticker fires, and a drain on
    close. Writers and the background loop interleave in any way. */
module UsageLogger {

  datatype Phase = Running | Draining | Exited

  /** `handed` are the batches given to the bulk insert, `accepted` the rows the
      channel took, `mark` how many those were when Close was called. */
  datatype State<Row> = State(
    buffer: nat, batchSize: nat, channel: seq<Row>, batch: seq<Row>, handed: seq<seq<Row>>,
    phase: Phase, closed: bool, accepted: seq<Row>, mark: nat)

  /** What may happen next: a writer comes by, Close is called, or the loop
      takes one of the arms of its select statements. */
  datatype Arm<Row> = Write(row: Row) | CallClose | Receive | Tick | SeeClosed | FindEmpty

  function Flush<Row>(s: State<Row>): State<Row> {
    if s.batch == [] then s else s.(handed := s.handed + [s.batch], batch := [])
  }

  /** An arm that is not ready does nothing. */
  function Step<Row>(s: State<Row>, arm: Arm<Row>): State<Row> {
    match arm
    case Write(row) =>
      if |s.channel| < s.buffer then s.(channel := s.channel + [row], accepted := s.accepted + [row]) else s
    case CallClose => if s.closed then s else s.(closed := true, mark := |s.accepted|)
    case Receive =>
      if s.phase == Exited || s.channel == [] then s
      else
        var t := s.(channel := s.channel[1..], batch := s.batch + [s.channel[0]]);
        if |t.batch| >= t.batchSize then Flush(t) else t
    case Tick => if s.phase == Running then Flush(s) else s
    case SeeClosed => if s.phase == Running && s.closed then s.(phase := Draining) else s
    case FindEmpty => if s.phase == Draining && s.channel == [] then Flush(s).(phase := Exited) else s
  }

  function Run<Row>(s: State<Row>, arms: seq<Arm<Row>>): State<Row>
    decreases arms
  {
    if arms == [] then s else Run(Step(s, arms[0]), arms[1..])
  }

  /** The rows handed over, in order. */
  function Rows<Row>(handed: seq<seq<Row>>): seq<Row> {
    if handed == [] then [] else Rows(handed[..|handed| - 1]) + handed[|handed| - 1]
  }

  ghost predicate Inv<Row>(s: State<Row>) {
    && s.batchSize > 0 && s.buffer > 0
    && s.accepted == Rows(s.handed) + s.batch + s.channel
    && |s.batch| < s.batchSize && |s.channel| <= s.buffer
    && (forall b :: b in s.handed ==> 0 < |b| <= s.batchSize)
    && s.mark <= |s.accepted|
    && (s.phase != Running ==> s.closed)
    && (s.phase == Exited ==> s.batch == [] && s.mark <= |Rows(s.handed)|)
  }

  lemma FlushKeepsRows<Row>(s: State<Row>)
    ensures Rows(Flush(s).handed) + Flush(s).batch == Rows(s.handed) + s.batch
  {
    if s.batch != [] {
      assert Flush(s).handed[..|s.handed|] == s.handed;
    }
  }

  lemma ReceiveKeepsInv<Row>(s: State<Row>)
    requires Inv(s) && s.phase != Exited && s.channel != []
    ensures Inv(Step(s, Receive))
  {
    var t := s.(channel := s.channel[1..], batch := s.batch + [s.channel[0]]);
    assert s.channel == [s.channel[0]] + s.channel[1..];
    assert Rows(t.handed) + t.batch + t.channel == s.accepted;
    FlushKeepsRows(t);
  }

  lemma WriteKeepsInv<Row>(s: State<Row>, row: Row)
    requires Inv(s)
    ensures Inv(Step(s, Write(row)))
  {
    assert Rows(s.handed) + s.batch + (s.channel + [row]) == Rows(s.handed) + s.batch + s.channel + [row];
  }

  lemma FlushKeepsInv<Row>(s: State<Row>)
    requires Inv(s) && s.phase != Exited
    ensures Inv(Flush(s))
  {
    FlushKeepsRows(s);
  }

  lemma ExitKeepsInv<Row>(s: State<Row>)
    requires Inv(s) && s.phase == Draining && s.channel == []
    ensures Inv(Flush(s).(phase := Exited))
  {
    FlushKeepsRows(s);
  }

  lemma StepKeepsInv<Row>(s: State<Row>, arm: Arm<Row>)
    requires Inv(s)
    ensures Inv(Step(s, arm))
    ensures s.accepted <= Step(s, arm).accepted && (s.closed ==> Step(s, arm).closed && Step(s, arm).mark == s.mark)
  {
    match arm
    case Write(row) => WriteKeepsInv(s, row);
    case Receive =>
      if s.phase != Exited && s.channel != [] {
        ReceiveKeepsInv(s);
      }
    case Tick =>
      if s.phase == Running {
        FlushKeepsInv(s);
      }
    case FindEmpty =>
      if s.phase == Draining && s.channel == [] {
        ExitKeepsInv(s);
      }
    case _ =>
  }

  lemma {:induction false} RunKeepsInv<Row>(s: State<Row>, arms: seq<Arm<Row>>)
    requires Inv(s)
    ensures Inv(Run(s, arms))
    ensures s.accepted <= Run(s, arms).accepted
    ensures s.closed ==> Run(s, arms).mark == s.mark
    decreases arms
  {
    if arms != [] {
      StepKeepsInv(s, arms[0]);
      RunKeepsInv(Step(s, arms[0]), arms[1..]);
    }
  }

  function Start<Row>(buffer: nat, batchSize: nat): State<Row> {
    State(buffer, batchSize, [], [], [], Running, false, [], 0)
  }

  /** At every moment of every run the accepted rows are the rows handed over,
      then the batch, then the channel: in order, none lost, none twice; and no
      batch is larger than it may be. */
  lemma NoRowLostOrDoubled<Row>(buffer: nat, batchSize: nat, arms: seq<Arm<Row>>)
    requires buffer > 0 && batchSize > 0
    ensures var s := Run(Start(buffer, batchSize), arms);
      && s.accepted == Rows(s.handed) + s.batch + s.channel
      && forall b :: b in s.handed ==> 0 < |b| <= batchSize
  {
    RunKeepsInv(Start(buffer, batchSize), arms);
    SizesStay(Start(buffer, batchSize), arms);
  }

  lemma {:induction false} SizesStay<Row>(s: State<Row>, arms: seq<Arm<Row>>)
    ensures Run(s, arms).batchSize == s.batchSize && Run(s, arms).buffer == s.buffer
    decreases arms
  {
    if arms != [] {
      SizesStay(Step(s, arms[0]), arms[1..]);
    }
  }

  lemma {:induction false} RunConcat<Row>(s: State<Row>, a: seq<Arm<Row>>, b: seq<Arm<Row>>)
    ensures Run(s, a + b) == Run(Run(s, a), b)
    decreases a
  {
    if a == [] {
      assert a + b == b;
    } else {
      assert (a + b)[1..] == a[1..] + b;
      RunConcat(Step(s, a[0]), a[1..], b);
    }
  }

  /** Once the loop has exited, every row accepted before Close was called has
      been handed over, in order. */
  lemma CloseHandsEverythingOver<Row>(buffer: nat, batchSize: nat, before: seq<Arm<Row>>, after: seq<Arm<Row>>)
    requires buffer > 0 && batchSize > 0
    requires !Run(Start<Row>(buffer, batchSize), before).closed
    requires Run(Start<Row>(buffer, batchSize), before + [CallClose] + after).phase == Exited
    ensures Run(Start<Row>(buffer, batchSize), before).accepted
            <= Rows(Run(Start<Row>(buffer, batchSize), before + [CallClose] + after).handed)
  {
    var s0: State<Row> := Start(buffer, batchSize);
    var s1 := Run(s0, before);
    RunKeepsInv(s0, before);
    RunConcat(s0, before, [CallClose] + after);
    assert before + [CallClose] + after == before + ([CallClose] + after);
    assert ([CallClose] + after)[1..] == after;
    var s2 := Step(s1, CallClose);
    StepKeepsInv(s1, CallClose);
    RunKeepsInv(s2, after);
    var s3 := Run(s2, after);
    assert Run(s1, [CallClose] + after) == s3;
    assert s1.accepted <= s3.accepted && s3.mark == |s1.accepted|;
  }

  // ---- The logger ----

  class Logger<Row> {
    const buffer: nat
    const batchSize: nat
    var channel: seq<Row>
    var batch: seq<Row>
    var handed: seq<seq<Row>>
    var phase: Phase
    var closed: bool
    ghost var accepted: seq<Row>
    ghost var mark: nat

    ghost function Current(): State<Row>
      reads this
    {
      State(buffer, batchSize, channel, batch, handed, phase, closed, accepted, mark)
    }

    constructor (buffer: int, batchSize: int)
      ensures Current() == Start(this.buffer, this.batchSize) && Inv(Current())
      ensures this.buffer == (if buffer <= 0 then 8192 else buffer)
      ensures this.batchSize == (if batchSize <= 0 then 500 else batchSize)
    {
      this.buffer := if buffer <= 0 then 8192 else buffer;
      this.batchSize := if batchSize <= 0 then 500 else batchSize;
      channel, batch, handed, phase, closed := [], [], [], Running, false;
      accepted, mark := [], 0;
    }

    /** Never blocks: a row that finds the channel full is dropped. */
    method Write(row: Row) returns (taken: bool)
      modifies this`channel, this`accepted
      ensures Current() == Step(old(Current()), Arm.Write(row))
      ensures taken <==> |old(channel)| < buffer
    {
      taken := |channel| < buffer;
      if taken {
        channel := channel + [row];
        accepted := accepted + [row];
      }
    }

    method Close()
      modifies this`closed, this`mark
      ensures Current() == Step(old(Current()), CallClose)
    {
      if !closed {
        closed := true;
        mark := |accepted|;
      }
    }

    method FlushBatch()
      modifies this`batch, this`handed
      ensures Current() == Flush(old(Current()))
    {
      if |batch| == 0 {
        return;
      }
      handed := handed + [batch];
      batch := [];
    }

    method TakeRow()
      requires phase != Exited
      modifies this`channel, this`batch, this`handed
      ensures Current() == Step(old(Current()), Receive)
    {
      if channel == [] {
        return;
      }
      var row := channel[0];
      channel := channel[1..];
      batch := batch + [row];
      if |batch| >= batchSize {
        FlushBatch();
      }
    }

    /** The background loop under a schedule of arms, with the writers' arms in
        between; it returns when it has drained the channel. */
    method Loop(arms: seq<Arm<Row>>) returns (taken: nat)
      requires phase == Running
      modifies this
      ensures taken <= |arms| && Current() == Run(old(Current()), arms[..taken])
      ensures taken < |arms| ==> phase == Exited
    {
      taken := 0;
      ghost var s := Current();
      while taken < |arms| && phase != Exited
        invariant 0 <= taken <= |arms|
        invariant Current() == Run(s, arms[..taken])
      {
        var arm := arms[taken];
        RunConcat(s, arms[..taken], [arm]);
        assert arms[..taken + 1] == arms[..taken] + [arm];
        assert [arm][1..] == [];
        ghost var before := Current();
        match arm {
          case Write(row) =>
            var _ := Write(row);
          case CallClose =>
            Close();
          case Receive =>
            TakeRow();
          case Tick =>
            if phase == Running {
              FlushBatch();
            }
          case SeeClosed =>
            if phase == Running && closed {
              phase := Draining;
            }
          case FindEmpty =>
            if phase == Draining && channel == [] {
              FlushBatch();
              phase := Exited;
            }
        }
        assert Current() == Step(before, arm);
        assert Run(before, [arm]) == Step(before, arm);
        taken := taken + 1;
      }
    }
  }
}
