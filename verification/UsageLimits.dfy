/** The daily cap and the minimum interval of an account over runs of the lease
    protocol. A scan and the lock that follows it are separate steps, and a
    lease can outlive its deadline; either can break these limits, and nothing
    else can. */
module UsageLimits {
  import opened Wrappers
  import opened RedisLock
  import opened Leases
  import opened LeaseSafety

  /** The columns the limits look at agree. */
  predicate SameUse(a: Row, b: Row) {
    a.lastUsed == b.lastUsed && a.usedCount == b.usedCount && a.usedDay == b.usedDay && a.quota == b.quota
  }

  /** The account row a request locks is still the one its scan read. */
  predicate LocksFresh(cfg: Config, s: Sys, e: Event) {
    e.Move? && e.act.AskAccount? && e.act.reply == Granted && e.p < |s.procs| ==>
      var c := s.procs[e.p];
      c.Scanning? && c.todo != [] ==>
        c.todo[0].id in s.rows && SameUse(c.todo[0].row, Fill(cfg, s.rows[c.todo[0].id], c.at))
  }

  /** A lease that counts its use has not expired. */
  predicate CountsInTime(s: Sys, e: Event) {
    e.Move? && e.act == MarkUsed(true) && e.p < |s.procs| && s.procs[e.p].Leased? ==> Unexpired(s, s.procs[e.p].token)
  }

  predicate AllFresh(cfg: Config, s: Sys, es: seq<Event>) {
    es == [] ||
    (AllFresh(cfg, s, es[..|es| - 1]) &&
     var before := Run(cfg, s, es[..|es| - 1]);
     before.Some? ==> LocksFresh(cfg, before.value, es[|es| - 1]))
  }

  predicate AllInTime(cfg: Config, s: Sys, es: seq<Event>) {
    es == [] ||
    (AllInTime(cfg, s, es[..|es| - 1]) &&
     var before := Run(cfg, s, es[..|es| - 1]);
     before.Some? ==> CountsInTime(before.value, es[|es| - 1]))
  }

  /** A request that holds the lock of its account and has yet to count the use. */
  predicate WillCount(c: Proc) {
    c.Locked? || c.Choosing? || c.ProxyLocked? || c.Leased?
  }

  predicate RowWithin(cfg: Config, row: Row, now: nat) {
    && (Cap(cfg, row.quota) > 0 ==> row.usedCount <= Cap(cfg, row.quota))
    && (row.usedDay.Some? ==> row.usedDay.value <= Day(cfg, now))
    && (row.lastUsed.Some? ==> row.lastUsed.value <= now)
  }

  predicate StillTrying(c: Proc) {
    !c.Idle? && !c.Leased? && !c.Marked? && !c.ProxyBack?
  }

  /** What the scan of a request saw was already so at the time of the scan. */
  ghost predicate SawPast(cfg: Config, c: Proc, now: nat) {
    StillTrying(c) ==>
      && c.at <= now
      && forall i :: 0 <= i < |c.todo| && c.todo[i].row.usedDay.Some? ==> c.todo[i].row.usedDay.value <= Day(cfg, c.at)
  }

  /** The row still is as the scan saw it, and passed. */
  predicate CountPending(cfg: Config, s: Sys, c: Proc) {
    WillCount(c) && Unexpired(s, c.token) ==>
      && c.at <= s.now
      && c.acc.id in s.rows
      && SameUse(c.acc.row, Fill(cfg, s.rows[c.acc.id], c.at))
      && Passes(cfg, c.acc.row, c.at)
      && (c.acc.row.usedDay.Some? ==> c.acc.row.usedDay.value <= Day(cfg, c.at))
  }

  ghost predicate Limits(cfg: Config, s: Sys) {
    && (forall id :: id in s.rows ==> RowWithin(cfg, s.rows[id], s.now))
    && (forall p :: 0 <= p < |s.procs| ==> SawPast(cfg, s.procs[p], s.now) && CountPending(cfg, s, s.procs[p]))
  }

  lemma {:induction false} MulMonotone(x: int, y: int, d: nat)
    ensures x <= y ==> x * d <= y * d
  {
  }

  lemma DivMonotone(a: nat, b: nat, d: nat)
    requires a <= b && d > 0
    ensures a / d <= b / d
  {
    var x, y := a / d, b / d;
    assert x * d <= a && b < y * d + d;
    MulMonotone(y + 1, x, d);
    assert (y + 1) * d == y * d + d;
  }

  lemma DayMonotone(cfg: Config, a: nat, b: nat)
    requires a <= b
    ensures Day(cfg, a) <= Day(cfg, b)
  {
    if cfg.day > 0 {
      DivMonotone(a, b, cfg.day);
    }
  }

  lemma UseStaysWithin(cfg: Config, row: Row, at: nat, now: nat)
    requires RowWithin(cfg, row, now) && at <= now
    requires Passes(cfg, Fill(cfg, row, at), at)
    requires row.usedDay.Some? ==> row.usedDay.value <= Day(cfg, at)
    ensures RowWithin(cfg, Used(cfg, row, now), now)
  {
    DayMonotone(cfg, at, now);
  }

  /** Counting a use stays within the limits, across midnight too. */
  lemma MarkKeepsLimits(cfg: Config, s: Sys, p: nat, fault: Fault)
    requires Inv(s) && Limits(cfg, s) && Step(cfg, s, Move(p, MarkUsed(true), fault)).Some?
    requires CountsInTime(s, Move(p, MarkUsed(true), fault))
    ensures Limits(cfg, Step(cfg, s, Move(p, MarkUsed(true), fault)).value)
  {
    var c := s.procs[p];
    var s' := Step(cfg, s, Move(p, MarkUsed(true), fault)).value;
    var id := c.acc.id;
    assert CountPending(cfg, s, c);
    PassesAsFilled(cfg, c.acc.row, s.rows[id], c.at);
    UseStaysWithin(cfg, s.rows[id], c.at, s.now);
    forall q | 0 <= q < |s'.procs|
      ensures SawPast(cfg, s'.procs[q], s'.now) && CountPending(cfg, s', s'.procs[q])
    {
      if q != p {
        assert SawPast(cfg, s.procs[q], s.now) && CountPending(cfg, s, s.procs[q]);
        OneCounterPerAccount(s, p, q);
      }
    }
  }

  lemma PassesAsFilled(cfg: Config, row: Row, current: Row, at: nat)
    requires SameUse(row, Fill(cfg, current, at)) && Passes(cfg, row, at)
    ensures Passes(cfg, Fill(cfg, current, at), at)
  {
  }

  lemma OneCounterPerAccount(s: Sys, p: nat, q: nat)
    requires Inv(s) && p < |s.procs| && q < |s.procs| && p != q
    requires s.procs[p].Leased? && Unexpired(s, s.procs[p].token)
    ensures WillCount(s.procs[q]) && Unexpired(s, s.procs[q].token) ==> s.procs[q].acc.id != s.procs[p].acc.id
  {
    var c, d := s.procs[p], s.procs[q];
    var mine := Ref(AccountLock(c.acc.id), c.token);
    assert mine in Refs(c) && Owns(s, p, mine);
    if WillCount(d) {
      var other := Ref(AccountLock(d.acc.id), d.token);
      assert other in Refs(d) && Owns(s, q, other);
    }
  }

  lemma TickKeepsLimits(cfg: Config, s: Sys, to: nat)
    requires Limits(cfg, s) && s.now <= to
    ensures Limits(cfg, s.(now := to, keys := Swept(s.keys, to)))
  {
    DayMonotone(cfg, s.now, to);
    var s' := s.(now := to, keys := Swept(s.keys, to));
    forall q | 0 <= q < |s'.procs|
      ensures SawPast(cfg, s'.procs[q], s'.now) && CountPending(cfg, s', s'.procs[q])
    {
      assert SawPast(cfg, s.procs[q], s.now) && CountPending(cfg, s, s.procs[q]);
    }
  }

  lemma AdminKeepsLimits(cfg: Config, s: Sys, e: Event)
    requires Limits(cfg, s) && e.Admin? && Step(cfg, s, e).Some?
    ensures Limits(cfg, Step(cfg, s, e).value)
  {
    var s' := Step(cfg, s, e).value;
    assert SameUse(s.rows[e.id], s'.rows[e.id]);
    forall q | 0 <= q < |s'.procs|
      ensures SawPast(cfg, s'.procs[q], s'.now) && CountPending(cfg, s', s'.procs[q])
    {
      assert SawPast(cfg, s.procs[q], s.now) && CountPending(cfg, s, s.procs[q]);
    }
  }

  lemma BystanderKeepsLease(cfg: Config, s: Sys, p: nat, act: Act, fault: Fault, q: nat)
    requires Inv(s) && Step(cfg, s, Move(p, act, fault)).Some?
    requires q < |s.procs| && WillCount(s.procs[q])
    ensures Unexpired(Step(cfg, s, Move(p, act, fault)).value, s.procs[q].token) ==> Unexpired(s, s.procs[q].token)
  {
    var ref := Ref(AccountLock(s.procs[q].acc.id), s.procs[q].token);
    assert ref in Refs(s.procs[q]);
    assert Owns(s, q, ref);
    GrantsKeepDeadlines(cfg, s, p, act, fault, ref.token);
  }

  lemma MoverSawPast(cfg: Config, s: Sys, p: nat, act: Act, fault: Fault)
    requires Limits(cfg, s) && Step(cfg, s, Move(p, act, fault)).Some?
    ensures SawPast(cfg, Step(cfg, s, Move(p, act, fault)).value.procs[p], s.now)
  {
    assert SawPast(cfg, s.procs[p], s.now);
    if act.Scan? {
      assert IsListing(cfg, s, act.rows);
    }
  }

  lemma GrantedCountsPending(cfg: Config, s: Sys, p: nat, uuid: nat, fault: Fault)
    requires Limits(cfg, s) && Step(cfg, s, Move(p, AskAccount(Granted, uuid), fault)).Some?
    requires LocksFresh(cfg, s, Move(p, AskAccount(Granted, uuid), fault))
    ensures
      var s' := Step(cfg, s, Move(p, AskAccount(Granted, uuid), fault)).value;
      CountPending(cfg, s', s'.procs[p])
  {
    assert SawPast(cfg, s.procs[p], s.now);
  }

  lemma HolderCountsPending(cfg: Config, s: Sys, p: nat, act: Act, fault: Fault)
    requires Inv(s) && Limits(cfg, s) && Step(cfg, s, Move(p, act, fault)).Some? && !act.MarkUsed?
    requires WillCount(s.procs[p])
    ensures
      var s' := Step(cfg, s, Move(p, act, fault)).value;
      CountPending(cfg, s', s'.procs[p])
  {
    var c := s.procs[p];
    var c' := Step(cfg, s, Move(p, act, fault)).value.procs[p];
    assert CountPending(cfg, s, c);
    BystanderKeepsLease(cfg, s, p, act, fault, p);
    assert WillCount(c') ==> c'.at == c.at && c'.acc == c.acc && c'.token == c.token;
  }

  /** The request's own next place meets the limits' conditions. */
  lemma MoverKeepsLimits(cfg: Config, s: Sys, p: nat, act: Act, fault: Fault)
    requires Inv(s) && Limits(cfg, s) && Step(cfg, s, Move(p, act, fault)).Some? && act != MarkUsed(true)
    requires LocksFresh(cfg, s, Move(p, act, fault))
    ensures
      var s' := Step(cfg, s, Move(p, act, fault)).value;
      SawPast(cfg, s'.procs[p], s'.now) && CountPending(cfg, s', s'.procs[p])
  {
    MoverSawPast(cfg, s, p, act, fault);
    if act.AskAccount? && act.reply == Granted {
      GrantedCountsPending(cfg, s, p, act.uuid, fault);
    } else if WillCount(s.procs[p]) && !act.MarkUsed? {
      HolderCountsPending(cfg, s, p, act, fault);
    } else {
      assert !WillCount(Step(cfg, s, Move(p, act, fault)).value.procs[p]);
    }
  }

  lemma MoveKeepsLimits(cfg: Config, s: Sys, p: nat, act: Act, fault: Fault)
    requires Inv(s) && Limits(cfg, s) && Step(cfg, s, Move(p, act, fault)).Some? && act != MarkUsed(true)
    requires LocksFresh(cfg, s, Move(p, act, fault))
    ensures Limits(cfg, Step(cfg, s, Move(p, act, fault)).value)
  {
    var s' := Step(cfg, s, Move(p, act, fault)).value;
    MoverKeepsLimits(cfg, s, p, act, fault);
    forall q | 0 <= q < |s'.procs|
      ensures SawPast(cfg, s'.procs[q], s'.now) && CountPending(cfg, s', s'.procs[q])
    {
      if q != p {
        assert SawPast(cfg, s.procs[q], s.now) && CountPending(cfg, s, s.procs[q]);
        if WillCount(s.procs[q]) {
          BystanderKeepsLease(cfg, s, p, act, fault, q);
        }
      }
    }
  }

  lemma StepKeepsLimits(cfg: Config, s: Sys, e: Event)
    requires Inv(s) && Limits(cfg, s) && Step(cfg, s, e).Some? && LocksFresh(cfg, s, e) && CountsInTime(s, e)
    ensures Limits(cfg, Step(cfg, s, e).value)
  {
    match e {
      case Tick(to) => TickKeepsLimits(cfg, s, to);
      case Admin(_, _, _, _, _) => AdminKeepsLimits(cfg, s, e);
      case Move(p, act, fault) =>
        if act == MarkUsed(true) {
          MarkKeepsLimits(cfg, s, p, fault);
        } else {
          MoveKeepsLimits(cfg, s, p, act, fault);
        }
    }
  }

  lemma {:induction false} DisciplineKeepsLimits(cfg: Config, s0: Sys, es: seq<Event>)
    requires Init(s0) && Run(cfg, s0, es).Some? && AllFresh(cfg, s0, es) && AllInTime(cfg, s0, es)
    requires forall id :: id in s0.rows ==> RowWithin(cfg, s0.rows[id], s0.now)
    ensures Limits(cfg, Run(cfg, s0, es).value)
    decreases |es|
  {
    if es != [] {
      var n := |es| - 1;
      var before := es[..n];
      DisciplineKeepsLimits(cfg, s0, before);
      RunKeepsInv(cfg, s0, before);
      StepKeepsLimits(cfg, Run(cfg, s0, before).value, es[n]);
    }
  }

  /** No account is counted above its daily cap, whenever that cap is at least
      one, if every lock is taken on the row its scan read and every use is
      counted before the lease expires. */
  lemma CapIsNeverExceeded(cfg: Config, s0: Sys, es: seq<Event>, id: nat)
    requires Init(s0) && Run(cfg, s0, es).Some? && AllFresh(cfg, s0, es) && AllInTime(cfg, s0, es)
    requires forall a :: a in s0.rows ==> RowWithin(cfg, s0.rows[a], s0.now)
    requires id in Run(cfg, s0, es).value.rows
    ensures
      var row := Run(cfg, s0, es).value.rows[id];
      Cap(cfg, row.quota) >= 1 ==> row.usedCount <= Cap(cfg, row.quota)
  {
    DisciplineKeepsLimits(cfg, s0, es);
  }

  /** On the same conditions, a request that holds an account was dispatched at
      least the minimum interval after the account's previous release. */
  lemma IntervalIsKept(cfg: Config, s0: Sys, es: seq<Event>, p: nat)
    requires Init(s0) && Run(cfg, s0, es).Some? && AllFresh(cfg, s0, es) && AllInTime(cfg, s0, es)
    requires forall a :: a in s0.rows ==> RowWithin(cfg, s0.rows[a], s0.now)
    requires
      var s := Run(cfg, s0, es).value;
      p < |s.procs| && s.procs[p].Leased? && Unexpired(s, s.procs[p].token)
    ensures
      var s := Run(cfg, s0, es).value;
      var c := s.procs[p];
      c.acc.id in s.rows && c.at <= s.now
      && (s.rows[c.acc.id].lastUsed.Some? ==> c.at - s.rows[c.acc.id].lastUsed.value >= cfg.minInterval)
  {
    DisciplineKeepsLimits(cfg, s0, es);
    var s := Run(cfg, s0, es).value;
    assert CountPending(cfg, s, s.procs[p]);
  }

  // ---- Neither condition can be dropped ----

  lemma {:induction false} RunConcat(cfg: Config, s: Sys, a: seq<Event>, b: seq<Event>)
    requires Run(cfg, s, a).Some?
    ensures Run(cfg, s, a + b) == Run(cfg, Run(cfg, s, a).value, b)
    decreases |b|
  {
    if b == [] {
      assert a + b == a;
    } else {
      var rest := b[..|b| - 1];
      RunConcat(cfg, s, a, rest);
      assert (a + b)[..|a + b| - 1] == a + rest;
    }
  }

  lemma {:induction false} ConditionsConcat(cfg: Config, s: Sys, a: seq<Event>, b: seq<Event>)
    requires Run(cfg, s, a).Some?
    ensures AllFresh(cfg, s, a) && AllFresh(cfg, Run(cfg, s, a).value, b) ==> AllFresh(cfg, s, a + b)
    ensures AllInTime(cfg, s, a) && AllInTime(cfg, Run(cfg, s, a).value, b) ==> AllInTime(cfg, s, a + b)
    decreases |b|
  {
    if b == [] {
      assert a + b == a;
    } else {
      var rest := b[..|b| - 1];
      ConditionsConcat(cfg, s, a, rest);
      RunConcat(cfg, s, a, rest);
      assert (a + b)[..|a + b| - 1] == a + rest;
      assert (a + b)[|a + b| - 1] == b[|b| - 1];
    }
  }

  lemma {:induction false} NoLockIsFresh(cfg: Config, s: Sys, es: seq<Event>)
    requires forall i :: 0 <= i < |es| ==> !(es[i].Move? && es[i].act.AskAccount?)
    ensures AllFresh(cfg, s, es)
    decreases |es|
  {
    if es != [] {
      NoLockIsFresh(cfg, s, es[..|es| - 1]);
    }
  }

  lemma {:induction false} NoCountIsInTime(cfg: Config, s: Sys, es: seq<Event>)
    requires forall i :: 0 <= i < |es| ==> !(es[i].Move? && es[i].act.MarkUsed?)
    ensures AllInTime(cfg, s, es)
    decreases |es|
  {
    if es != [] {
      NoCountIsInTime(cfg, s, es[..|es| - 1]);
    }
  }

  /** A request takes its first candidate without a proxy. */
  function LeaseFirst(s: Sys, p: nat): seq<Event> {
    [Move(p, AskAccount(Granted, s.nextToken), Fine)] + [Move(p, Prepare(Direct), Fine)]
  }

  lemma LeasesFirst(cfg: Config, s: Sys, p: nat, c: Candidate)
    requires p < |s.procs| && s.procs[p].Scanning? && s.procs[p].todo == [c]
    requires Passes(cfg, c.row, s.procs[p].at) && AccountLock(c.id) !in s.keys
    ensures
      var end := Run(cfg, s, LeaseFirst(s, p));
      && end.Some? && end.value.procs == s.procs[p := Leased(s.procs[p].at, c, s.nextToken, None)]
      && end.value.now == s.now && end.value.rows == s.rows
      && end.value.keys == s.keys[AccountLock(c.id) := Held(s.nextToken, Deadline(s.now, cfg.ttl))]
      && end.value.grants == s.grants[s.nextToken := Grant(AccountLock(c.id), Deadline(s.now, cfg.ttl), Some(p))]
      && end.value.nextToken == s.nextToken + 1
  {
    var e1, e2 := Move(p, AskAccount(Granted, s.nextToken), Fine), Move(p, Prepare(Direct), Fine);
    var s1 := Step(cfg, s, e1).value;
    assert Run(cfg, s, []) == Some(s);
    RunSnoc(cfg, s, [], e1);
    assert [] + [e1] == [e1];
    RunSnoc(cfg, s, [e1], e2);
    assert s1.procs[p] == Locked(s.procs[p].at, [], c, s.nextToken);
    var leased := Leased(s.procs[p].at, c, s.nextToken, None);
    assert s1.procs[p := leased] == s.procs[p := leased];
  }

  lemma LeaseFirstConditions(cfg: Config, s: Sys, p: nat)
    requires p < |s.procs| && s.procs[p].Scanning?
    ensures AllInTime(cfg, s, LeaseFirst(s, p))
    ensures LocksFresh(cfg, s, LeaseFirst(s, p)[0]) ==> AllFresh(cfg, s, LeaseFirst(s, p))
  {
    var es := LeaseFirst(s, p);
    NoCountIsInTime(cfg, s, es);
    var first := [es[0]];
    assert first[..0] == [] && es[..1] == first;
    assert Run(cfg, s, []) == Some(s) && AllFresh(cfg, s, []);
    assert LocksFresh(cfg, s, es[0]) ==> AllFresh(cfg, s, first);
    assert es[1].act == Prepare(Direct);
  }

  /** A request without a proxy counts its use and gives its account back. */
  function FinishUse(p: nat): seq<Event> {
    [Move(p, MarkUsed(true), Fine)] + [Move(p, ReturnProxy, Fine)] + [Move(p, ReturnAccount, Fine)]
  }

  lemma FinishesUse(cfg: Config, s: Sys, p: nat)
    requires p < |s.procs| && s.procs[p].Leased? && s.procs[p].via == None
    requires s.procs[p].acc.id in s.rows && s.procs[p].token in s.grants
    ensures
      var id := s.procs[p].acc.id;
      var end := Run(cfg, s, FinishUse(p));
      && end.Some? && end.value.procs == s.procs[p := Idle] && end.value.now == s.now
      && end.value.rows == s.rows[id := Used(cfg, s.rows[id], s.now)]
      && end.value.keys == Released(s.keys, AccountLock(id), s.procs[p].token)
      && end.value.grants == s.grants - {s.procs[p].token}
      && end.value.nextToken == s.nextToken
  {
    var e1, e2, e3 := Move(p, MarkUsed(true), Fine), Move(p, ReturnProxy, Fine), Move(p, ReturnAccount, Fine);
    var c := s.procs[p];
    var s1 := Step(cfg, s, e1).value;
    assert s1.procs == s.procs[p := Marked(c.acc, c.token, None)];
    var s2 := Step(cfg, s1, e2).value;
    assert s2.procs == s.procs[p := ProxyBack(c.acc, c.token)];
    var s3 := Step(cfg, s2, e3).value;
    assert s3.procs == s.procs[p := Idle];
    assert Run(cfg, s, []) == Some(s);
    RunSnoc(cfg, s, [], e1);
    assert [] + [e1] == [e1];
    RunSnoc(cfg, s, [e1], e2);
    RunSnoc(cfg, s, [e1] + [e2], e3);
  }

  lemma FinishUseConditions(cfg: Config, s: Sys, p: nat)
    requires p < |s.procs| && s.procs[p].Leased?
    ensures AllFresh(cfg, s, FinishUse(p))
    ensures Unexpired(s, s.procs[p].token) ==> AllInTime(cfg, s, FinishUse(p))
  {
    var es := FinishUse(p);
    NoLockIsFresh(cfg, s, es);
    assert es[2].act == ReturnAccount && es[..2][1].act == ReturnProxy;
    assert es[..2][..1] == [es[0]] && [es[0]][..0] == [];
    assert Run(cfg, s, []) == Some(s);
    assert Unexpired(s, s.procs[p].token) ==> AllInTime(cfg, s, [es[0]]);
    assert Unexpired(s, s.procs[p].token) ==> AllInTime(cfg, s, es[..2]);
  }

  /** An account one use short of its cap, free, and about to be scanned. */
  ghost predicate OneUseLeft(cfg: Config, s: Sys, id: nat) {
    && Init(s) && |s.procs| >= 2 && id in s.rows
    && Dispatchable(s.rows[id], s.now)
    && Rested(cfg, s.rows[id], s.now)
    && s.rows[id].usedDay == Some(Day(cfg, s.now))
    && s.rows[id].usedCount + 1 == Cap(cfg, s.rows[id].quota)
  }

  function Both(c: Candidate): seq<Event> {
    [Move(0, Scan([c]), Fine)] + [Move(1, Scan([c]), Fine)]
  }

  lemma BothScan(cfg: Config, s: Sys, id: nat)
    requires OneUseLeft(cfg, s, id)
    ensures
      var c := Candidate(id, s.rows[id]);
      Run(cfg, s, Both(c)) == Some(s.(procs := s.procs[0 := Scanning(s.now, [c])][1 := Scanning(s.now, [c])]))
  {
    var c := Candidate(id, s.rows[id]);
    var e1, e2 := Move(0, Scan([c]), Fine), Move(1, Scan([c]), Fine);
    var s1 := Step(cfg, s, e1).value;
    assert s1 == s.(procs := s.procs[0 := Scanning(s.now, [c])]);
    assert Run(cfg, s, []) == Some(s);
    RunSnoc(cfg, s, [], e1);
    assert [] + [e1] == [e1];
    RunSnoc(cfg, s, [e1], e2);
  }

  /** Step i grants an account to a request whose scan is closer to the account's
      last use than the minimum interval. */
  predicate GrantsTooSoon(cfg: Config, s: Sys, es: seq<Event>, i: nat, id: nat)
    requires i < |es| && Run(cfg, s, es[..i]).Some?
  {
    var before := Run(cfg, s, es[..i]).value;
    var e := es[i];
    && e.Move? && e.act.AskAccount? && e.act.reply == Granted && e.p < |before.procs|
    && before.procs[e.p].Scanning? && before.procs[e.p].todo != [] && before.procs[e.p].todo[0].id == id
    && id in before.rows && !Rested(cfg, before.rows[id], before.procs[e.p].at)
  }

  /** One request's whole use of an account, without a proxy. */
  lemma UsesOnce(cfg: Config, s: Sys, p: nat, c: Candidate) returns (es: seq<Event>)
    requires p < |s.procs| && s.procs[p].Scanning? && s.procs[p].todo == [c] && c.id in s.rows
    requires Passes(cfg, c.row, s.procs[p].at) && AccountLock(c.id) !in s.keys
    ensures es != [] && es[0] == Move(p, AskAccount(Granted, s.nextToken), Fine)
    ensures Run(cfg, s, es).Some? && AllInTime(cfg, s, es)
    ensures
      var end := Run(cfg, s, es).value;
      && end.now == s.now && end.procs == s.procs[p := Idle] && AccountLock(c.id) !in end.keys
      && end.rows == s.rows[c.id := Used(cfg, s.rows[c.id], s.now)]
  {
    LeasesFirst(cfg, s, p, c);
    var first := LeaseFirst(s, p);
    var mid := Run(cfg, s, first).value;
    FinishesUse(cfg, mid, p);
    es := first + FinishUse(p);
    RunConcat(cfg, s, first, FinishUse(p));
    LeaseFirstConditions(cfg, s, p);
    FinishUseConditions(cfg, mid, p);
    ConditionsConcat(cfg, s, first, FinishUse(p));
    assert s.procs[p := Idle] == mid.procs[p := Idle];
  }

  /** Two requests scan, then take turns: the second locks the account on a row
      that is out of date. Both leases are short, yet the account is counted
      above its cap, and used again within any minimum interval. */
  lemma StaleScanBreaksLimits(cfg: Config, s: Sys, id: nat) returns (es: seq<Event>, i: nat)
    requires OneUseLeft(cfg, s, id)
    ensures Run(cfg, s, es).Some? && AllInTime(cfg, s, es)
    ensures
      var end := Run(cfg, s, es).value;
      && end.now == s.now && id in end.rows
      && end.rows[id].usedCount == Cap(cfg, end.rows[id].quota) + 1
    ensures i < |es| && Run(cfg, s, es[..i]).Some? && (cfg.minInterval > 0 ==> GrantsTooSoon(cfg, s, es, i, id))
  {
    var c := Candidate(id, s.rows[id]);
    BothScan(cfg, s, id);
    NoCountIsInTime(cfg, s, Both(c));
    var s1 := Run(cfg, s, Both(c)).value;
    var turn := UsesOnce(cfg, s1, 0, c);
    var s2 := Run(cfg, s1, turn).value;
    RunConcat(cfg, s, Both(c), turn);
    ConditionsConcat(cfg, s, Both(c), turn);
    var again := UsesOnce(cfg, s2, 1, c);
    RunConcat(cfg, s, Both(c) + turn, again);
    ConditionsConcat(cfg, s, Both(c) + turn, again);
    es, i := Both(c) + turn + again, |Both(c) + turn|;
    assert es[..i] == Both(c) + turn && es[i] == again[0];
  }

  lemma OneScans(cfg: Config, s: Sys, p: nat, id: nat)
    requires p < |s.procs| && s.procs[p].Idle? && id in s.rows && Dispatchable(s.rows[id], s.now)
    requires s.rows[id].usedDay == Some(Day(cfg, s.now))
    ensures
      var c := Candidate(id, s.rows[id]);
      Run(cfg, s, [Move(p, Scan([c]), Fine)]) == Some(s.(procs := s.procs[p := Scanning(s.now, [c])]))
  {
    var c := Candidate(id, s.rows[id]);
    assert Run(cfg, s, []) == Some(s);
    RunSnoc(cfg, s, [], Move(p, Scan([c]), Fine));
    assert [] + [Move(p, Scan([c]), Fine)] == [Move(p, Scan([c]), Fine)];
  }

  lemma ClockMoves(cfg: Config, s: Sys, to: nat)
    requires s.now <= to
    ensures Run(cfg, s, [Tick(to)]) == Some(s.(now := to, keys := Swept(s.keys, to)))
  {
    assert Run(cfg, s, []) == Some(s);
    RunSnoc(cfg, s, [], Tick(to));
    assert [] + [Tick(to)] == [Tick(to)];
  }

  /** A request leases the account and its lease runs out; a second one scans. */
  lemma LeaseRunsOut(cfg: Config, s: Sys, id: nat) returns (es: seq<Event>)
    requires OneUseLeft(cfg, s, id) && cfg.ttl > 0
    requires Dispatchable(s.rows[id], s.now + cfg.ttl) && Day(cfg, s.now + cfg.ttl) == Day(cfg, s.now)
    ensures Run(cfg, s, es).Some? && AllFresh(cfg, s, es)
    ensures
      var end := Run(cfg, s, es).value;
      var c := Candidate(id, s.rows[id]);
      && end.now == s.now + cfg.ttl && end.rows == s.rows && AccountLock(id) !in end.keys
      && end.procs == s.procs[0 := Leased(s.now, c, 0, None)][1 := Scanning(end.now, [c])]
      && 0 in end.grants && end.nextToken == 1
  {
    var c := Candidate(id, s.rows[id]);
    var e1, e3, e4 := [Move(0, Scan([c]), Fine)], [Tick(s.now + cfg.ttl)], [Move(1, Scan([c]), Fine)];
    OneScans(cfg, s, 0, id);
    var s1 := Run(cfg, s, e1).value;
    LeasesFirst(cfg, s1, 0, c);
    var e2 := LeaseFirst(s1, 0);
    var s2 := Run(cfg, s1, e2).value;
    ClockMoves(cfg, s2, s.now + cfg.ttl);
    var s3 := Run(cfg, s2, e3).value;
    OneScans(cfg, s3, 1, id);
    NoLockIsFresh(cfg, s, e1);
    LeaseFirstConditions(cfg, s1, 0);
    NoLockIsFresh(cfg, s2, e3);
    NoLockIsFresh(cfg, s3, e4);
    RunConcat(cfg, s, e1, e2);
    ConditionsConcat(cfg, s, e1, e2);
    RunConcat(cfg, s, e1 + e2, e3);
    ConditionsConcat(cfg, s, e1 + e2, e3);
    RunConcat(cfg, s, e1 + e2 + e3, e4);
    ConditionsConcat(cfg, s, e1 + e2 + e3, e4);
    es := e1 + e2 + e3 + e4;
  }

  /** The lease outlives its deadline, so a second request locks the account, on
      a row that is up to date; both uses are counted, above the cap. */
  lemma LateCountBreaksCap(cfg: Config, s: Sys, id: nat) returns (es: seq<Event>)
    requires OneUseLeft(cfg, s, id) && cfg.ttl > 0
    requires Dispatchable(s.rows[id], s.now + cfg.ttl) && Day(cfg, s.now + cfg.ttl) == Day(cfg, s.now)
    ensures Run(cfg, s, es).Some? && AllFresh(cfg, s, es)
    ensures
      var end := Run(cfg, s, es).value;
      id in end.rows && end.rows[id].usedCount == Cap(cfg, end.rows[id].quota) + 1
  {
    var before := LeaseRunsOut(cfg, s, id);
    var mid := Run(cfg, s, before).value;
    var rest := SecondUseOverlaps(cfg, mid, id, Candidate(id, s.rows[id]));
    RunConcat(cfg, s, before, rest);
    ConditionsConcat(cfg, s, before, rest);
    es := before + rest;
  }

  lemma SecondUseOverlaps(cfg: Config, s: Sys, id: nat, c: Candidate) returns (es: seq<Event>)
    requires |s.procs| >= 2 && id in s.rows && c == Candidate(id, s.rows[id])
    requires s.procs[0].Leased? && s.procs[0].acc == c && s.procs[0].via == None && s.procs[0].token in s.grants
    requires s.procs[0].token < s.nextToken
    requires s.procs[1] == Scanning(s.now, [c]) && AccountLock(id) !in s.keys
    requires Passes(cfg, c.row, s.now) && s.rows[id].usedDay == Some(Day(cfg, s.now))
    ensures Run(cfg, s, es).Some? && AllFresh(cfg, s, es)
    ensures
      var end := Run(cfg, s, es).value;
      && id in end.rows && end.rows[id].usedCount == s.rows[id].usedCount + 2
      && end.rows[id].quota == s.rows[id].quota
  {
    LeasesFirst(cfg, s, 1, c);
    var e1 := LeaseFirst(s, 1);
    var s1 := Run(cfg, s, e1).value;
    FinishesUse(cfg, s1, 1);
    var s2 := Run(cfg, s1, FinishUse(1)).value;
    FinishesUse(cfg, s2, 0);
    RunConcat(cfg, s, e1, FinishUse(1));
    RunConcat(cfg, s, e1 + FinishUse(1), FinishUse(0));
    es := e1 + FinishUse(1) + FinishUse(0);
    LeaseFirstConditions(cfg, s, 1);
    FinishUseConditions(cfg, s1, 1);
    FinishUseConditions(cfg, s2, 0);
    ConditionsConcat(cfg, s, e1, FinishUse(1));
    ConditionsConcat(cfg, s, e1 + FinishUse(1), FinishUse(0));
  }
}
