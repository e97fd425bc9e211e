/** The hold protocol of the gateway: every request opens a hold with PreDeduct
    and closes it with Refund or Settle, while any number of requests, credits
    and administrative actions interleave on the same ledger. */
module Holds {
  import opened Billing
  import opened Wrappers

  /** The handlers that open holds. They differ in when they settle. */
  datatype Path = LocalImage | ChannelImage | ChatAsImage | Chat | ChatChannel

  datatype Phase = Waiting | Rejected | Open | Failed | Delivered(actual: int)

  datatype Req = Req(path: Path, user: nat, key: nat, cost: int, phase: Phase)

  /** A request is known by its position; its ledger rows carry that number. */
  datatype Sys = Sys(store: Store, reqs: seq<Req>)

  datatype Step =
    | Arrive(path: Path, user: nat, key: nat, cost: int)
    | Begin(i: nat)
    | Fail(i: nat)
    | Deliver(i: nat, actual: int)
    | Outside(call: Call)
    | Delete(gone: nat)

  /** The settlement a handler makes for what it delivered, if it makes one.
      The local image handlers ask whether they hold anything, the channel one
      whether there is anything to pay, the chat handlers do not ask. */
  function SettleCall(r: Req, id: nat, actual: int): Option<Call> {
    match r.path
    case LocalImage => if r.cost > 0 then Some(Settle(r.user, r.key, r.cost, actual, Request(id))) else None
    case ChatAsImage => if r.cost > 0 then Some(Settle(r.user, r.key, r.cost, r.cost, Request(id))) else None
    case ChannelImage => if actual > 0 then Some(Settle(r.user, r.key, r.cost, actual, Request(id))) else None
    case Chat => Some(Settle(r.user, r.key, r.cost, actual, Request(id)))
    case ChatChannel => Some(Settle(r.user, r.key, r.cost, actual, Request(id)))
  }

  /** The billing call an event makes in a state; None when it makes none. */
  function CallOf(s: Sys, e: Step): Option<Call> {
    match e
    case Begin(i) =>
      if i < |s.reqs| && s.reqs[i].phase == Waiting
      then Some(PreDeduct(s.reqs[i].user, s.reqs[i].key, s.reqs[i].cost, Request(i))) else None
    case Fail(i) =>
      if i < |s.reqs| && s.reqs[i].phase == Open
      then Some(Refund(s.reqs[i].user, s.reqs[i].key, s.reqs[i].cost, Request(i))) else None
    case Deliver(i, actual) =>
      if i < |s.reqs| && s.reqs[i].phase == Open then SettleCall(s.reqs[i], i, actual) else None
    case Outside(c) => if IsOutside(c) then Some(c) else None
    case _ => None
  }

  /** What reaches the ledger from elsewhere: credits and corrections. */
  predicate IsOutside(c: Call) {
    (c.Recharge? || c.Credit? || c.Adjust?) && !c.ref.Request?
    && (c.Credit? ==> c.kind == KindRedeem || c.kind == KindCheckin)
  }

  function NextPhase(r: Req, e: Step, out: Outcome): Phase {
    match (e, r.phase)
    case (Begin(_), Waiting) => if out == Done then Open else Rejected
    case (Fail(_), Open) => Failed
    case (Deliver(_, actual), Open) => Delivered(actual)
    case _ => r.phase
  }

  /** One event: at most one billing transaction, and the phase moves on
      whether a closing transaction succeeded or not. */
  function Next(s: Sys, e: Step): (Sys, Outcome) {
    var call := CallOf(s, e);
    var (store, out) := if call.Some? then Book(s.store, call.value) else (s.store, Done);
    match e
    case Arrive(path, user, key, cost) => (Sys(store, s.reqs + [Req(path, user, key, cost, Waiting)]), out)
    case Delete(u) => (Sys(Apply(store, SoftDelete(u)), s.reqs), out)
    case Outside(_) => (Sys(store, s.reqs), out)
    case _ =>
      if e.i < |s.reqs|
      then (Sys(store, s.reqs[e.i := s.reqs[e.i].(phase := NextPhase(s.reqs[e.i], e, out))]), out)
      else (Sys(store, s.reqs), out)
  }

  function Run(s: Sys, events: seq<Step>): Sys
    decreases events
  {
    if events == [] then s else Run(Next(s, events[0]).0, events[1..])
  }

  // ---- What a request keeps frozen, and by how much it overran ----

  /** What stays frozen for good after a delivery: the whole hold when the
      settlement is skipped, the size of a negative hold when it is not. */
  function Residue(r: Req, actual: int): nat {
    var call := SettleCall(r, 0, actual);
    if call.None? then Max0(r.cost)
    else if r.cost < 0 < call.value.actual then -r.cost
    else 0
  }

  /** By how much a settlement exceeds the hold it closes. */
  function Overrun(r: Req, actual: int): nat {
    var call := SettleCall(r, 0, actual);
    if call.None? || (r.cost <= 0 && call.value.actual <= 0) then 0
    else Max0(Max0(call.value.actual) - r.cost)
  }

  function Frozen(r: Req): nat {
    match r.phase
    case Open => Max0(r.cost)
    case Delivered(actual) => Residue(r, actual)
    case _ => 0
  }

  function Overrunning(r: Req): nat {
    if r.phase.Delivered? then Overrun(r, r.phase.actual) else 0
  }

  function FrozenSum(reqs: seq<Req>, u: nat): nat {
    if reqs == [] then 0
    else FrozenSum(reqs[..|reqs| - 1], u) + if reqs[|reqs| - 1].user == u then Frozen(reqs[|reqs| - 1]) else 0
  }

  function OverrunSum(reqs: seq<Req>, u: nat): nat {
    if reqs == [] then 0
    else OverrunSum(reqs[..|reqs| - 1], u) + if reqs[|reqs| - 1].user == u then Overrunning(reqs[|reqs| - 1]) else 0
  }

  lemma {:induction false} SumsAfterUpdate(reqs: seq<Req>, i: nat, r: Req, u: nat)
    requires i < |reqs| && r.user == reqs[i].user
    ensures FrozenSum(reqs[i := r], u) ==
      FrozenSum(reqs, u) + if r.user == u then Frozen(r) - Frozen(reqs[i]) else 0
    ensures OverrunSum(reqs[i := r], u) ==
      OverrunSum(reqs, u) + if r.user == u then Overrunning(r) - Overrunning(reqs[i]) else 0
    decreases |reqs|
  {
    var n := |reqs| - 1;
    if i == n {
      assert reqs[i := r][..n] == reqs[..n];
    } else {
      assert reqs[i := r][..n] == reqs[..n][i := r];
      SumsAfterUpdate(reqs[..n], i, r, u);
    }
  }

  lemma SumsAfterArrival(reqs: seq<Req>, r: Req, u: nat)
    requires r.phase == Waiting
    ensures FrozenSum(reqs + [r], u) == FrozenSum(reqs, u)
    ensures OverrunSum(reqs + [r], u) == OverrunSum(reqs, u)
  {
    assert (reqs + [r])[..|reqs|] == reqs;
  }

  lemma {:induction false} OpenIsInSum(reqs: seq<Req>, i: nat)
    requires i < |reqs|
    ensures FrozenSum(reqs, reqs[i].user) >= Frozen(reqs[i])
    decreases |reqs|
  {
    var n := |reqs| - 1;
    if i < n {
      OpenIsInSum(reqs[..n], i);
    }
  }

  lemma {:induction false} SumIsZero(reqs: seq<Req>, u: nat)
    ensures FrozenSum(reqs, u) == 0 <==> forall i :: 0 <= i < |reqs| && reqs[i].user == u ==> Frozen(reqs[i]) == 0
    decreases |reqs|
  {
    if reqs != [] {
      var n := |reqs| - 1;
      SumIsZero(reqs[..n], u);
      assert forall i :: 0 <= i < n ==> reqs[..n][i] == reqs[i];
    }
  }

  // ---- The invariant ----

  /** s0 is where the run started. */
  ghost predicate Inv(s0: Store, s: Sys) {
    && s.store.users.Keys == s0.users.Keys
    && (forall u :: u in s0.users ==> s.store.users[u].frozen >= 0)
    && (forall u :: Live(s.store, u) ==>
          s.store.users[u].frozen == s0.users[u].frozen + FrozenSum(s.reqs, u))
    && (forall u :: u in s0.users ==> s.store.users[u].balance + OverrunSum(s.reqs, u) >= 0)
  }

  ghost predicate Solvent(s: Store) {
    forall u :: u in s.users ==> s.users[u].balance >= 0 && s.users[u].frozen >= 0
  }

  /** While its user lives, an open hold can always be closed. */
  lemma HoldsAreCovered(s0: Store, s: Sys, e: Step)
    requires Inv(s0, s) && Solvent(s0)
    requires (e.Fail? || e.Deliver?) && e.i < |s.reqs| && s.reqs[e.i].phase == Open && Live(s.store, s.reqs[e.i].user)
    ensures s.store.users[s.reqs[e.i].user].frozen >= s.reqs[e.i].cost
    ensures Next(s, e).1 == Done
  {
    OpenIsInSum(s.reqs, e.i);
  }

  /** What a step of one request leaves of the invariant for user u. */
  ghost predicate FineFor(s0: Store, s: Sys, t: Sys, u: nat) {
    && u in s0.users
    && t.store.users.Keys == s0.users.Keys == s.store.users.Keys
    && t.store.users[u].frozen >= 0
    && t.store.users[u].deleted == s.store.users[u].deleted
    && (Live(t.store, u) ==> t.store.users[u].frozen == s0.users[u].frozen + FrozenSum(t.reqs, u))
    && t.store.users[u].balance + OverrunSum(t.reqs, u) >= 0
  }

  lemma BeginIsFine(s0: Store, s: Sys, e: Step, u: nat)
    requires Inv(s0, s) && Solvent(s0) && u in s0.users && e.Begin? && e.i < |s.reqs|
    ensures FineFor(s0, s, Next(s, e).0, u)
  {
    SumsAfterUpdate(s.reqs, e.i, Next(s, e).0.reqs[e.i], u);
  }

  lemma FailIsFine(s0: Store, s: Sys, e: Step, u: nat)
    requires Inv(s0, s) && Solvent(s0) && u in s0.users && e.Fail? && e.i < |s.reqs|
    ensures FineFor(s0, s, Next(s, e).0, u)
  {
    SumsAfterUpdate(s.reqs, e.i, Next(s, e).0.reqs[e.i], u);
    OpenIsInSum(s.reqs, e.i);
  }

  /** A delivery replaces what the request held by its residue, and takes from
      the balance no more than the overrun. */
  lemma DeliverMoves(s: Sys, i: nat, actual: int)
    requires i < |s.reqs| && s.reqs[i].phase == Open && Live(s.store, s.reqs[i].user)
    requires s.store.users[s.reqs[i].user].frozen >= s.reqs[i].cost
    ensures var r := s.reqs[i];
      var (t, out) := Next(s, Deliver(i, actual));
      && out == Done && Live(t.store, r.user)
      && t.store.users.Keys == s.store.users.Keys
      && (forall v :: v in s.store.users && v != r.user ==> t.store.users[v] == s.store.users[v])
      && t.store.users[r.user].frozen == s.store.users[r.user].frozen - Max0(r.cost) + Residue(r, actual)
      && t.store.users[r.user].balance >= s.store.users[r.user].balance - Overrun(r, actual)
  {
    var r := s.reqs[i];
    var call := SettleCall(r, i, actual);
    if call.Some? {
      assert call.value.expected == r.cost;
      assert Verdict(s.store, call.value) == Done;
      if r.cost <= 0 && call.value.actual <= 0 {
        assert Skips(call.value);
      }
    }
  }

  lemma DeadStayPut(s: Sys, e: Step)
    requires (e.Begin? || e.Fail? || e.Deliver?) && e.i < |s.reqs| && !Live(s.store, s.reqs[e.i].user)
    ensures Next(s, e).0.store == s.store
  {
  }

  /** The same, without the steps: what has to be true of the state reached. */
  lemma FineAfterDelivery(s0: Store, s: Sys, t: Sys, i: nat, actual: int, u: nat)
    requires Inv(s0, s) && Solvent(s0) && u in s0.users && i < |s.reqs| && s.reqs[i].phase == Open
    requires t.reqs == s.reqs[i := s.reqs[i].(phase := Delivered(actual))]
    requires t.store.users.Keys == s.store.users.Keys
    requires forall v :: v in s.store.users && v != s.reqs[i].user ==> t.store.users[v] == s.store.users[v]
    requires var r := s.reqs[i];
      if !Live(s.store, r.user) then t.store == s.store
      else
        && Live(t.store, r.user)
        && t.store.users[r.user].frozen == s.store.users[r.user].frozen - Max0(r.cost) + Residue(r, actual)
        && t.store.users[r.user].balance >= s.store.users[r.user].balance - Overrun(r, actual)
    ensures FineFor(s0, s, t, u)
  {
    SumsAfterUpdate(s.reqs, i, s.reqs[i].(phase := Delivered(actual)), u);
    OpenIsInSum(s.reqs, i);
  }

  lemma DeliverIsFine(s0: Store, s: Sys, e: Step, u: nat)
    requires Inv(s0, s) && Solvent(s0) && u in s0.users && e.Deliver? && e.i < |s.reqs|
    ensures FineFor(s0, s, Next(s, e).0, u)
  {
    var r := s.reqs[e.i];
    if r.phase != Open {
      assert Next(s, e).0.reqs == s.reqs;
    } else {
      if Live(s.store, r.user) {
        OpenIsInSum(s.reqs, e.i);
        DeliverMoves(s, e.i, e.actual);
      } else {
        DeadStayPut(s, e);
      }
      FineAfterDelivery(s0, s, Next(s, e).0, e.i, e.actual, u);
    }
  }

  lemma ArriveKeepsInv(s0: Store, s: Sys, e: Step)
    requires Inv(s0, s) && e.Arrive?
    ensures Inv(s0, Next(s, e).0)
  {
    var t := Next(s, e).0;
    forall u {
      SumsAfterArrival(s.reqs, t.reqs[|s.reqs|], u);
    }
  }

  lemma RequestKeepsInv(s0: Store, s: Sys, e: Step)
    requires Inv(s0, s) && Solvent(s0) && (e.Begin? || e.Fail? || e.Deliver?) && e.i < |s.reqs|
    ensures Inv(s0, Next(s, e).0)
  {
    var t := Next(s, e).0;
    forall u | u in s0.users
      ensures FineFor(s0, s, t, u)
    {
      if e.Begin? {
        BeginIsFine(s0, s, e, u);
      } else if e.Fail? {
        FailIsFine(s0, s, e, u);
      } else {
        DeliverIsFine(s0, s, e, u);
      }
    }
  }

  lemma StepKeepsInv(s0: Store, s: Sys, e: Step)
    requires Inv(s0, s) && Solvent(s0)
    ensures Inv(s0, Next(s, e).0)
  {
    if e.Arrive? {
      ArriveKeepsInv(s0, s, e);
    } else if (e.Begin? || e.Fail? || e.Deliver?) && e.i < |s.reqs| {
      RequestKeepsInv(s0, s, e);
    }
  }

  lemma {:induction false} RunKeepsInv(s0: Store, s: Sys, events: seq<Step>)
    requires Inv(s0, s) && Solvent(s0)
    ensures Inv(s0, Run(s, events))
    decreases events
  {
    if events != [] {
      StepKeepsInv(s0, s, events[0]);
      RunKeepsInv(s0, Next(s, events[0]).0, events[1..]);
    }
  }

  // ---- The theorems over whole runs ----

  function Start(s0: Store): Sys {
    Sys(s0, [])
  }

  /** In every run from non-negative amounts, frozen is the opening amount plus
      what the requests hold or stranded, and the balance is never further below
      zero than the settlements overran their holds. */
  lemma FrozenAndBalanceOverRuns(s0: Store, events: seq<Step>, u: nat)
    requires Solvent(s0) && u in s0.users
    ensures var s := Run(Start(s0), events);
      && u in s.store.users
      && s.store.users[u].frozen >= 0
      && s.store.users[u].balance >= 0 - OverrunSum(s.reqs, u)
      && (Live(s.store, u) ==> s.store.users[u].frozen == s0.users[u].frozen + FrozenSum(s.reqs, u))
  {
    RunKeepsInv(s0, Start(s0), events);
  }

  /** No refund or settlement of a live user's open hold ever conflicts. */
  lemma NoConflictEver(s0: Store, events: seq<Step>, e: Step)
    requires Solvent(s0)
    ensures var s := Run(Start(s0), events);
      (e.Fail? || e.Deliver?) && e.i < |s.reqs| && s.reqs[e.i].phase == Open && Live(s.store, s.reqs[e.i].user) ==>
        Next(s, e).1 == Done
  {
    var s := Run(Start(s0), events);
    RunKeepsInv(s0, Start(s0), events);
    if (e.Fail? || e.Deliver?) && e.i < |s.reqs| && s.reqs[e.i].phase == Open && Live(s.store, s.reqs[e.i].user) {
      HoldsAreCovered(s0, s, e);
    }
  }

  /** The deliveries that leave something frozen: a channel image whose final
      cost rounds to nothing, and a negative hold that is settled for something. */
  predicate Strands(r: Req) {
    && r.phase.Delivered?
    && (|| (r.path == ChannelImage && r.cost > 0 && r.phase.actual <= 0)
        || (r.path in {ChannelImage, Chat, ChatChannel} && r.cost < 0 < r.phase.actual))
  }

  /** A request that is not open keeps something frozen exactly if it strands. */
  lemma FrozenIfStranded(r: Req)
    requires r.phase != Open
    ensures Frozen(r) > 0 <==> Strands(r)
  {
  }

  /** Once no request of a live user is open, everything the requests froze is
      free again, if and only if none of them was such a delivery. */
  lemma AllFreedWhenFinished(s0: Store, events: seq<Step>, u: nat)
    requires Solvent(s0) && u in s0.users
    ensures var s := Run(Start(s0), events);
      Live(s.store, u) && (forall i :: 0 <= i < |s.reqs| && s.reqs[i].user == u ==> s.reqs[i].phase != Open) ==>
        (s.store.users[u].frozen == s0.users[u].frozen <==>
          forall i :: 0 <= i < |s.reqs| && s.reqs[i].user == u ==> !Strands(s.reqs[i]))
  {
    var s := Run(Start(s0), events);
    RunKeepsInv(s0, Start(s0), events);
    SumIsZero(s.reqs, u);
    forall i | 0 <= i < |s.reqs| && s.reqs[i].phase != Open
      ensures Frozen(s.reqs[i]) > 0 <==> Strands(s.reqs[i])
    {
      FrozenIfStranded(s.reqs[i]);
    }
  }

  // ---- At most one hold, at most one closing ----

  function Count(rows: seq<Row>, kind: Kind, ref: Ref): nat {
    if rows == [] then 0
    else
      Count(rows[..|rows| - 1], kind, ref) +
      if rows[|rows| - 1].kind == kind && rows[|rows| - 1].ref == ref then 1 else 0
  }

  lemma {:induction false} CountOne(rows: seq<Row>, r: Row, kind: Kind, ref: Ref)
    ensures Count(rows + [r], kind, ref) == Count(rows, kind, ref) + if r.kind == kind && r.ref == ref then 1 else 0
  {
    assert (rows + [r])[..|rows|] == rows;
  }

  /** How many rows of a kind a committed call writes. */
  function RowsOfKind(c: Call, kind: Kind): nat {
    if Skips(c) then 0 else
    match c
    case PreDeduct(_, _, _, _) => if kind == KindFreeze then 1 else 0
    case Settle(_, _, expected, actual, _) =>
      if (kind == KindUnfreeze && expected > 0) || (kind == KindConsume && actual > 0) then 1 else 0
    case Refund(_, _, _, _) => if kind == KindRefund then 1 else 0
    case Recharge(_, _, _) => if kind == KindRecharge then 1 else 0
    case Credit(_, _, k, _) => if kind == k then 1 else 0
    case Adjust(_, _, _) => if kind == KindAdjust then 1 else 0
  }

  lemma CountOfTwo(rows: seq<Row>, more: seq<Row>, kind: Kind, ref: Ref)
    requires 1 <= |more| <= 2
    ensures Count(rows + more, kind, ref) == Count(rows, kind, ref) +
      (if more[0].kind == kind && more[0].ref == ref then 1 else 0) +
      (if |more| == 2 && more[1].kind == kind && more[1].ref == ref then 1 else 0)
  {
    CountOne(rows, more[0], kind, ref);
    if |more| == 2 {
      CountOne(rows + [more[0]], more[1], kind, ref);
      assert rows + more == rows + [more[0]] + [more[1]];
    } else {
      assert rows + more == rows + [more[0]];
    }
  }

  lemma KindsOfNewRows(c: Call, after: int, kind: Kind)
    requires !Skips(c)
    ensures var more := NewRows(c, after);
      && 1 <= |more| <= 2
      && (forall r :: r in more ==> r.ref == c.ref)
      && RowsOfKind(c, kind) ==
           (if more[0].kind == kind then 1 else 0) + (if |more| == 2 && more[1].kind == kind then 1 else 0)
  {
  }

  lemma CallCounts(s: Store, c: Call, kind: Kind, ref: Ref)
    ensures Count(Book(s, c).0.ledger, kind, ref) == Count(s.ledger, kind, ref) +
      if Book(s, c).1 == Done && c.ref == ref then RowsOfKind(c, kind) else 0
  {
    if Book(s, c).1 == Done && !Skips(c) {
      var after := s.users[c.user].balance + BalanceDelta(s, c);
      var more := NewRows(c, after);
      KindsOfNewRows(c, after, kind);
      CountOfTwo(s.ledger, more, kind, ref);
      assert Book(s, c).0.ledger == s.ledger + more;
    }
  }

  /** The rows request i may have, phase by phase. */
  ghost predicate RowsFit(s: Sys, i: nat)
    requires i < |s.reqs|
  {
    var r := s.reqs[i];
    var frozen := Count(s.store.ledger, KindFreeze, Request(i));
    var unfrozen := Count(s.store.ledger, KindUnfreeze, Request(i));
    var consumed := Count(s.store.ledger, KindConsume, Request(i));
    var refunded := Count(s.store.ledger, KindRefund, Request(i));
    var holds := if r.cost > 0 then 1 else 0;
    var alive := Live(s.store, r.user);
    match r.phase
    case Waiting => frozen == unfrozen == consumed == refunded == 0
    case Rejected => frozen == unfrozen == consumed == refunded == 0
    case Open => frozen == holds && unfrozen == consumed == refunded == 0
    case Failed =>
      frozen == holds && unfrozen == consumed == 0 && refunded <= holds && (alive ==> refunded == holds)
    case Delivered(actual) =>
      frozen == holds && refunded == 0 && unfrozen <= holds && consumed <= 1
      && (alive ==> unfrozen == if SettleCall(r, i, actual).Some? then holds else 0)
  }

  ghost predicate NoRows(s: Sys, i: nat) {
    forall kind :: Count(s.store.ledger, kind, Request(i)) == 0
  }

  ghost predicate LedgerFits(s: Sys) {
    && (forall i :: 0 <= i < |s.reqs| ==> RowsFit(s, i))
    && (forall i :: i >= |s.reqs| ==> NoRows(s, i))
  }

  lemma StepCounts(s: Sys, e: Step, i: nat)
    ensures var t := Next(s, e).0;
      forall kind :: Count(t.store.ledger, kind, Request(i)) == Count(s.store.ledger, kind, Request(i)) +
        if CallOf(s, e).Some? && CallOf(s, e).value.ref == Request(i) && Next(s, e).1 == Done
        then RowsOfKind(CallOf(s, e).value, kind) else 0
  {
    if CallOf(s, e).Some? {
      forall kind: Kind
        ensures Count(Next(s, e).0.store.ledger, kind, Request(i)) == Count(s.store.ledger, kind, Request(i)) +
          if CallOf(s, e).value.ref == Request(i) && Next(s, e).1 == Done
          then RowsOfKind(CallOf(s, e).value, kind) else 0
      {
        CallCounts(s.store, CallOf(s, e).value, kind, Request(i));
      }
    }
  }

  lemma StillDead(s: Store, c: Call, u: nat)
    ensures Live(Book(s, c).0, u) == Live(s, u)
  {
  }

  lemma FitByCounts(s: Sys, t: Sys, i: nat)
    requires i < |s.reqs| && i < |t.reqs| && t.reqs[i] == s.reqs[i] && RowsFit(s, i)
    requires forall kind :: Count(t.store.ledger, kind, Request(i)) == Count(s.store.ledger, kind, Request(i))
    requires Live(t.store, s.reqs[i].user) ==> Live(s.store, s.reqs[i].user)
    ensures RowsFit(t, i)
  {
  }

  /** What a step leaves of the rows of a request it is not about. */
  lemma OthersKeepFit(s: Sys, e: Step, i: nat)
    requires i < |s.reqs| && RowsFit(s, i)
    requires (e.Begin? || e.Fail? || e.Deliver?) ==> e.i != i || CallOf(s, e).None?
    requires (e.Begin? || e.Fail? || e.Deliver?) && e.i == i ==> Next(s, e).0.reqs[i].phase == s.reqs[i].phase
    ensures RowsFit(Next(s, e).0, i)
  {
    var t := Next(s, e).0;
    StepCounts(s, e, i);
    if CallOf(s, e).Some? {
      StillDead(s.store, CallOf(s, e).value, s.reqs[i].user);
    }
    assert Live(t.store, s.reqs[i].user) ==> Live(s.store, s.reqs[i].user);
    assert t.reqs[i] == s.reqs[i];
    FitByCounts(s, t, i);
  }

  lemma BeginKeepsFit(s: Sys, i: nat)
    requires i < |s.reqs| && RowsFit(s, i) && s.reqs[i].phase == Waiting
    ensures RowsFit(Next(s, Begin(i)).0, i)
  {
    StepCounts(s, Begin(i), i);
  }

  lemma FailKeepsFit(s0: Store, s: Sys, i: nat)
    requires Inv(s0, s) && Solvent(s0) && i < |s.reqs| && RowsFit(s, i) && s.reqs[i].phase == Open
    ensures RowsFit(Next(s, Fail(i)).0, i)
  {
    StepCounts(s, Fail(i), i);
    StillDead(s.store, CallOf(s, Fail(i)).value, s.reqs[i].user);
    if Live(s.store, s.reqs[i].user) {
      HoldsAreCovered(s0, s, Fail(i));
    }
  }

  lemma DeliverKeepsFit(s0: Store, s: Sys, i: nat, actual: int)
    requires Inv(s0, s) && Solvent(s0) && i < |s.reqs| && RowsFit(s, i) && s.reqs[i].phase == Open
    ensures RowsFit(Next(s, Deliver(i, actual)).0, i)
  {
    var r := s.reqs[i];
    var e := Deliver(i, actual);
    var call := SettleCall(r, i, actual);
    assert CallOf(s, e) == call;
    StepCounts(s, e, i);
    if call.None? {
      assert Next(s, e).0.store == s.store;
    } else if !Live(s.store, r.user) {
      DeadStayPut(s, e);
    } else {
      HoldsAreCovered(s0, s, e);
      SettleRows(r, i, actual);
    }
    assert Next(s, e).0.reqs[i] == r.(phase := Delivered(actual));
  }

  lemma SettleRows(r: Req, i: nat, actual: int)
    requires SettleCall(r, i, actual).Some?
    ensures var c := SettleCall(r, i, actual).value;
      && c.ref == Request(i)
      && RowsOfKind(c, KindFreeze) == RowsOfKind(c, KindRefund) == 0
      && RowsOfKind(c, KindUnfreeze) == (if r.cost > 0 then 1 else 0)
      && RowsOfKind(c, KindConsume) <= 1
  {
  }

  lemma StepKeepsFit(s0: Store, s: Sys, e: Step, i: nat)
    requires Inv(s0, s) && Solvent(s0) && i < |s.reqs| && RowsFit(s, i)
    ensures RowsFit(Next(s, e).0, i)
  {
    if e == Begin(i) && s.reqs[i].phase == Waiting {
      BeginKeepsFit(s, i);
    } else if e == Fail(i) && s.reqs[i].phase == Open {
      FailKeepsFit(s0, s, i);
    } else if e.Deliver? && e.i == i && s.reqs[i].phase == Open {
      DeliverKeepsFit(s0, s, i, e.actual);
    } else {
      OthersKeepFit(s, e, i);
    }
  }

  /** A request that just arrived has no rows yet. */
  lemma ArrivalFits(s: Sys, e: Step, i: nat)
    requires i >= |s.reqs| && NoRows(s, i)
    ensures NoRows(Next(s, e).0, i)
    ensures i < |Next(s, e).0.reqs| ==> RowsFit(Next(s, e).0, i)
  {
    StepCounts(s, e, i);
  }

  lemma StepKeepsLedger(s0: Store, s: Sys, e: Step)
    requires Inv(s0, s) && Solvent(s0) && LedgerFits(s)
    ensures LedgerFits(Next(s, e).0)
  {
    var t := Next(s, e).0;
    forall i: nat
      ensures i < |t.reqs| ==> RowsFit(t, i)
      ensures i >= |t.reqs| ==> NoRows(t, i)
    {
      if i < |s.reqs| {
        StepKeepsFit(s0, s, e, i);
      } else {
        ArrivalFits(s, e, i);
      }
    }
  }

  lemma {:induction false} RunKeepsLedger(s0: Store, s: Sys, events: seq<Step>)
    requires Inv(s0, s) && Solvent(s0) && LedgerFits(s)
    ensures LedgerFits(Run(s, events))
    decreases events
  {
    if events != [] {
      StepKeepsInv(s0, s, events[0]);
      StepKeepsLedger(s0, s, events[0]);
      RunKeepsLedger(s0, Next(s, events[0]).0, events[1..]);
    }
  }

  predicate Finished(r: Req) {
    r.phase.Failed? || r.phase.Delivered?
  }

  /** Whether a finished request makes the call that closes its hold. */
  predicate Closes(r: Req, i: nat) {
    r.phase.Failed? || (r.phase.Delivered? && SettleCall(r, i, r.phase.actual).Some?)
  }

  /** Read off the ledger of any run: a request froze at most once, and of the
      unfreeze and refund rows together it has at most as many. A living user's
      finished request has closed its hold exactly if it failed or settled. */
  lemma OpenedAndClosedAtMostOnce(s0: Store, events: seq<Step>, i: nat)
    requires Solvent(s0) && forall r :: r in s0.ledger ==> !r.ref.Request?
    ensures var ledger := Run(Start(s0), events).store.ledger;
      && Count(ledger, KindFreeze, Request(i)) <= 1
      && Count(ledger, KindUnfreeze, Request(i)) + Count(ledger, KindRefund, Request(i))
         <= Count(ledger, KindFreeze, Request(i))
      && Count(ledger, KindConsume, Request(i)) <= 1
      && (Count(ledger, KindRefund, Request(i)) > 0 ==> Count(ledger, KindConsume, Request(i)) == 0)
    ensures var s := Run(Start(s0), events);
      i < |s.reqs| && s.reqs[i].cost > 0 && Finished(s.reqs[i]) && Live(s.store, s.reqs[i].user) ==>
        && Count(s.store.ledger, KindFreeze, Request(i)) == 1
        && (Count(s.store.ledger, KindUnfreeze, Request(i)) + Count(s.store.ledger, KindRefund, Request(i)) == 1 <==>
              Closes(s.reqs[i], i))
        && (s.reqs[i].phase.Failed? <==> Count(s.store.ledger, KindRefund, Request(i)) == 1)
  {
    var s := Run(Start(s0), events);
    forall j: nat
      ensures NoRows(Start(s0), j)
    {
      forall kind: Kind
        ensures Count(s0.ledger, kind, Request(j)) == 0
      {
        NoneCounted(s0.ledger, kind, j);
      }
    }
    RunKeepsLedger(s0, Start(s0), events);
    if i < |s.reqs| {
      assert RowsFit(s, i);
    } else {
      assert NoRows(s, i);
    }
  }

  lemma {:induction false} NoneCounted(rows: seq<Row>, kind: Kind, i: nat)
    requires forall r :: r in rows ==> !r.ref.Request?
    ensures Count(rows, kind, Request(i)) == 0
    decreases |rows|
  {
    if rows != [] {
      NoneCounted(rows[..|rows| - 1], kind, i);
    }
  }
}
