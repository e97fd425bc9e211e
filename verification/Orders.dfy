/** Recharge orders: payment notifications, an administrator's force-paid, the
    user's cancellation and the expiry job race on the status of an order; who
    wins the compare-and-set to paid credits it, in a transaction of its own. */
module Orders {
  import opened Billing
  import H = Holds

  datatype Status = Pending | Paid | Expired | Cancelled

  datatype Order = Order(user: nat, credits: int, bonus: int, status: Status)

  /** A request in flight on an order: about to compare-and-set, about to
      credit, or gone after winning without a credit being booked. */
  datatype Worker = Settling(order: nat) | Cancelling(order: nat) | Crediting(order: nat) | Lost(order: nat) | Finished

  datatype Sys = Sys(store: Store, orders: seq<Order>, workers: seq<Worker>)

  datatype Step =
    | Place(user: nat, credits: int, bonus: int)
    | Notify(order: nat, tradeSuccess: bool, amountMatches: bool)
    | ForcePaid(order: nat)
    | Cancel(order: nat, owner: nat)
    | Proceed(worker: nat)
    | Crash(worker: nat)
    | Expire(overdue: set<nat>)
    | Outside(call: Call)
    | Delete(gone: nat)

  function CreditCall(orders: seq<Order>, o: nat): Call
    requires o < |orders|
  {
    Recharge(orders[o].user, orders[o].credits + orders[o].bonus, Ref.Order(o))
  }

  function WithWorker(s: Sys, w: Worker): Sys {
    s.(workers := s.workers + [w])
  }

  function SetStatus(orders: seq<Order>, o: nat, status: Status): seq<Order>
    requires o < |orders|
  {
    orders[o := orders[o].(status := status)]
  }

  function ExpireAll(orders: seq<Order>, overdue: set<nat>): seq<Order> {
    seq(|orders|, i requires 0 <= i < |orders| =>
      if i in overdue && orders[i].status == Pending then orders[i].(status := Expired) else orders[i])
  }

  /** How many of the first n orders are pending and overdue. */
  function Overdue(orders: seq<Order>, overdue: set<nat>, n: nat): nat
    requires n <= |orders|
  {
    if n == 0 then 0
    else Overdue(orders, overdue, n - 1) + if n - 1 in overdue && orders[n - 1].status == Pending then 1 else 0
  }

  /** The second half of a request in flight. */
  function Proceeds(s: Sys, w: nat): Sys
    requires w < |s.workers|
  {
    var worker := s.workers[w];
    if worker.Finished? || worker.Lost? || worker.order >= |s.orders| then s
    else
      var o := worker.order;
      match worker
      case Settling(_) =>
        if s.orders[o].status == Pending
        then Sys(s.store, SetStatus(s.orders, o, Paid), s.workers[w := Crediting(o)])
        else s.(workers := s.workers[w := Finished])
      case Cancelling(_) =>
        Sys(s.store, if s.orders[o].status == Pending then SetStatus(s.orders, o, Cancelled) else s.orders,
            s.workers[w := Finished])
      case Crediting(_) =>
        var (store, out) := Book(s.store, CreditCall(s.orders, o));
        Sys(store, s.orders, s.workers[w := if out == Done then Finished else Lost(o)])
  }

  function Next(s: Sys, e: Step): Sys {
    match e
    case Place(user, credits, bonus) => s.(orders := s.orders + [Order.Order(user, credits, bonus, Pending)])
    case Notify(o, success, matches) =>
      if o < |s.orders| && s.orders[o].status != Paid && success && matches then WithWorker(s, Settling(o)) else s
    case ForcePaid(o) => if o < |s.orders| && s.orders[o].status == Pending then WithWorker(s, Settling(o)) else s
    case Cancel(o, owner) =>
      if o < |s.orders| && s.orders[o].user == owner && s.orders[o].status == Pending
      then WithWorker(s, Cancelling(o)) else s
    case Proceed(w) => if w < |s.workers| then Proceeds(s, w) else s
    case Crash(w) =>
      if w < |s.workers| && !s.workers[w].Lost?
      then s.(workers := s.workers[w := if s.workers[w].Crediting? then Lost(s.workers[w].order) else Finished])
      else s
    case Expire(overdue) => s.(orders := ExpireAll(s.orders, overdue))
    case Outside(c) => if c.ref.Order? then s else s.(store := Book(s.store, c).0)
    case Delete(u) => s.(store := Apply(s.store, SoftDelete(u)))
  }

  function Run(s: Sys, steps: seq<Step>): Sys
    decreases steps
  {
    if steps == [] then s else Run(Next(s, steps[0]), steps[1..])
  }

  // ---- Status only moves once ----

  ghost predicate Settled(s: Sys, t: Sys) {
    && |s.orders| <= |t.orders|
    && forall o :: 0 <= o < |s.orders| ==>
         && t.orders[o].(status := s.orders[o].status) == s.orders[o]
         && (s.orders[o].status != Pending ==> t.orders[o].status == s.orders[o].status)
  }

  /** In every run an order that left pending keeps its status for ever, and
      its user and amounts never change. */
  lemma {:induction false} StatusMovesOnce(s: Sys, steps: seq<Step>)
    ensures Settled(s, Run(s, steps))
    decreases steps
  {
    if steps != [] {
      assert Settled(s, Next(s, steps[0]));
      StatusMovesOnce(Next(s, steps[0]), steps[1..]);
    }
  }

  // ---- Credited at most once, and only when paid ----

  /** The workers that won the order and have not booked its credit. */
  function Winners(workers: seq<Worker>, o: nat): nat {
    if workers == [] then 0
    else
      var last := workers[|workers| - 1];
      Winners(workers[..|workers| - 1], o) +
      if (last.Crediting? || last.Lost?) && last.order == o then 1 else 0
  }

  function Wins(w: Worker, o: nat): nat {
    if (w.Crediting? || w.Lost?) && w.order == o then 1 else 0
  }

  lemma {:induction false} WinnersAfterUpdate(workers: seq<Worker>, i: nat, w: Worker, o: nat)
    requires i < |workers|
    ensures Winners(workers[i := w], o) == Winners(workers, o) + Wins(w, o) - Wins(workers[i], o)
    decreases |workers|
  {
    var n := |workers| - 1;
    if i == n {
      assert workers[i := w][..n] == workers[..n];
    } else {
      assert workers[i := w][..n] == workers[..n][i := w];
      WinnersAfterUpdate(workers[..n], i, w, o);
    }
  }

  lemma WinnersAfterArrival(workers: seq<Worker>, w: Worker, o: nat)
    ensures Winners(workers + [w], o) == Winners(workers, o) + Wins(w, o)
  {
    assert (workers + [w])[..|workers|] == workers;
  }

  lemma {:induction false} WinnerCounts(workers: seq<Worker>, i: nat, o: nat)
    requires i < |workers|
    ensures Winners(workers, o) >= Wins(workers[i], o)
    decreases |workers|
  {
    if i < |workers| - 1 {
      WinnerCounts(workers[..|workers| - 1], i, o);
    }
  }

  function Credits(s: Store, o: nat): nat {
    H.Count(s.ledger, KindRecharge, Ref.Order(o))
  }

  /** A paid order was won once: its winner is on the way, was lost, or has
      booked the one row there is. An order that is not paid was not won. */
  ghost predicate Balanced(s: Sys, o: nat) {
    Credits(s.store, o) + Winners(s.workers, o) == if o < |s.orders| && s.orders[o].status == Paid then 1 else 0
  }

  ghost predicate RowsOfOrders(s: Sys) {
    forall r :: r in s.store.ledger && r.ref.Order? ==>
      && r.ref.number < |s.orders|
      && r.user == s.orders[r.ref.number].user
      && r.kind == KindRecharge
      && r.amount == s.orders[r.ref.number].credits + s.orders[r.ref.number].bonus
  }

  ghost predicate Inv(s: Sys) {
    && (forall o: nat :: Balanced(s, o))
    && RowsOfOrders(s)
  }

  lemma SettlingKeepsBalance(s: Sys, w: nat, o: nat)
    requires w < |s.workers| && (s.workers[w].Settling? || s.workers[w].Cancelling?)
    requires Balanced(s, o)
    ensures Balanced(Proceeds(s, w), o)
  {
    var t := Proceeds(s, w);
    assert t.store == s.store;
    if s.workers[w].order < |s.orders| {
      WinnersAfterUpdate(s.workers, w, t.workers[w], o);
    }
  }

  lemma CreditingKeepsBalance(s: Sys, w: nat, o: nat)
    requires w < |s.workers| && s.workers[w].Crediting?
    requires Balanced(s, o) && Balanced(s, s.workers[w].order)
    ensures Balanced(Proceeds(s, w), o)
  {
    var t := Proceeds(s, w);
    var won := s.workers[w].order;
    WinnerCounts(s.workers, w, won);
    if won < |s.orders| {
      WinnersAfterUpdate(s.workers, w, t.workers[w], o);
      H.CallCounts(s.store, CreditCall(s.orders, won), KindRecharge, Ref.Order(o));
      assert t.orders == s.orders;
    }
  }

  lemma ProceedKeepsBalance(s: Sys, w: nat, o: nat)
    requires w < |s.workers| && Balanced(s, o)
    requires Balanced(s, if s.workers[w].Crediting? then s.workers[w].order else o)
    ensures Balanced(Proceeds(s, w), o)
  {
    if s.workers[w].Crediting? {
      CreditingKeepsBalance(s, w, o);
    } else if s.workers[w].Settling? || s.workers[w].Cancelling? {
      SettlingKeepsBalance(s, w, o);
    }
  }

  lemma ArrivalKeepsBalance(s: Sys, w: Worker, o: nat)
    requires Balanced(s, o) && (w.Settling? || w.Cancelling?)
    ensures Balanced(WithWorker(s, w), o)
  {
    WinnersAfterArrival(s.workers, w, o);
  }

  lemma CrashKeepsBalance(s: Sys, w: nat, o: nat)
    requires Balanced(s, o) && w < |s.workers| && !s.workers[w].Lost?
    ensures Balanced(Next(s, Crash(w)), o)
  {
    WinnersAfterUpdate(s.workers, w, Next(s, Crash(w)).workers[w], o);
  }

  lemma OutsideKeepsBalance(s: Sys, c: Call, o: nat)
    requires Balanced(s, o)
    ensures Balanced(Next(s, Outside(c)), o)
  {
    if !c.ref.Order? {
      H.CallCounts(s.store, c, KindRecharge, Ref.Order(o));
    }
  }

  lemma StepKeepsBalance(s: Sys, e: Step, o: nat)
    requires forall p: nat :: Balanced(s, p)
    ensures Balanced(Next(s, e), o)
  {
    assert Balanced(s, o);
    match e
    case Notify(p, _, _) => ArrivalKeepsBalance(s, Settling(p), o);
    case ForcePaid(p) => ArrivalKeepsBalance(s, Settling(p), o);
    case Cancel(p, _) => ArrivalKeepsBalance(s, Cancelling(p), o);
    case Proceed(w) =>
      if w < |s.workers| {
        ProceedKeepsBalance(s, w, o);
      }
    case Crash(w) =>
      if w < |s.workers| && !s.workers[w].Lost? {
        CrashKeepsBalance(s, w, o);
      }
    case Outside(c) => OutsideKeepsBalance(s, c, o);
    case _ =>
  }

  lemma RowsStay(s: Sys, t: Sys)
    requires RowsOfOrders(s) && Settled(s, t) && t.store.ledger == s.store.ledger
    ensures RowsOfOrders(t)
  {
  }

  lemma OutsideKeepsRows(s: Sys, c: Call)
    requires RowsOfOrders(s) && !c.ref.Order?
    ensures RowsOfOrders(Next(s, Outside(c)))
  {
    RowsOfCall(s.store, c);
  }

  lemma CreditKeepsRows(s: Sys, w: nat)
    requires RowsOfOrders(s) && w < |s.workers| && s.workers[w].Crediting? && s.workers[w].order < |s.orders|
    ensures RowsOfOrders(Proceeds(s, w))
  {
    RowsOfCall(s.store, CreditCall(s.orders, s.workers[w].order));
  }

  lemma StepKeepsRows(s: Sys, e: Step)
    requires RowsOfOrders(s)
    ensures RowsOfOrders(Next(s, e))
  {
    if e.Outside? && !e.call.ref.Order? {
      OutsideKeepsRows(s, e.call);
    } else if e.Proceed? && e.worker < |s.workers| && s.workers[e.worker].Crediting?
              && s.workers[e.worker].order < |s.orders| {
      CreditKeepsRows(s, e.worker);
    } else {
      assert Next(s, e).store.ledger == s.store.ledger;
      RowsStay(s, Next(s, e));
    }
  }

  lemma {:induction false} RunKeepsInv(s: Sys, steps: seq<Step>)
    requires Inv(s)
    ensures Inv(Run(s, steps))
    decreases steps
  {
    if steps != [] {
      forall o: nat
        ensures Balanced(Next(s, steps[0]), o)
      {
        StepKeepsBalance(s, steps[0], o);
      }
      StepKeepsRows(s, steps[0]);
      RunKeepsInv(Next(s, steps[0]), steps[1..]);
    }
  }

  lemma {:induction false} NoneBooked(rows: seq<Row>, o: nat)
    requires forall r :: r in rows ==> !r.ref.Order?
    ensures H.Count(rows, KindRecharge, Ref.Order(o)) == 0
    decreases |rows|
  {
    if rows != [] {
      NoneBooked(rows[..|rows| - 1], o);
    }
  }

  /** Whatever notifications, administrators and the expiry job do in whatever
      order, an order is credited at most once, only when it is paid, and for
      its credits and bonus. A paid order is credited if and only if its winner
      is neither still on the way nor lost. */
  lemma CreditedOnceAndOnlyWhenPaid(s0: Store, steps: seq<Step>, o: nat)
    requires forall r :: r in s0.ledger ==> !r.ref.Order?
    ensures var s := Run(Sys(s0, [], []), steps);
      && Credits(s.store, o) <= 1
      && (Credits(s.store, o) == 1 ==> o < |s.orders| && s.orders[o].status == Paid)
      && (o < |s.orders| && s.orders[o].status == Paid ==>
            (Credits(s.store, o) == 1 <==> Winners(s.workers, o) == 0))
      && (forall r :: r in s.store.ledger && r.ref == Ref.Order(o) ==>
            && o < |s.orders| && r.user == s.orders[o].user
            && r.amount == s.orders[o].credits + s.orders[o].bonus)
  {
    var start := Sys(s0, [], []);
    forall p: nat
      ensures Balanced(start, p)
    {
      NoneBooked(s0.ledger, p);
    }
    RunKeepsInv(start, steps);
    assert Balanced(Run(start, steps), o);
  }

  // ---- The service ----

  datatype Reply = Success | Failure | InvalidState | NoSuchOrder

  /** The service's requests, each run from beginning to end. */
  class Service {
    var engine: Engine
    var orders: seq<Order>

    constructor (engine: Engine)
      ensures this.engine == engine && orders == []
    {
      this.engine := engine;
      orders := [];
    }

    /** The state of the service when nothing else is in flight. */
    function State(): Sys
      reads this, engine
    {
      Sys(engine.State(), orders, [])
    }

    /** Two steps after the request was read: the compare-and-set, then the
        credit, which is not made when another request was faster. */
    method SettleOrder(o: nat) returns (ok: bool)
      requires o < |orders|
      modifies this`orders, engine
      ensures var t := Run(old(State()).(workers := [Settling(o)]), [Proceed(0), Proceed(0)]);
        State() == t.(workers := []) && (ok <==> t.workers == [Finished])
    {
      ghost var s := State().(workers := [Settling(o)]);
      TwoSteps(s, Proceed(0), Proceed(0));
      if orders[o].status != Pending {
        assert Next(s, Proceed(0)).workers == [Finished];
        return true;
      }
      orders := SetStatus(orders, o, Paid);
      ghost var mid := Next(s, Proceed(0));
      assert mid == Sys(engine.State(), orders, [Crediting(o)]);
      var out := engine.Recharge(orders[o].user, orders[o].credits + orders[o].bonus, Ref.Order(o));
      ok := out == Done;
      assert Next(mid, Proceed(0)).workers == [if ok then Finished else Lost(o)];
    }

    method HandleNotify(o: nat, tradeSuccess: bool, amountMatches: bool) returns (reply: Reply)
      modifies this`orders, engine
      ensures State() ==
        Run(old(State()), [Notify(o, tradeSuccess, amountMatches), Proceed(0), Proceed(0)]).(workers := [])
      ensures o < |old(orders)| && old(orders)[o].status == Paid ==> reply == Success
      ensures reply == Success && tradeSuccess ==>
        && o < |old(orders)| == |orders| && (old(orders)[o].status == Paid || amountMatches)
        && (orders[o].status == Paid <==> old(orders)[o].status == Pending || old(orders)[o].status == Paid)
        && (orders[o].status != Paid ==> State() == old(State()))
    {
      ghost var s := State();
      ThreeSteps(s, Notify(o, tradeSuccess, amountMatches), Proceed(0), Proceed(0));
      if o >= |orders| {
        return Failure;
      }
      if orders[o].status == Paid {
        return Success;
      }
      if !tradeSuccess {
        return Success;
      }
      if !amountMatches {
        return Failure;
      }
      assert Next(s, Notify(o, true, true)) == s.(workers := [Settling(o)]);
      TwoSteps(s.(workers := [Settling(o)]), Proceed(0), Proceed(0));
      var ok := SettleOrder(o);
      reply := if ok then Success else Failure;
    }

    method AdminForcePaid(o: nat) returns (reply: Reply)
      modifies this`orders, engine
      ensures State() == Run(old(State()), [ForcePaid(o), Proceed(0), Proceed(0)]).(workers := [])
      ensures reply == InvalidState <==> o < |old(orders)| && old(orders)[o].status != Pending
      ensures reply == Success ==> o < |old(orders)| && orders == SetStatus(old(orders), o, Paid)
    {
      ghost var s := State();
      ThreeSteps(s, ForcePaid(o), Proceed(0), Proceed(0));
      if o >= |orders| {
        return NoSuchOrder;
      }
      if orders[o].status != Pending {
        return InvalidState;
      }
      assert Next(s, ForcePaid(o)) == s.(workers := [Settling(o)]);
      TwoSteps(s.(workers := [Settling(o)]), Proceed(0), Proceed(0));
      var ok := SettleOrder(o);
      reply := if ok then Success else Failure;
    }

    method CancelByUser(o: nat, user: nat) returns (reply: Reply)
      modifies this`orders
      ensures State() == Run(old(State()), [Cancel(o, user), Proceed(0)]).(workers := [])
      ensures reply == Success <==>
        o < |old(orders)| && old(orders)[o].user == user && old(orders)[o].status == Pending
    {
      ghost var s := State();
      TwoSteps(s, Cancel(o, user), Proceed(0));
      if o >= |orders| || orders[o].user != user {
        return NoSuchOrder;
      }
      if orders[o].status != Pending {
        return InvalidState;
      }
      assert Next(s, Cancel(o, user)) == s.(workers := [Cancelling(o)]);
      orders := SetStatus(orders, o, Cancelled);
      reply := Success;
    }

    /** One UPDATE over the table; it reports how many rows it changed. */
    method ExpirePending(overdue: set<nat>) returns (updated: nat)
      modifies this`orders
      ensures State() == Next(old(State()), Expire(overdue))
      ensures updated == Overdue(old(orders), overdue, |old(orders)|)
      ensures updated == 0 <==> orders == old(orders)
    {
      NoneOverdue(orders, overdue, |orders|);
      updated := Overdue(orders, overdue, |orders|);
      orders := ExpireAll(orders, overdue);
    }
  }

  lemma {:induction false} NoneOverdue(orders: seq<Order>, overdue: set<nat>, n: nat)
    requires n <= |orders|
    ensures Overdue(orders, overdue, n) == 0 <==> ExpireAll(orders, overdue)[..n] == orders[..n]
  {
    if n > 0 {
      NoneOverdue(orders, overdue, n - 1);
      var after := ExpireAll(orders, overdue);
      assert after[..n] == after[..n - 1] + [after[n - 1]];
      assert orders[..n] == orders[..n - 1] + [orders[n - 1]];
    }
  }

  lemma TwoSteps(s: Sys, a: Step, b: Step)
    ensures Run(s, [a, b]) == Next(Next(s, a), b)
  {
    assert [a, b][1..] == [b];
    assert Run(Next(s, a), [b]) == Run(Next(Next(s, a), b), [b][1..]);
  }

  lemma ThreeSteps(s: Sys, a: Step, b: Step, c: Step)
    ensures Run(s, [a, b, c]) == Next(Next(Next(s, a), b), c)
  {
    assert [a, b, c][1..] == [b, c];
    TwoSteps(Next(s, a), b, c);
  }
}
