/** The credit ledger: one atomic step per billing transaction, the imperative
    engine that performs it, and what the ledger says about the balances.

    A user row carries the two amounts every transaction moves; a transaction
    either commits both its update and its ledger rows or changes nothing. */
module Billing {

  datatype User = User(balance: int, frozen: int, deleted: bool)

  datatype Kind =
    | KindFreeze | KindUnfreeze | KindConsume | KindRefund
    | KindRecharge | KindRedeem | KindCheckin | KindAdjust

  /** What a ledger row points back to. The formats used as references by the
      callers never collide, hence one constructor for each. */
  datatype Ref =
    | Request(id: nat) | Order(number: nat) | Code(code: string) | CheckinDay(day: nat) | Note(text: string)

  datatype Row = Row(user: nat, key: nat, kind: Kind, amount: int, balanceAfter: int, ref: Ref)

  datatype Store = Store(users: map<nat, User>, ledger: seq<Row>)

  datatype Outcome = Done | Insufficient | Conflict | NotFound | BadAmount

  datatype Call =
    | PreDeduct(user: nat, key: nat, amount: int, ref: Ref)
    | Settle(user: nat, key: nat, expected: int, actual: int, ref: Ref)
    | Refund(user: nat, key: nat, expected: int, ref: Ref)
    | Recharge(user: nat, amount: int, ref: Ref)
    | Credit(user: nat, amount: int, kind: Kind, ref: Ref)
    | Adjust(user: nat, delta: int, ref: Ref)

  predicate Live(s: Store, u: nat) {
    u in s.users && !s.users[u].deleted
  }

  // ---- The transactions as functions ----

  function Max0(x: int): nat {
    if x < 0 then 0 else x
  }

  /** A call that returns successfully without opening a transaction. */
  predicate Skips(c: Call) {
    match c
    case PreDeduct(_, _, amount, _) => amount <= 0
    case Settle(_, _, expected, actual, _) => expected <= 0 && actual <= 0
    case Refund(_, _, expected, _) => expected <= 0
    case _ => false
  }

  function Verdict(s: Store, c: Call): Outcome {
    if Skips(c) then Done else
    match c
    case PreDeduct(u, _, amount, _) => if Live(s, u) && s.users[u].balance >= amount then Done else Insufficient
    case Settle(u, _, expected, _, _) => if Live(s, u) && s.users[u].frozen >= expected then Done else Conflict
    case Refund(u, _, expected, _) => if Live(s, u) && s.users[u].frozen >= expected then Done else Conflict
    // A recharge only needs the user row to be there, deleted or not.
    case Recharge(u, amount, _) => if amount <= 0 then BadAmount else if u in s.users then Done else NotFound
    case Credit(u, amount, _, _) => if amount <= 0 then BadAmount else if Live(s, u) then Done else NotFound
    case Adjust(u, delta, _) =>
      if delta == 0 then BadAmount
      else if delta > 0 then if Live(s, u) then Done else NotFound
      else if Live(s, u) && s.users[u].balance >= -delta then Done else Insufficient
  }

  function BalanceDelta(s: Store, c: Call): int {
    match c
    case PreDeduct(_, _, amount, _) => -amount
    case Settle(_, _, expected, actual, _) => expected - Max0(actual)
    case Refund(_, _, expected, _) => expected
    case Recharge(u, amount, _) => if Live(s, u) then amount else 0
    case Credit(_, amount, _, _) => amount
    case Adjust(_, delta, _) => delta
  }

  function FrozenDelta(c: Call): int {
    match c
    case PreDeduct(_, _, amount, _) => amount
    case Settle(_, _, expected, _, _) => -expected
    case Refund(_, _, expected, _) => -expected
    case _ => 0
  }

  /** The rows of a committed call; all carry the final balance. */
  function NewRows(c: Call, after: int): seq<Row> {
    match c
    case PreDeduct(u, key, amount, ref) => [Row(u, key, KindFreeze, -amount, after, ref)]
    case Settle(u, key, expected, actual, ref) =>
      (if expected > 0 then [Row(u, key, KindUnfreeze, expected, after, ref)] else []) +
      (if actual > 0 then [Row(u, key, KindConsume, -actual, after, ref)] else [])
    case Refund(u, key, expected, ref) => [Row(u, key, KindRefund, expected, after, ref)]
    case Recharge(u, amount, ref) => [Row(u, 0, KindRecharge, amount, after, ref)]
    case Credit(u, amount, kind, ref) => [Row(u, 0, kind, amount, after, ref)]
    case Adjust(u, delta, ref) => [Row(u, 0, KindAdjust, delta, after, ref)]
  }

  /** One transaction: all of its changes, or none. */
  function Book(s: Store, c: Call): (Store, Outcome) {
    if Skips(c) || Verdict(s, c) != Done then (s, Verdict(s, c))
    else
      var user := s.users[c.user];
      var after := user.balance + BalanceDelta(s, c);
      (Store(s.users[c.user := user.(balance := after, frozen := user.frozen + FrozenDelta(c))],
             s.ledger + NewRows(c, after)), Done)
  }

  // ---- The engine ----

  /** The two tables the billing engine updates. Every method is one database
      transaction: on an error exit the tables are as they were. */
  class Engine {
    var users: map<nat, User>
    var ledger: seq<Row>

    function State(): Store
      reads this
    {
      Store(users, ledger)
    }

    constructor (users: map<nat, User>)
      ensures State() == Store(users, [])
    {
      this.users := users;
      ledger := [];
    }

    method PreDeduct(user: nat, key: nat, amount: int, ref: Ref) returns (out: Outcome)
      modifies this
      ensures (State(), out) == Book(old(State()), Call.PreDeduct(user, key, amount, ref))
    {
      if amount <= 0 {
        return Done;
      }
      if !(user in users && users[user].balance >= amount && !users[user].deleted) {
        return Insufficient;
      }
      var u := users[user];
      users := users[user := u.(balance := u.balance - amount, frozen := u.frozen + amount)];
      var balanceAfter := users[user].balance;
      ledger := ledger + [Row(user, key, KindFreeze, -amount, balanceAfter, ref)];
      out := Done;
    }

    method Settle(user: nat, key: nat, expected: int, actual: int, ref: Ref) returns (out: Outcome)
      modifies this
      ensures (State(), out) == Book(old(State()), Call.Settle(user, key, expected, actual, ref))
    {
      if expected <= 0 && actual <= 0 {
        return Done;
      }
      var spent := if actual < 0 then 0 else actual;
      var balanceDelta, frozenDelta := expected - spent, -expected;
      if !(user in users && users[user].frozen + frozenDelta >= 0 && !users[user].deleted) {
        return Conflict;
      }
      var u := users[user];
      users := users[user := u.(balance := u.balance + balanceDelta, frozen := u.frozen + frozenDelta)];
      var balanceAfter := users[user].balance;
      if expected > 0 {
        ledger := ledger + [Row(user, key, KindUnfreeze, expected, balanceAfter, ref)];
      }
      if spent > 0 {
        ledger := ledger + [Row(user, key, KindConsume, -spent, balanceAfter, ref)];
      }
      assert ledger == old(ledger) + NewRows(Call.Settle(user, key, expected, actual, ref), balanceAfter);
      out := Done;
    }

    method Refund(user: nat, key: nat, expected: int, ref: Ref) returns (out: Outcome)
      modifies this
      ensures (State(), out) == Book(old(State()), Call.Refund(user, key, expected, ref))
    {
      if expected <= 0 {
        return Done;
      }
      if !(user in users && users[user].frozen >= expected && !users[user].deleted) {
        return Conflict;
      }
      var u := users[user];
      users := users[user := u.(balance := u.balance + expected, frozen := u.frozen - expected)];
      ledger := ledger + [Row(user, key, KindRefund, expected, users[user].balance, ref)];
      out := Done;
    }

    /** Unlike the others this one never looks at the number of updated rows. */
    method Recharge(user: nat, amount: int, ref: Ref) returns (out: Outcome)
      modifies this
      ensures (State(), out) == Book(old(State()), Call.Recharge(user, amount, ref))
    {
      if amount <= 0 {
        return BadAmount;
      }
      if user in users && !users[user].deleted {
        users := users[user := users[user].(balance := users[user].balance + amount)];
      }
      if user !in users {
        return NotFound;
      }
      ledger := ledger + [Row(user, 0, KindRecharge, amount, users[user].balance, ref)];
      assert old(users)[user].deleted ==> users == old(users)[user := old(users)[user]];
      out := Done;
    }

    method Credit(user: nat, amount: int, kind: Kind, ref: Ref) returns (out: Outcome, balanceAfter: int)
      modifies this
      ensures (State(), out) == Book(old(State()), Call.Credit(user, amount, kind, ref))
      ensures balanceAfter == if out == Done then old(users)[user].balance + amount else 0
    {
      balanceAfter := 0;
      if amount <= 0 {
        return BadAmount, 0;
      }
      if !(user in users && !users[user].deleted) {
        return NotFound, 0;
      }
      users := users[user := users[user].(balance := users[user].balance + amount)];
      balanceAfter := users[user].balance;
      ledger := ledger + [Row(user, 0, kind, amount, balanceAfter, ref)];
      out := Done;
    }

    method Adjust(user: nat, delta: int, ref: Ref) returns (out: Outcome, balanceAfter: int)
      modifies this
      ensures (State(), out) == Book(old(State()), Call.Adjust(user, delta, ref))
      ensures out == Done ==> balanceAfter == old(users)[user].balance + delta
    {
      balanceAfter := 0;
      if delta == 0 {
        return BadAmount, 0;
      }
      var matched := user in users && !users[user].deleted && (delta > 0 || users[user].balance >= -delta);
      if !matched {
        return if delta < 0 then Insufficient else NotFound, 0;
      }
      users := users[user := users[user].(balance := users[user].balance + delta)];
      balanceAfter := users[user].balance;
      ledger := ledger + [Row(user, 0, KindAdjust, delta, balanceAfter, ref)];
      out := Done;
    }
  }

  // ---- Runs ----

  /** Everything that may happen to the two tables: a billing transaction, or
      an administrator soft-deleting a user (for which there is no way back). */
  datatype Event = Bill(call: Call) | SoftDelete(user: nat)

  function Apply(s: Store, e: Event): Store {
    match e
    case Bill(c) => Book(s, c).0
    case SoftDelete(u) => if u in s.users then s.(users := s.users[u := s.users[u].(deleted := true)]) else s
  }

  function Play(s: Store, events: seq<Event>): Store
    decreases events
  {
    if events == [] then s else Play(Apply(s, events[0]), events[1..])
  }

  predicate HoldKind(k: Kind) {
    k == KindFreeze || k == KindUnfreeze || k == KindRefund
  }

  /** The sum of the amounts booked on u; of the hold rows alone on request. */
  function Booked(rows: seq<Row>, u: nat, holdsOnly: bool): int {
    if rows == [] then 0
    else
      var last := rows[|rows| - 1];
      Booked(rows[..|rows| - 1], u, holdsOnly) +
      if last.user == u && (!holdsOnly || HoldKind(last.kind)) then last.amount else 0
  }

  /** The balance not explained by the ledger, and the frozen amount not
      explained by the hold rows. Conservation says that they stand still. */
  function BalanceGap(s: Store, u: nat): int
    requires u in s.users
  {
    s.users[u].balance - Booked(s.ledger, u, false)
  }

  function FrozenGap(s: Store, u: nat): int
    requires u in s.users
  {
    s.users[u].frozen + Booked(s.ledger, u, true)
  }

  /** A hold of a negative size that is settled for a positive amount. */
  predicate SettlesNegative(s: Store, e: Event, u: nat) {
    e.Bill? && e.call.Settle? && e.call.user == u && e.call.expected < 0 < e.call.actual
    && Book(s, e.call).1 == Done
  }

  /** A recharge that reaches a user who is no longer there. */
  predicate RechargesDeleted(s: Store, e: Event, u: nat) {
    e.Bill? && e.call.Recharge? && e.call.user == u && e.call.amount > 0
    && u in s.users && s.users[u].deleted
  }

  predicate NoNegativeSettle(s: Store, events: seq<Event>, u: nat)
    decreases events
  {
    events != [] ==>
      !SettlesNegative(s, events[0], u) && NoNegativeSettle(Apply(s, events[0]), events[1..], u)
  }

  predicate NoRechargeOfDeleted(s: Store, events: seq<Event>, u: nat)
    decreases events
  {
    events != [] ==>
      !RechargesDeleted(s, events[0], u) && NoRechargeOfDeleted(Apply(s, events[0]), events[1..], u)
  }

  function Weight(r: Row, u: nat, holdsOnly: bool): int {
    if r.user == u && (!holdsOnly || HoldKind(r.kind)) then r.amount else 0
  }

  lemma {:induction false} BookedOne(rows: seq<Row>, r: Row, u: nat, holdsOnly: bool)
    ensures Booked(rows + [r], u, holdsOnly) == Booked(rows, u, holdsOnly) + Weight(r, u, holdsOnly)
  {
    assert (rows + [r])[..|rows|] == rows;
  }

  lemma {:induction false} BookedAppended(rows: seq<Row>, more: seq<Row>, u: nat, holdsOnly: bool)
    requires |more| <= 2
    ensures Booked(rows + more, u, holdsOnly) == Booked(rows, u, holdsOnly) +
      (if |more| > 0 then Weight(more[0], u, holdsOnly) else 0) +
      (if |more| > 1 then Weight(more[1], u, holdsOnly) else 0)
  {
    if |more| == 0 {
      assert rows + more == rows;
    } else {
      BookedOne(rows, more[0], u, holdsOnly);
      if |more| == 1 {
        assert rows + more == rows + [more[0]];
      } else {
        BookedOne(rows + [more[0]], more[1], u, holdsOnly);
        assert rows + more == rows + [more[0]] + [more[1]];
      }
    }
  }

  /** What a committed call books on its user, in all or as hold rows. */
  function CallAmount(c: Call, holdsOnly: bool): int {
    match c
    case PreDeduct(_, _, amount, _) => 0 - Max0(amount)
    case Settle(_, _, expected, actual, _) => Max0(expected) - if holdsOnly then 0 else Max0(actual)
    case Refund(_, _, expected, _) => Max0(expected)
    case Recharge(_, amount, _) => if holdsOnly then 0 else amount
    case Credit(_, amount, kind, _) => if holdsOnly && !HoldKind(kind) then 0 else amount
    case Adjust(_, delta, _) => if holdsOnly then 0 else delta
  }

  /** A transaction only appends rows, at most two and all on its own user,
      and the last of them carries the balance the user ends with. */
  lemma RowsOfCall(s: Store, c: Call)
    ensures var (t, out) := Book(s, c);
      && t.users.Keys == s.users.Keys
      && (forall v :: v in s.users && v != c.user ==> t.users[v] == s.users[v])
      && (out != Done || Skips(c) ==> t == s)
      && (out == Done && !Skips(c) ==>
            && c.user in t.users
            && t.ledger == s.ledger + NewRows(c, t.users[c.user].balance)
            && 1 <= |t.ledger| - |s.ledger| <= 2
            && t.ledger[|t.ledger| - 1].balanceAfter == t.users[c.user].balance
            && forall i :: |s.ledger| <= i < |t.ledger| ==> t.ledger[i].user == c.user && t.ledger[i].ref == c.ref)
  {
  }

  lemma NewRowsBook(c: Call, balance: int, rows: seq<Row>, u: nat, holdsOnly: bool)
    requires !Skips(c)
    ensures Booked(rows + NewRows(c, balance), u, holdsOnly) ==
      Booked(rows, u, holdsOnly) + if c.user == u then CallAmount(c, holdsOnly) else 0
  {
    BookedAppended(rows, NewRows(c, balance), u, holdsOnly);
  }

  lemma CallBooks(s: Store, c: Call, u: nat, holdsOnly: bool)
    ensures Booked(Book(s, c).0.ledger, u, holdsOnly) == Booked(s.ledger, u, holdsOnly) +
      if Book(s, c).1 == Done && c.user == u then CallAmount(c, holdsOnly) else 0
  {
    RowsOfCall(s, c);
    if Book(s, c).1 == Done {
      if Skips(c) {
        assert CallAmount(c, holdsOnly) == 0;
      } else {
        NewRowsBook(c, Book(s, c).0.users[c.user].balance, s.ledger, u, holdsOnly);
      }
    }
  }

  /** One event moves the gaps by nothing, or down (balance) and up (frozen)
      in exactly the two cases named above. */
  lemma EventMovesGaps(s: Store, e: Event, u: nat)
    requires u in s.users
    requires e.Bill? && e.call.Credit? ==> !HoldKind(e.call.kind)
    ensures var t := Apply(s, e);
      && u in t.users
      && BalanceGap(t, u) <= BalanceGap(s, u)
      && (BalanceGap(t, u) == BalanceGap(s, u) <==> !SettlesNegative(s, e, u) && !RechargesDeleted(s, e, u))
      && FrozenGap(t, u) >= FrozenGap(s, u)
      && (FrozenGap(t, u) == FrozenGap(s, u) <==> !SettlesNegative(s, e, u))
  {
    if e.Bill? {
      CallBooks(s, e.call, u, false);
      CallBooks(s, e.call, u, true);
    }
  }

  predicate CreditsAreNoHolds(events: seq<Event>) {
    forall e :: e in events && e.Bill? && e.call.Credit? ==> !HoldKind(e.call.kind)
  }

  /** Conservation over whole runs, exactly. For every user and every run the
      balance is the opening balance plus all amounts booked since, if and only
      if no recharge reached the user after deletion and no negative hold was
      settled; frozen follows the hold rows if and only if the latter holds.
      When it fails, the balance is too small and never too large. */
  lemma {:induction false} ConservationExactly(s: Store, events: seq<Event>, u: nat)
    requires u in s.users && CreditsAreNoHolds(events)
    ensures var t := Play(s, events);
      && u in t.users
      && BalanceGap(t, u) <= BalanceGap(s, u)
      && (BalanceGap(t, u) == BalanceGap(s, u) <==>
          NoNegativeSettle(s, events, u) && NoRechargeOfDeleted(s, events, u))
      && FrozenGap(t, u) >= FrozenGap(s, u)
      && (FrozenGap(t, u) == FrozenGap(s, u) <==> NoNegativeSettle(s, events, u))
    decreases events
  {
    if events != [] {
      EventMovesGaps(s, events[0], u);
      ConservationExactly(Apply(s, events[0]), events[1..], u);
    }
  }

  lemma {:induction false} PlayConcat(s: Store, a: seq<Event>, b: seq<Event>)
    ensures Play(s, a + b) == Play(Play(s, a), b)
    decreases a
  {
    if a == [] {
      assert a + b == b;
    } else {
      assert (a + b)[1..] == a[1..] + b;
      PlayConcat(Apply(s, a[0]), a[1..], b);
    }
  }

  /** In a run that conserves, the last row of every transaction carries the
      opening balance plus everything booked on the user so far. */
  lemma LastRowIsRunningSum(s: Store, events: seq<Event>, c: Call)
    requires c.user in s.users && CreditsAreNoHolds(events + [Bill(c)])
    requires NoNegativeSettle(s, events + [Bill(c)], c.user) && NoRechargeOfDeleted(s, events + [Bill(c)], c.user)
    ensures var before := Play(s, events);
      var after := Book(before, c).0;
      |after.ledger| > |before.ledger| ==>
        after.ledger[|after.ledger| - 1].balanceAfter == BalanceGap(s, c.user) + Booked(after.ledger, c.user, false)
  {
    PlayConcat(s, events, [Bill(c)]);
    ConservationExactly(s, events + [Bill(c)], c.user);
    RowsOfCall(Play(s, events), c);
    assert Play(Play(s, events), [Bill(c)]) == Book(Play(s, events), c).0;
  }

  /** The unfreeze row of a settlement is the exception: it carries the final
      balance, hence its own running sum only when nothing was consumed. */
  lemma UnfreezeRowRunsAhead(s: Store, c: Call)
    requires c.Settle? && c.expected > 0 && Live(s, c.user) && s.users[c.user].frozen >= c.expected
    ensures var t := Book(s, c).0;
      var n := |s.ledger|;
      && n < |t.ledger| && t.ledger[n].kind == KindUnfreeze
      && (t.ledger[n].balanceAfter == BalanceGap(s, c.user) + Booked(t.ledger[..n + 1], c.user, false) <==>
          c.actual <= 0)
  {
    var t := Book(s, c).0;
    var n := |s.ledger|;
    RowsOfCall(s, c);
    assert t.ledger[..n + 1] == s.ledger + [t.ledger[n]];
    BookedOne(s.ledger, t.ledger[n], c.user, false);
  }
}
