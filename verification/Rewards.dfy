/** Redeem codes and the daily check-in: two transactions that mark something
    as used and credit the user in one go. */
module Rewards {
  import opened Billing
  import opened Wrappers
  import H = Holds

  datatype RedeemCode = RedeemCode(credits: int, usedBy: nat, expiresAt: Option<nat>)

  datatype Record = Record(awarded: int, balanceAfter: int)

  /** The tables; a user and a day identify a check-in (its unique key). */
  datatype Desk = Desk(store: Store, codes: map<string, RedeemCode>, checkins: map<(nat, nat), Record>)

  datatype RedeemReply =
    | Redeemed(balanceAfter: int) | CodeNotFound | CodeUsed | CodeExpired | CreditFailed(why: Outcome)

  datatype ClaimReply = Claimed(record: Record) | AlreadyClaimed(record: Record) | ClaimFailed(why: Outcome)

  function RedeemSpec(d: Desk, user: nat, code: string, now: nat): (Desk, RedeemReply) {
    if code == "" || code !in d.codes then (d, CodeNotFound)
    else if d.codes[code].usedBy != 0 then (d, CodeUsed)
    else if d.codes[code].expiresAt.Some? && d.codes[code].expiresAt.value < now then (d, CodeExpired)
    else
      var (store, out) := Book(d.store, Credit(user, d.codes[code].credits, KindRedeem, Code(code)));
      if out != Done then (d, CreditFailed(out))
      else (Desk(store, d.codes[code := d.codes[code].(usedBy := user)], d.checkins),
            Redeemed(store.users[user].balance))
  }

  function ClaimSpec(d: Desk, user: nat, day: nat, credits: int): (Desk, ClaimReply) {
    if (user, day) in d.checkins then (d, AlreadyClaimed(d.checkins[(user, day)]))
    else
      var (store, out) := Book(d.store, Credit(user, credits, KindCheckin, CheckinDay(day)));
      if out != Done then (d, ClaimFailed(out))
      else
        var record := Record(credits, store.users[user].balance);
        (Desk(store, d.codes, d.checkins[(user, day) := record]), Claimed(record))
  }

  /** Both transactions statement by statement, rolled back on every error. */
  class RewardTables {
    const engine: Engine
    var codes: map<string, RedeemCode>
    var checkins: map<(nat, nat), Record>

    constructor (engine: Engine, codes: map<string, RedeemCode>)
      ensures this.engine == engine && this.codes == codes && checkins == map[]
    {
      this.engine, this.codes, checkins := engine, codes, map[];
    }

    function State(): Desk
      reads this, engine
    {
      Desk(engine.State(), codes, checkins)
    }

    method Redeem(user: nat, code: string, now: nat) returns (reply: RedeemReply)
      modifies this`codes, engine
      ensures (State(), reply) == RedeemSpec(old(State()), user, code, now)
    {
      if code == "" {
        return CodeNotFound;
      }
      if code !in codes {
        return CodeNotFound;
      }
      var item := codes[code];
      if item.usedBy != 0 {
        return CodeUsed;
      }
      if item.expiresAt.Some? && item.expiresAt.value < now {
        return CodeExpired;
      }
      var begin := codes;
      codes := codes[code := item.(usedBy := user)];
      var out, balanceAfter := engine.Credit(user, item.credits, KindRedeem, Code(code));
      if out != Done {
        codes := begin;
        return CreditFailed(out);
      }
      reply := Redeemed(balanceAfter);
    }

    method Claim(user: nat, day: nat, credits: int) returns (reply: ClaimReply)
      modifies this`checkins, engine
      ensures (State(), reply) == ClaimSpec(old(State()), user, day, credits)
    {
      var begin := checkins;
      if (user, day) in checkins {
        return AlreadyClaimed(checkins[(user, day)]);
      }
      checkins := checkins[(user, day) := Record(0, 0)];
      var out, balanceAfter := engine.Credit(user, credits, KindCheckin, CheckinDay(day));
      if out != Done {
        checkins := begin;
        return ClaimFailed(out);
      }
      checkins := checkins[(user, day) := Record(credits, balanceAfter)];
      assert checkins == begin[(user, day) := Record(credits, balanceAfter)];
      reply := Claimed(checkins[(user, day)]);
    }
  }

  // ---- Runs ----

  datatype Step =
    | Issue(newCode: string, credits: int, expiresAt: Option<nat>)
    | Redeem(user: nat, code: string, now: nat)
    | Claim(user: nat, day: nat, credits: int)
    | Outside(call: Call)
    | Delete(gone: nat)

  function Next(d: Desk, e: Step): Desk {
    match e
    case Issue(code, credits, expiresAt) =>
      if code in d.codes then d else d.(codes := d.codes[code := RedeemCode(credits, 0, expiresAt)])
    case Redeem(user, code, now) => RedeemSpec(d, user, code, now).0
    case Claim(user, day, credits) => ClaimSpec(d, user, day, credits).0
    case Outside(c) => if c.ref.Code? || c.ref.CheckinDay? then d else d.(store := Book(d.store, c).0)
    case Delete(u) => d.(store := Apply(d.store, SoftDelete(u)))
  }

  function Run(d: Desk, steps: seq<Step>): Desk
    decreases steps
  {
    if steps == [] then d else Run(Next(d, steps[0]), steps[1..])
  }

  /** How often a user was credited under a reference. */
  function CreditsOf(rows: seq<Row>, user: nat, ref: Ref): nat {
    if rows == [] then 0
    else
      CreditsOf(rows[..|rows| - 1], user, ref) +
      if rows[|rows| - 1].user == user && rows[|rows| - 1].ref == ref then 1 else 0
  }

  lemma {:induction false} CreditsAppended(rows: seq<Row>, more: seq<Row>, user: nat, ref: Ref)
    requires forall r :: r in more ==> r.ref != ref || r.user != user
    ensures CreditsOf(rows + more, user, ref) == CreditsOf(rows, user, ref)
    decreases |more|
  {
    if more == [] {
      assert rows + more == rows;
    } else {
      assert (rows + more)[..|rows + more| - 1] == rows + more[..|more| - 1];
      CreditsAppended(rows, more[..|more| - 1], user, ref);
    }
  }

  lemma CreditsOne(rows: seq<Row>, r: Row, user: nat, ref: Ref)
    ensures CreditsOf(rows + [r], user, ref) ==
      CreditsOf(rows, user, ref) + if r.user == user && r.ref == ref then 1 else 0
  {
    assert (rows + [r])[..|rows|] == rows;
  }

  function Redemptions(d: Desk, code: string): nat {
    H.Count(d.store.ledger, KindRedeem, Code(code))
  }

  /** A code names the user who redeemed it exactly when one row credited it. */
  ghost predicate CodeFits(d: Desk, code: string) {
    Redemptions(d, code) == if code in d.codes && d.codes[code].usedBy != 0 then 1 else 0
  }

  ghost predicate DayFits(d: Desk, user: nat, day: nat) {
    CreditsOf(d.store.ledger, user, CheckinDay(day)) == if (user, day) in d.checkins then 1 else 0
  }

  ghost predicate RowsFit(d: Desk) {
    forall r :: r in d.store.ledger ==>
      && (r.ref.Code? ==>
            && r.kind == KindRedeem && r.ref.code in d.codes
            && r.user == d.codes[r.ref.code].usedBy && r.amount == d.codes[r.ref.code].credits)
      && (r.ref.CheckinDay? ==>
            && (r.user, r.ref.day) in d.checkins
            && d.checkins[(r.user, r.ref.day)] == Record(r.amount, r.balanceAfter))
  }

  /** User numbers start at one: zero is how a code says that it is unused. */
  ghost predicate Inv(d: Desk) {
    && 0 !in d.store.users
    && (forall code :: CodeFits(d, code))
    && (forall user, day :: DayFits(d, user, day))
    && RowsFit(d)
  }

  /** The billing call of a step, and the state it leads to. */
  function CallOf(d: Desk, e: Step): Option<Call> {
    match e
    case Redeem(user, code, now) =>
      if RedeemSpec(d, user, code, now).1.Redeemed?
      then Some(Credit(user, d.codes[code].credits, KindRedeem, Code(code))) else None
    case Claim(user, day, credits) =>
      if ClaimSpec(d, user, day, credits).1.Claimed?
      then Some(Credit(user, credits, KindCheckin, CheckinDay(day))) else None
    case Outside(c) => if c.ref.Code? || c.ref.CheckinDay? then None else Some(c)
    case _ => None
  }

  lemma StepKeepsCode(d: Desk, e: Step, code: string)
    requires 0 !in d.store.users && CodeFits(d, code)
    ensures CodeFits(Next(d, e), code)
  {
    var call := CallOf(d, e);
    if call.Some? {
      H.CallCounts(d.store, call.value, KindRedeem, Code(code));
    }
  }

  lemma CallCredits(s: Store, c: Call, user: nat, ref: Ref)
    requires c.ref == ref ==> c.Credit?
    ensures CreditsOf(Book(s, c).0.ledger, user, ref) == CreditsOf(s.ledger, user, ref) +
      if Book(s, c).1 == Done && c.user == user && c.ref == ref then 1 else 0
  {
    RowsOfCall(s, c);
    var t := Book(s, c).0;
    if t != s {
      var more := NewRows(c, t.users[c.user].balance);
      if c.ref == ref {
        CreditsOne(s.ledger, more[0], user, ref);
        assert more == [more[0]];
      } else {
        CreditsAppended(s.ledger, more, user, ref);
      }
    }
  }

  lemma StepKeepsDay(d: Desk, e: Step, user: nat, day: nat)
    requires DayFits(d, user, day)
    ensures DayFits(Next(d, e), user, day)
  {
    var call := CallOf(d, e);
    if call.Some? {
      CallCredits(d.store, call.value, user, CheckinDay(day));
    }
  }

  lemma RedeemKeepsRows(d: Desk, e: Step)
    requires Inv(d) && e.Redeem? && CallOf(d, e).Some?
    ensures RowsFit(Next(d, e))
  {
    assert CodeFits(d, e.code);
    NoRowWithout(d.store.ledger, KindRedeem, Code(e.code));
    RowsOfCall(d.store, CallOf(d, e).value);
  }

  lemma ClaimKeepsRows(d: Desk, e: Step)
    requires Inv(d) && e.Claim? && CallOf(d, e).Some?
    ensures RowsFit(Next(d, e))
  {
    RowsOfCall(d.store, CallOf(d, e).value);
  }

  lemma StepKeepsRows(d: Desk, e: Step)
    requires Inv(d)
    ensures RowsFit(Next(d, e))
  {
    var call := CallOf(d, e);
    if call.Some? {
      if e.Redeem? {
        RedeemKeepsRows(d, e);
      } else if e.Claim? {
        ClaimKeepsRows(d, e);
      } else {
        RowsOfCall(d.store, call.value);
      }
    }
  }

  lemma {:induction false} NoRowWithout(rows: seq<Row>, kind: Kind, ref: Ref)
    requires H.Count(rows, kind, ref) == 0
    ensures forall r :: r in rows ==> r.kind != kind || r.ref != ref
    decreases |rows|
  {
    if rows != [] {
      var n := |rows| - 1;
      NoRowWithout(rows[..n], kind, ref);
      assert forall r :: r in rows ==> r in rows[..n] || r == rows[n];
    }
  }

  lemma {:induction false} RunKeepsInv(d: Desk, steps: seq<Step>)
    requires Inv(d)
    ensures Inv(Run(d, steps))
    decreases steps
  {
    if steps != [] {
      var t := Next(d, steps[0]);
      forall code
        ensures CodeFits(t, code)
      {
        StepKeepsCode(d, steps[0], code);
      }
      forall user: nat, day: nat
        ensures DayFits(t, user, day)
      {
        StepKeepsDay(d, steps[0], user, day);
      }
      StepKeepsRows(d, steps[0]);
      RunKeepsInv(t, steps[1..]);
    }
  }

  /** Before anything was redeemed or claimed. */
  ghost predicate Fresh(d: Desk) {
    && 0 !in d.store.users
    && d.checkins == map[]
    && (forall code :: code in d.codes ==> d.codes[code].usedBy == 0)
    && (forall r :: r in d.store.ledger ==> !r.ref.Code? && !r.ref.CheckinDay?)
  }

  lemma {:induction false} FreshCounts(rows: seq<Row>, code: string, user: nat, day: nat)
    requires forall r :: r in rows ==> !r.ref.Code? && !r.ref.CheckinDay?
    ensures H.Count(rows, KindRedeem, Code(code)) == 0 && CreditsOf(rows, user, CheckinDay(day)) == 0
    decreases |rows|
  {
    if rows != [] {
      FreshCounts(rows[..|rows| - 1], code, user, day);
    }
  }

  /** In every run a code is used exactly when one ledger row credited it, to
      the user it names and for its credits; and a user has one check-in credit
      for a day exactly when the day's record exists, which repeats the row. */
  lemma EachRewardOnce(d: Desk, steps: seq<Step>, code: string, user: nat, day: nat)
    requires Fresh(d)
    ensures var t := Run(d, steps);
      && (code in t.codes && t.codes[code].usedBy != 0 <==> Redemptions(t, code) == 1)
      && Redemptions(t, code) <= 1
      && ((user, day) in t.checkins <==> CreditsOf(t.store.ledger, user, CheckinDay(day)) == 1)
      && CreditsOf(t.store.ledger, user, CheckinDay(day)) <= 1
      && RowsFit(t)
  {
    forall c
      ensures CodeFits(d, c)
    {
      FreshCounts(d.store.ledger, c, 0, 0);
    }
    forall u: nat, n: nat
      ensures DayFits(d, u, n)
    {
      FreshCounts(d.store.ledger, "", u, n);
    }
    RunKeepsInv(d, steps);
    var t := Run(d, steps);
    assert CodeFits(t, code) && DayFits(t, user, day);
  }

  /** The user who redeemed a code stays, whoever tries again. */
  lemma {:induction false} RedeemerStays(d: Desk, steps: seq<Step>, code: string)
    requires code in d.codes && d.codes[code].usedBy != 0
    ensures var t := Run(d, steps); code in t.codes && t.codes[code] == d.codes[code]
    decreases steps
  {
    if steps != [] {
      RedeemerStays(Next(d, steps[0]), steps[1..], code);
    }
  }
}
