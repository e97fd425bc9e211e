/** Account and proxy leases: any number of requests scan, lock, unwind and
    release side by side over one Redis and one table of accounts. Every call
    to Redis or to the table is a step of its own. Times are in milliseconds. */
module Leases {
  import opened Wrappers
  import Decimal
  import opened RedisLock

  const PROXY_TTL: nat := 180_000
  const SCAN_LIMIT: nat := 30

  datatype Key = AccountLock(id: nat) | ProxyLease(id: nat)

  /** A token stored, or believed to be stored, under a key. */
  datatype Ref = Ref(key: Key, token: nat)

  datatype Config = Config(ttl: nat, minInterval: nat, ratio: real, day: nat)

  datatype Status = Healthy | Warned | Throttled | Suspicious | Dead

  /** The columns of an account that scheduling reads or writes. */
  datatype Row = Row(
    status: Status, cooldown: Option<nat>, deleted: bool, validUntil: Option<nat>, quota: int,
    lastUsed: Option<nat>, usedCount: nat, usedDay: Option<nat>)

  datatype Candidate = Candidate(id: nat, row: Row)

  // ---- Listing and filtering ----

  function Day(cfg: Config, now: nat): nat {
    if cfg.day == 0 then now else now / cfg.day
  }

  /** A listed row shows no count from another day. */
  function Fill(cfg: Config, row: Row, now: nat): Row {
    if row.usedDay == Some(Day(cfg, now)) then row else row.(usedCount := 0)
  }

  predicate Dispatchable(row: Row, now: nat) {
    && !row.deleted
    && row.status in {Healthy, Warned}
    && (row.cooldown.None? || row.cooldown.value <= now)
    && (row.validUntil.None? || row.validUntil.value > now)
  }

  function Cap(cfg: Config, quota: int): int {
    if quota > 0 then Decimal.Truncate(quota as real * cfg.ratio) else 0
  }

  predicate Rested(cfg: Config, row: Row, at: nat) {
    row.lastUsed.None? || at - row.lastUsed.value >= cfg.minInterval
  }

  predicate BelowCap(cfg: Config, row: Row, at: nat) {
    var usedToday := if row.usedDay == Some(Day(cfg, at)) then row.usedCount else 0;
    Cap(cfg, row.quota) > 0 ==> usedToday < Cap(cfg, row.quota)
  }

  predicate Passes(cfg: Config, row: Row, at: nat) {
    Rested(cfg, row, at) && BelowCap(cfg, row, at)
  }

  /** today_used_count restarts when the day has changed. */
  function Used(cfg: Config, row: Row, now: nat): Row {
    var today := Day(cfg, now);
    row.(lastUsed := Some(now),
         usedCount := if row.usedDay == Some(today) then row.usedCount + 1 else 1,
         usedDay := Some(today))
  }

  // ---- One request ----

  /** Where a request stands between two of its calls. `at` is the clock reading
      of its scan, `todo` what it has still to try. */
  datatype Proc =
    | Idle
    | Scanning(at: nat, todo: seq<Candidate>)
    | Locked(at: nat, todo: seq<Candidate>, acc: Candidate, token: nat)
    | Choosing(at: nat, todo: seq<Candidate>, acc: Candidate, token: nat, proxies: seq<nat>)
    | ProxyLocked(at: nat, todo: seq<Candidate>, acc: Candidate, token: nat, proxy: nat, proxyToken: nat)
    | UndoingProxy(at: nat, todo: seq<Candidate>, acc: Candidate, token: nat, proxy: nat, proxyToken: nat)
    | UndoingAccount(at: nat, todo: seq<Candidate>, acc: Candidate, token: nat)
    | Leased(at: nat, acc: Candidate, token: nat, via: Option<(nat, nat)>)
    | Marked(acc: Candidate, token: nat, via: Option<(nat, nat)>)
    | ProxyBack(acc: Candidate, token: nat)

  datatype Reply = Granted | Taken | Failed

  /** Outcome of what follows the account lock: decrypting the auth token, then
      listing runtime proxies for chat and image models only. */
  datatype Prepared = Unreadable | Direct | ListFailed | Listed(proxies: seq<nat>)

  datatype Act =
    | Scan(rows: seq<Candidate>)
    | Skip
    | GiveUp
    | AskAccount(reply: Reply, uuid: nat)
    | Prepare(outcome: Prepared)
    | AskProxy(reply: Reply, uuid: nat)
    | NoProxy
    | ReadyProxy(ok: bool)
    | UndoProxy
    | UndoAccount
    | MarkUsed(ok: bool)
    | ReturnProxy
    | ReturnAccount

  function AfterAskAccount(c: Proc, reply: Reply, uuid: nat): Proc
    requires c.Scanning? && c.todo != []
  {
    if reply == Granted then Locked(c.at, c.todo[1..], c.todo[0], uuid) else Scanning(c.at, c.todo[1..])
  }

  function AfterPrepare(c: Proc, outcome: Prepared): Proc
    requires c.Locked?
  {
    match outcome
    case Direct => Leased(c.at, c.acc, c.token, None)
    case Listed(ps) => Choosing(c.at, c.todo, c.acc, c.token, ps)
    case _ => UndoingAccount(c.at, c.todo, c.acc, c.token)
  }

  function AfterAskProxy(c: Proc, reply: Reply, uuid: nat): Proc
    requires c.Choosing? && c.proxies != []
  {
    match reply
    case Granted => ProxyLocked(c.at, c.todo, c.acc, c.token, c.proxies[0], uuid)
    case Taken => c.(proxies := c.proxies[1..])
    case Failed => UndoingAccount(c.at, c.todo, c.acc, c.token)
  }

  function AfterReadyProxy(c: Proc, ok: bool): Proc
    requires c.ProxyLocked?
  {
    if ok then Leased(c.at, c.acc, c.token, Some((c.proxy, c.proxyToken)))
    else UndoingProxy(c.at, c.todo, c.acc, c.token, c.proxy, c.proxyToken)
  }

  /** The request's own course: nothing unless it is due to make this call. */
  function Local(cfg: Config, now: nat, c: Proc, a: Act): Option<Proc> {
    match (c, a)
    case (Idle, Scan(rows)) => Some(Scanning(now, rows))
    case (Scanning(at, todo), Skip) =>
      if todo != [] && !Passes(cfg, todo[0].row, at) then Some(Scanning(at, todo[1..])) else None
    case (Scanning(_, todo), GiveUp) => if todo == [] then Some(Idle) else None
    case (Scanning(at, todo), AskAccount(reply, uuid)) =>
      if todo != [] && Passes(cfg, todo[0].row, at) then Some(AfterAskAccount(c, reply, uuid)) else None
    case (Locked(_, _, _, _), Prepare(outcome)) => Some(AfterPrepare(c, outcome))
    case (Choosing(_, _, _, _, proxies), AskProxy(reply, uuid)) =>
      if proxies != [] then Some(AfterAskProxy(c, reply, uuid)) else None
    case (Choosing(at, _, acc, token, proxies), NoProxy) =>
      if proxies == [] then Some(Leased(at, acc, token, None)) else None
    case (ProxyLocked(_, _, _, _, _, _), ReadyProxy(ok)) => Some(AfterReadyProxy(c, ok))
    case (UndoingProxy(at, todo, acc, token, _, _), UndoProxy) => Some(UndoingAccount(at, todo, acc, token))
    case (UndoingAccount(at, todo, _, _), UndoAccount) => Some(Scanning(at, todo))
    case (Leased(_, acc, token, via), MarkUsed(_)) => Some(Marked(acc, token, via))
    case (Marked(acc, token, _), ReturnProxy) => Some(ProxyBack(acc, token))
    case (ProxyBack(_, _), ReturnAccount) => Some(Idle)
    case _ => None
  }

  /** What a step asks of Redis. */
  datatype Op = NoOp | Take(ref: Ref, ttl: nat, reply: Reply) | Give(ref: Ref)

  function OpOf(cfg: Config, c: Proc, a: Act): Op {
    match (c, a)
    case (Scanning(_, todo), AskAccount(reply, uuid)) =>
      if todo == [] then NoOp else Take(Ref(AccountLock(todo[0].id), uuid), cfg.ttl, reply)
    case (Choosing(_, _, _, _, proxies), AskProxy(reply, uuid)) =>
      if proxies == [] then NoOp
      else Take(Ref(ProxyLease(proxies[0]), uuid), if cfg.ttl == 0 then PROXY_TTL else cfg.ttl, reply)
    case (UndoingProxy(_, _, _, _, proxy, proxyToken), UndoProxy) => Give(Ref(ProxyLease(proxy), proxyToken))
    case (UndoingAccount(_, _, acc, token), UndoAccount) => Give(Ref(AccountLock(acc.id), token))
    case (Marked(_, _, Some(via)), ReturnProxy) => Give(Ref(ProxyLease(via.0), via.1))
    case (ProxyBack(acc, token), ReturnAccount) => Give(Ref(AccountLock(acc.id), token))
    case _ => NoOp
  }

  /** The locks a request holds, or believes to hold. */
  function Refs(c: Proc): set<Ref> {
    match c
    case Idle => {}
    case Scanning(_, _) => {}
    case ProxyLocked(_, _, acc, token, proxy, proxyToken) =>
      {Ref(AccountLock(acc.id), token), Ref(ProxyLease(proxy), proxyToken)}
    case UndoingProxy(_, _, acc, token, proxy, proxyToken) =>
      {Ref(AccountLock(acc.id), token), Ref(ProxyLease(proxy), proxyToken)}
    case Leased(_, acc, token, via) => {Ref(AccountLock(acc.id), token)} + ViaRefs(via)
    case Marked(acc, token, via) => {Ref(AccountLock(acc.id), token)} + ViaRefs(via)
    case _ => {Ref(AccountLock(c.acc.id), c.token)}
  }

  function ViaRefs(via: Option<(nat, nat)>): set<Ref> {
    if via.None? then {} else {Ref(ProxyLease(via.value.0), via.value.1)}
  }

  /** A request comes to hold exactly what it was granted and gives back exactly
      what it held; no course of it forgets a lock. */
  lemma LocalKeepsBooks(cfg: Config, now: nat, c: Proc, a: Act)
    requires Local(cfg, now, c, a).Some?
    ensures
      var c' := Local(cfg, now, c, a).value;
      match OpOf(cfg, c, a)
      case NoOp => Refs(c') == Refs(c)
      case Take(ref, _, reply) => Refs(c') == if reply == Granted then Refs(c) + {ref} else Refs(c)
      case Give(ref) => ref in Refs(c) && Refs(c') == Refs(c) - {ref}
  {
  }

  // ---- All requests together ----

  /** What became of a token that was stored: its key, its deadline, and the
      request that knows it holds it. A token whose owner never learned of it,
      or whose release never arrived, is nobody's. */
  datatype Grant = Grant(key: Key, until: Option<nat>, holder: Option<nat>)

  datatype Sys = Sys(
    now: nat, keys: map<Key, Held>, nextToken: nat, grants: map<nat, Grant>, rows: map<nat, Row>, procs: seq<Proc>)

  datatype Event =
    | Tick(to: nat)
    | Admin(id: nat, status: Status, cooldown: Option<nat>, deleted: bool, validUntil: Option<nat>)
    | Move(p: nat, act: Act, fault: Fault)

  predicate IsListing(cfg: Config, s: Sys, rows: seq<Candidate>) {
    && |rows| <= SCAN_LIMIT
    && forall i :: 0 <= i < |rows| ==>
         && rows[i].id in s.rows
         && rows[i].row == Fill(cfg, s.rows[rows[i].id], s.now)
         && Dispatchable(s.rows[rows[i].id], s.now)
  }

  /** The answer to SET NX: the caller learns it only if nothing fails. */
  function Answer(s: Sys, key: Key, fault: Fault): Reply {
    if fault != Fine then Failed else if key in s.keys then Taken else Granted
  }

  function DoTake(s: Sys, p: nat, ref: Ref, ttl: nat, fault: Fault): Sys {
    var until := Deadline(s.now, ttl);
    if fault == NotSent || ref.key in s.keys then s.(nextToken := s.nextToken + 1)
    else s.(keys := Acquired(s.keys, ref.key, ref.token, until), nextToken := s.nextToken + 1,
            grants := s.grants[ref.token := Grant(ref.key, until, if fault == Fine then Some(p) else None)])
  }

  function DoGive(s: Sys, ref: Ref, fault: Fault): Sys {
    if ref.token !in s.grants then s
    else if fault == NotSent then s.(grants := s.grants[ref.token := s.grants[ref.token].(holder := None)])
    else s.(keys := Released(s.keys, ref.key, ref.token), grants := s.grants - {ref.token})
  }

  function DoOp(s: Sys, p: nat, op: Op, fault: Fault): Option<Sys> {
    match op
    case NoOp => if fault == Fine then Some(s) else None
    case Take(ref, ttl, reply) =>
      if ref.token == s.nextToken && reply == Answer(s, ref.key, fault)
      then Some(DoTake(s, p, ref, ttl, fault)) else None
    case Give(ref) => Some(DoGive(s, ref, fault))
  }

  function NewRows(cfg: Config, s: Sys, c: Proc, a: Act): map<nat, Row> {
    if c.Leased? && a == MarkUsed(true) && c.acc.id in s.rows
    then s.rows[c.acc.id := Used(cfg, s.rows[c.acc.id], s.now)] else s.rows
  }

  function Step(cfg: Config, s: Sys, e: Event): Option<Sys> {
    match e
    case Tick(to) => if s.now <= to then Some(s.(now := to, keys := Swept(s.keys, to))) else None
    case Admin(id, status, cooldown, deleted, validUntil) =>
      if id !in s.rows then None
      else
        var row := s.rows[id].(status := status, cooldown := cooldown, deleted := deleted, validUntil := validUntil);
        Some(s.(rows := s.rows[id := row]))
    case Move(p, act, fault) =>
      if p >= |s.procs| || (act.Scan? && !IsListing(cfg, s, act.rows)) then None
      else
        var c := s.procs[p];
        var c' := Local(cfg, s.now, c, act);
        var done := DoOp(s, p, OpOf(cfg, c, act), fault);
        if c'.None? || done.None? then None
        else Some(done.value.(procs := s.procs[p := c'.value], rows := NewRows(cfg, s, c, act)))
  }

  ghost predicate Init(s: Sys) {
    && s.keys == map[] && s.grants == map[] && s.nextToken == 0
    && forall p :: 0 <= p < |s.procs| ==> s.procs[p] == Idle
  }

  /** The state after a run, or nothing if some step of it cannot be taken. */
  function Run(cfg: Config, s: Sys, es: seq<Event>): Option<Sys> {
    if es == [] then Some(s)
    else
      var before := Run(cfg, s, es[..|es| - 1]);
      if before.None? then None else Step(cfg, before.value, es[|es| - 1])
  }

  // ---- The invariant ----

  /** Redis holds exactly the granted tokens that have not expired. */
  ghost predicate StoreMatches(s: Sys) {
    && (forall k :: k in s.keys ==>
          && Alive(s.keys[k].until, s.now)
          && s.keys[k].token in s.grants
          && s.grants[s.keys[k].token].key == k && s.grants[s.keys[k].token].until == s.keys[k].until)
    && (forall t :: t in s.grants && Alive(s.grants[t].until, s.now) ==>
          s.grants[t].key in s.keys && s.keys[s.grants[t].key].token == t)
    && (forall t :: t in s.grants ==> t < s.nextToken)
  }

  predicate Owns(s: Sys, p: nat, ref: Ref) {
    ref.token in s.grants && s.grants[ref.token].key == ref.key && s.grants[ref.token].holder == Some(p)
  }

  ghost predicate HoldersMatch(s: Sys) {
    && (forall p, ref :: 0 <= p < |s.procs| ==> (ref in Refs(s.procs[p]) <==> Owns(s, p, ref)))
    && (forall t :: t in s.grants && s.grants[t].holder.Some? ==> s.grants[t].holder.value < |s.procs|)
  }

  ghost predicate Inv(s: Sys) {
    StoreMatches(s) && HoldersMatch(s)
  }

  lemma TakeKeepsStore(s: Sys, p: nat, ref: Ref, ttl: nat, fault: Fault)
    requires StoreMatches(s) && ref.token == s.nextToken
    ensures StoreMatches(DoTake(s, p, ref, ttl, fault))
  {
  }

  lemma TakeKeepsHolders(s: Sys, p: nat, ref: Ref, ttl: nat, fault: Fault, c': Proc)
    requires Inv(s) && p < |s.procs| && ref.token == s.nextToken
    requires Refs(c') ==
      if fault == Fine && ref.key !in s.keys then Refs(s.procs[p]) + {ref} else Refs(s.procs[p])
    ensures HoldersMatch(DoTake(s, p, ref, ttl, fault).(procs := s.procs[p := c']))
  {
    var s' := DoTake(s, p, ref, ttl, fault).(procs := s.procs[p := c']);
    forall q, r | 0 <= q < |s'.procs|
      ensures r in Refs(s'.procs[q]) <==> Owns(s', q, r)
    {
      assert r in Refs(s.procs[q]) <==> Owns(s, q, r);
    }
  }

  lemma TakeKeepsInv(s: Sys, p: nat, op: Op, fault: Fault, c': Proc)
    requires Inv(s) && p < |s.procs| && op.Take? && DoOp(s, p, op, fault).Some?
    requires Refs(c') == if op.reply == Granted then Refs(s.procs[p]) + {op.ref} else Refs(s.procs[p])
    ensures Inv(DoOp(s, p, op, fault).value.(procs := s.procs[p := c']))
  {
    TakeKeepsStore(s, p, op.ref, op.ttl, fault);
    TakeKeepsHolders(s, p, op.ref, op.ttl, fault, c');
  }

  lemma GiveKeepsInv(s: Sys, p: nat, op: Op, fault: Fault, c': Proc)
    requires Inv(s) && p < |s.procs| && op.Give?
    requires op.ref in Refs(s.procs[p]) && Refs(c') == Refs(s.procs[p]) - {op.ref}
    ensures Inv(DoOp(s, p, op, fault).value.(procs := s.procs[p := c']))
  {
    var s' := DoOp(s, p, op, fault).value.(procs := s.procs[p := c']);
    assert Owns(s, p, op.ref);
    assert StoreMatches(s');
    forall q, ref | 0 <= q < |s'.procs|
      ensures ref in Refs(s'.procs[q]) <==> Owns(s', q, ref)
    {
      assert ref in Refs(s.procs[q]) <==> Owns(s, q, ref);
    }
  }

  lemma InvIgnoresRows(s: Sys, rows: map<nat, Row>)
    requires Inv(s)
    ensures Inv(s.(rows := rows))
  {
    var s' := s.(rows := rows);
    forall q, ref | 0 <= q < |s'.procs|
      ensures ref in Refs(s'.procs[q]) <==> Owns(s', q, ref)
    {
      assert ref in Refs(s.procs[q]) <==> Owns(s, q, ref);
    }
  }

  lemma TickKeepsInv(s: Sys, to: nat)
    requires Inv(s) && s.now <= to
    ensures Inv(s.(now := to, keys := Swept(s.keys, to)))
  {
    var s' := s.(now := to, keys := Swept(s.keys, to));
    assert StoreMatches(s');
    forall q, ref | 0 <= q < |s'.procs|
      ensures ref in Refs(s'.procs[q]) <==> Owns(s', q, ref)
    {
      assert ref in Refs(s.procs[q]) <==> Owns(s, q, ref);
    }
  }

  lemma MoveKeepsInv(cfg: Config, s: Sys, p: nat, act: Act, fault: Fault)
    requires Inv(s) && Step(cfg, s, Move(p, act, fault)).Some?
    ensures Inv(Step(cfg, s, Move(p, act, fault)).value)
  {
    var c := s.procs[p];
    var op := OpOf(cfg, c, act);
    LocalKeepsBooks(cfg, s.now, c, act);
    var c' := Local(cfg, s.now, c, act).value;
    var mid := DoOp(s, p, op, fault).value.(procs := s.procs[p := c']);
    match op {
      case NoOp =>
        forall q, ref | 0 <= q < |mid.procs|
          ensures ref in Refs(mid.procs[q]) <==> Owns(mid, q, ref)
        {
          assert ref in Refs(s.procs[q]) <==> Owns(s, q, ref);
        }
      case Take(_, _, _) => TakeKeepsInv(s, p, op, fault, c');
      case Give(_) => GiveKeepsInv(s, p, op, fault, c');
    }
    InvIgnoresRows(mid, NewRows(cfg, s, c, act));
  }

  lemma StepKeepsInv(cfg: Config, s: Sys, e: Event)
    requires Inv(s) && Step(cfg, s, e).Some?
    ensures Inv(Step(cfg, s, e).value)
  {
    match e {
      case Tick(to) => TickKeepsInv(s, to);
      case Admin(_, _, _, _, _) => InvIgnoresRows(s, Step(cfg, s, e).value.rows);
      case Move(p, act, fault) => MoveKeepsInv(cfg, s, p, act, fault);
    }
  }

  lemma {:induction false} RunKeepsInv(cfg: Config, s: Sys, es: seq<Event>)
    requires Init(s) && Run(cfg, s, es).Some?
    ensures Inv(Run(cfg, s, es).value)
    decreases |es|
  {
    if es != [] {
      var before := es[..|es| - 1];
      RunKeepsInv(cfg, s, before);
      StepKeepsInv(cfg, Run(cfg, s, before).value, es[|es| - 1]);
    }
  }
}
