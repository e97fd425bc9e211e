/** The code of the scheduler and of the proxy allocator, call by call. Each
    method leaves the trail of steps it made; the trails are courses of the
    lease protocol, so what is proved of its runs holds of them. */
module Scheduler {
  import opened Wrappers
  import opened Leases
  import opened RedisLock

  /** What the calls of one dispatch come back with: for the i-th candidate the
      answer to its lock, the outcome of preparing it, the answer to its j-th
      proxy, whether building the URL and touching the proxy succeed; and the
      tokens drawn. */
  datatype World = World(
    lock: nat -> Reply, prepared: nat -> Prepared, proxy: (nat, nat) -> Reply,
    builds: nat -> bool, touches: nat -> bool, uuid: nat -> nat)

  datatype Error = ListError | NoAvailable | LockTaken | LockFailed | DecryptError | ProxyError

  /** A lease in the hands of the caller. */
  datatype Lease = Lease(acc: Candidate, token: nat, via: Option<(nat, nat)>)

  function Walk(cfg: Config, now: nat, c: Proc, trail: seq<Act>): Option<Proc> {
    if trail == [] then Some(c)
    else
      var before := Walk(cfg, now, c, trail[..|trail| - 1]);
      if before.None? then None else Local(cfg, now, before.value, trail[|trail| - 1])
  }

  lemma WalkSnoc(cfg: Config, now: nat, c: Proc, trail: seq<Act>, a: Act)
    requires Walk(cfg, now, c, trail).Some?
    ensures Walk(cfg, now, c, trail + [a]) == Local(cfg, now, Walk(cfg, now, c, trail).value, a)
  {
    assert (trail + [a])[..|trail|] == trail;
  }

  lemma {:induction false} WalkConcat(cfg: Config, now: nat, c: Proc, a: seq<Act>, b: seq<Act>)
    requires Walk(cfg, now, c, a).Some?
    ensures Walk(cfg, now, c, a + b) == Walk(cfg, now, Walk(cfg, now, c, a).value, b)
    decreases |b|
  {
    if b == [] {
      assert a + b == a;
    } else {
      WalkConcat(cfg, now, c, a, b[..|b| - 1]);
      assert (a + b)[..|a + b| - 1] == a + b[..|b| - 1];
    }
  }

  predicate TakenBefore(w: World, i: nat, j: nat) {
    forall k :: 0 <= k < j ==> w.proxy(i, k) == Taken
  }

  /** The first proxy that is not taken, if there is one, can be leased. */
  predicate ProxyWorks(w: World, i: nat, proxies: seq<nat>) {
    forall j :: 0 <= j < |proxies| && TakenBefore(w, i, j) && w.proxy(i, j) != Taken ==>
      w.proxy(i, j) == Granted && w.builds(i) && w.touches(i)
  }

  predicate Leasable(cfg: Config, now: nat, acc: Candidate, i: nat, w: World) {
    && Passes(cfg, acc.row, now)
    && Lockable(i, w)
  }

  predicate Lockable(i: nat, w: World) {
    && w.lock(i) == Granted
    && match w.prepared(i)
       case Direct => true
       case Listed(proxies) => ProxyWorks(w, i, proxies)
       case _ => false
  }

  predicate NoneLeasable(cfg: Config, now: nat, rows: seq<Candidate>, w: World, n: nat)
    requires n <= |rows|
  {
    forall k :: 0 <= k < n ==> !Leasable(cfg, now, rows[k], k, w)
  }

  /** The store after a release call that may not have arrived. */
  function AfterRelease(keys: map<Key, Held>, key: Key, token: nat, fault: Fault): map<Key, Held> {
    if fault == NotSent then keys else Released(keys, key, token)
  }

  /** A proxy in use. However often it is released and reported, one call goes to
      Redis and one deduction is made. */
  class ProxyLease {
    const id: nat
    const token: nat
    var released: bool
    var failed: bool
    ghost var calls: nat
    ghost var deductions: nat

    ghost predicate Valid()
      reads this
    {
      calls == (if released then 1 else 0) && deductions == (if failed then 1 else 0)
    }

    constructor (id: nat, token: nat)
      ensures Valid() && this.id == id && this.token == token && !released && !failed
    {
      this.id, this.token := id, token;
      released, failed := false, false;
      calls, deductions := 0, 0;
    }

    /** The first call releases the lock; every later one does nothing and
        reports no error. */
    method Release(server: Server<Key>, fault: Fault) returns (r: Result<(), LockError>)
      requires Valid() && server.Valid()
      modifies this`released, this`calls, server`keys
      ensures Valid() && server.Valid() && released
      ensures server.keys ==
        if old(released) then old(server.keys) else AfterRelease(old(server.keys), Key.ProxyLease(id), token, fault)
      ensures r.Err? <==> !old(released) && fault != Fine
    {
      r := Ok(());
      if !released {
        released, calls := true, calls + 1;
        r := server.Release(Key.ProxyLease(id), token, fault);
      }
    }

    /** The proxy's health after a report of its failure. */
    method MarkFailure(health: nat) returns (left: nat)
      requires Valid()
      modifies this`failed, this`deductions
      ensures Valid() && (deductions == old(deductions) ==> left == health)
      ensures left <= health <= left + 20
      ensures left == if id == 0 || old(failed) || health <= 0 then health else if health > 20 then health - 20 else 0
      ensures failed == (old(failed) || id != 0)
    {
      if id == 0 || failed {
        return health;
      }
      failed, deductions := true, deductions + 1;
      left := if health > 20 then health - 20 else 0;
    }
  }

  /** The allocator walks the candidates in order. It returns the first proxy
      that is free, no proxy when all are taken, and an error as soon as a lock
      call fails or a locked proxy cannot be used; that proxy is unlocked. */
  method LeaseProxy(cfg: Config, now: nat, ghost c: Proc, proxies: seq<nat>, i: nat, w: World, drawn: nat)
    returns (r: Result<Option<(nat, nat)>, Error>, trail: seq<Act>, tokens: nat)
    requires c.Choosing? && c.proxies == proxies
    ensures Walk(cfg, now, c, trail) == Some(
      if r.Ok? then Leased(c.at, c.acc, c.token, r.value) else UndoingAccount(c.at, c.todo, c.acc, c.token))
    ensures drawn <= tokens <= drawn + |proxies|
    ensures r.Ok? <==> ProxyWorks(w, i, proxies)
    ensures
      var tried := tokens - drawn;
      match r
      case Ok(None) => tried == |proxies| && TakenBefore(w, i, tried)
      case Ok(Some(via)) =>
        && 0 < tried && TakenBefore(w, i, tried - 1) && w.proxy(i, tried - 1) == Granted
        && via == (proxies[tried - 1], w.uuid(tokens - 1))
      case Err(_) => 0 < tried && TakenBefore(w, i, tried - 1) && w.proxy(i, tried - 1) != Taken
  {
    trail, tokens := [], drawn;
    var j := 0;
    while j < |proxies|
      invariant 0 <= j <= |proxies| && tokens == drawn + j
      invariant Walk(cfg, now, c, trail) == Some(c.(proxies := proxies[j..]))
      invariant TakenBefore(w, i, j)
    {
      ghost var here := c.(proxies := proxies[j..]);
      var token := w.uuid(tokens);
      tokens := tokens + 1;
      WalkSnoc(cfg, now, c, trail, AskProxy(w.proxy(i, j), token));
      trail := trail + [AskProxy(w.proxy(i, j), token)];
      match w.proxy(i, j) {
        case Taken =>
          assert proxies[j..][1..] == proxies[j + 1..];
        case Failed =>
          return Err(LockFailed), trail, tokens;
        case Granted =>
          var ok := w.builds(i) && w.touches(i);
          WalkSnoc(cfg, now, c, trail, ReadyProxy(ok));
          trail := trail + [ReadyProxy(ok)];
          if !ok {
            WalkSnoc(cfg, now, c, trail, UndoProxy);
            trail := trail + [UndoProxy];
            return Err(ProxyError), trail, tokens;
          }
          return Ok(Some((proxies[j], token))), trail, tokens;
      }
      j := j + 1;
    }
    WalkSnoc(cfg, now, c, trail, NoProxy);
    trail := trail + [NoProxy];
    r := Ok(None);
  }

  /** Locking one candidate: the lock, then the token, then a proxy for chat and
      image models; whatever fails after the lock undoes it. */
  method TryLock(cfg: Config, now: nat, ghost c: Proc, acc: Candidate, i: nat, w: World, drawn: nat)
    returns (r: Result<Lease, Error>, trail: seq<Act>, tokens: nat)
    requires c.Scanning? && c.todo != [] && c.todo[0] == acc && Passes(cfg, acc.row, c.at)
    ensures Walk(cfg, now, c, trail) == Some(
      if r.Ok? then Leased(c.at, r.value.acc, r.value.token, r.value.via) else Scanning(c.at, c.todo[1..]))
    ensures r.Ok? <==> Lockable(i, w)
    ensures r.Ok? ==> r.value.acc == acc && r.value.token == w.uuid(drawn)
    ensures r == Err(LockTaken) <==> w.lock(i) == Taken
    ensures tokens > drawn
  {
    var token := w.uuid(drawn);
    tokens := drawn + 1;
    WalkSnoc(cfg, now, c, [], AskAccount(w.lock(i), token));
    trail := [] + [AskAccount(w.lock(i), token)];
    if w.lock(i) != Granted {
      return Err(if w.lock(i) == Taken then LockTaken else LockFailed), trail, tokens;
    }
    WalkSnoc(cfg, now, c, trail, Prepare(w.prepared(i)));
    trail := trail + [Prepare(w.prepared(i))];
    match w.prepared(i) {
      case Direct =>
        return Ok(Lease(acc, token, None)), trail, tokens;
      case Listed(proxies) =>
        ghost var choosing := Choosing(c.at, c.todo[1..], acc, token, proxies);
        var leased, more, used := LeaseProxy(cfg, now, choosing, proxies, i, w, tokens);
        WalkConcat(cfg, now, c, trail, more);
        trail, tokens := trail + more, used;
        if leased.Ok? {
          return Ok(Lease(acc, token, leased.value)), trail, tokens;
        }
        r := Err(ProxyError);
      case Unreadable => r := Err(DecryptError);
      case ListFailed => r := Err(ProxyError);
    }
    WalkSnoc(cfg, now, c, trail, UndoAccount);
    trail := trail + [UndoAccount];
  }

  /** One scan: the first candidate that passes the filters and can be locked,
      or no account; a candidate whose locking fails is passed over. */
  method TryDispatchOnce(cfg: Config, now: nat, listing: Option<seq<Candidate>>, w: World)
    returns (r: Result<Lease, Error>, trail: seq<Act>)
    ensures Walk(cfg, now, Idle, trail) == Some(
      if r.Ok? then Leased(now, r.value.acc, r.value.token, r.value.via) else Idle)
    ensures r == Err(ListError) <==> listing == None
    ensures r == Err(NoAvailable) <==> listing.Some? && NoneLeasable(cfg, now, listing.value, w, |listing.value|)
    ensures r.Ok? ==> exists i ::
      && 0 <= i < |listing.value|
      && r.value.acc == listing.value[i]
      && Leasable(cfg, now, listing.value[i], i, w)
      && NoneLeasable(cfg, now, listing.value, w, i)
  {
    trail := [];
    if listing.None? {
      return Err(ListError), trail;
    }
    var rows := listing.value;
    WalkSnoc(cfg, now, Idle, trail, Scan(rows));
    trail := trail + [Scan(rows)];
    var i, drawn := 0, 0;
    while i < |rows|
      invariant 0 <= i <= |rows|
      invariant Walk(cfg, now, Idle, trail) == Some(Scanning(now, rows[i..]))
      invariant NoneLeasable(cfg, now, rows, w, i)
    {
      assert rows[i..][1..] == rows[i + 1..];
      if !Passes(cfg, rows[i].row, now) {
        WalkSnoc(cfg, now, Idle, trail, Skip);
        trail := trail + [Skip];
      } else {
        var locked, more, used := TryLock(cfg, now, Scanning(now, rows[i..]), rows[i], i, w, drawn);
        WalkConcat(cfg, now, Idle, trail, more);
        trail, drawn := trail + more, used;
        if locked.Ok? {
          assert Leasable(cfg, now, rows[i], i, w);
          return locked, trail;
        }
      }
      i := i + 1;
    }
    WalkSnoc(cfg, now, Idle, trail, GiveUp);
    trail := trail + [GiveUp];
    r := Err(NoAvailable);
  }

  lemma ReleaseWalks(cfg: Config, now: nat, at: nat, lease: Lease, marked: bool)
    ensures Walk(cfg, now, Leased(at, lease.acc, lease.token, lease.via),
                 [MarkUsed(marked), ReturnProxy, ReturnAccount]) == Some(Idle)
  {
    var c := Leased(at, lease.acc, lease.token, lease.via);
    var one, two := [MarkUsed(marked)], [MarkUsed(marked), ReturnProxy];
    assert Walk(cfg, now, c, []) == Some(c);
    assert one == [] + [MarkUsed(marked)] && two == one + [ReturnProxy];
    WalkSnoc(cfg, now, c, [], MarkUsed(marked));
    assert Walk(cfg, now, c, one) == Some(Marked(lease.acc, lease.token, lease.via));
    WalkSnoc(cfg, now, c, one, ReturnProxy);
    assert Walk(cfg, now, c, two) == Some(ProxyBack(lease.acc, lease.token));
    WalkSnoc(cfg, now, c, two, ReturnAccount);
    assert two + [ReturnAccount] == [MarkUsed(marked), ReturnProxy, ReturnAccount];
  }

  /** Releasing a lease makes all its calls, whichever of them fail: the steps
      are those of the protocol, both locks are released unless a call does not
      arrive, and an error is reported exactly if a call failed. */
  method ReleaseLease(cfg: Config, at: nat, lease: Lease, proxy: ProxyLease?, server: Server<Key>,
                      marked: bool, first: Fault, second: Fault)
    returns (ok: bool, trail: seq<Act>)
    requires server.Valid()
    requires proxy == null <==> lease.via == None
    requires proxy != null ==> proxy.Valid() && !proxy.released && lease.via == Some((proxy.id, proxy.token))
    modifies server`keys, proxy
    ensures server.Valid() && (proxy != null ==> proxy.Valid() && proxy.released)
    ensures trail == [MarkUsed(marked), ReturnProxy, ReturnAccount]
    ensures Walk(cfg, server.now, Leased(at, lease.acc, lease.token, lease.via), trail) == Some(Idle)
    ensures
      var between := if lease.via.None? then old(server.keys)
                     else AfterRelease(old(server.keys), Key.ProxyLease(lease.via.value.0), lease.via.value.1, first);
      server.keys == AfterRelease(between, AccountLock(lease.acc.id), lease.token, second)
    ensures ok <==> marked && second == Fine && (lease.via.Some? ==> first == Fine)
  {
    ReleaseWalks(cfg, server.now, at, lease, marked);
    var errs := 0;
    trail := [MarkUsed(marked)];
    if !marked {
      errs := errs + 1;
    }
    trail := trail + [ReturnProxy];
    if proxy != null {
      var back := proxy.Release(server, first);
      if back.Err? {
        errs := errs + 1;
      }
    }
    trail := trail + [ReturnAccount];
    var freed := server.Release(AccountLock(lease.acc.id), lease.token, second);
    if freed.Err? {
      errs := errs + 1;
    }
    ok := errs == 0;
  }
}
