/** The token lock kept in Redis: a key holds the token of its owner until it
    is released or expires. Times are in milliseconds. */
module RedisLock {
  import opened Wrappers

  /** A stored key; a key without expiry stays until it is deleted. */
  datatype Held = Held(token: nat, until: Option<nat>)

  datatype LockError = NotAcquired | Unreachable

  /** How a call reaches the server: it runs and is answered, it never arrives,
      or it runs and its answer is lost. */
  datatype Fault = Fine | NotSent | AnswerLost

  predicate Alive(until: Option<nat>, now: nat) {
    until.None? || now < until.value
  }

  /** SET with a zero duration stores the key without expiry. */
  function Deadline(now: nat, ttl: nat): Option<nat> {
    if ttl == 0 then None else Some(now + ttl)
  }

  // ---- What the server does in one step ----

  function Acquired<K>(keys: map<K, Held>, key: K, token: nat, until: Option<nat>): map<K, Held> {
    if key in keys then keys else keys[key := Held(token, until)]
  }

  function Released<K>(keys: map<K, Held>, key: K, token: nat): map<K, Held> {
    if key in keys && keys[key].token == token then keys - {key} else keys
  }

  /** PEXPIRE with nothing left deletes the key. */
  function Refreshed<K>(keys: map<K, Held>, key: K, token: nat, now: nat, ttl: nat): map<K, Held> {
    if key !in keys || keys[key].token != token then keys
    else if ttl == 0 then keys - {key}
    else keys[key := Held(token, Some(now + ttl))]
  }

  function Swept<K>(keys: map<K, Held>, now: nat): map<K, Held> {
    map k | k in keys && Alive(keys[k].until, now) :: keys[k]
  }

  // ---- What others can do to an owner ----

  datatype Call<K> =
    | Acquire(key: K, token: nat, ttl: nat)
    | Release(key: K, token: nat)
    | Refresh(key: K, token: nat, ttl: nat)
    | Pass(time: nat)

  datatype Db<K> = Db(keys: map<K, Held>, now: nat)

  function Do<K>(db: Db<K>, call: Call<K>): Db<K> {
    match call
    case Acquire(key, token, ttl) => db.(keys := Acquired(db.keys, key, token, Deadline(db.now, ttl)))
    case Release(key, token) => db.(keys := Released(db.keys, key, token))
    case Refresh(key, token, ttl) => db.(keys := Refreshed(db.keys, key, token, db.now, ttl))
    case Pass(time) => Db(Swept(db.keys, db.now + time), db.now + time)
  }

  function DoAll<K>(db: Db<K>, calls: seq<Call<K>>): Db<K> {
    if calls == [] then db else Do(DoAll(db, calls[..|calls| - 1]), calls[|calls| - 1])
  }

  /** Whatever calls with other tokens do, and in any order, the owner keeps the
      key exactly until it expires, with the deadline it was given. */
  lemma {:induction false} HeldExactlyUntilExpiry<K>(db: Db<K>, calls: seq<Call<K>>, key: K)
    requires key in db.keys && Alive(db.keys[key].until, db.now)
    requires forall i :: 0 <= i < |calls| ==> calls[i].Pass? || calls[i].token != db.keys[key].token
    ensures
      var end := DoAll(db, calls);
      key in end.keys && end.keys[key].token == db.keys[key].token <==> Alive(db.keys[key].until, end.now)
    ensures
      var end := DoAll(db, calls);
      Alive(db.keys[key].until, end.now) ==> key in end.keys && end.keys[key] == db.keys[key]
    ensures DoAll(db, calls).now >= db.now
    decreases |calls|
  {
    if calls != [] {
      HeldExactlyUntilExpiry(db, calls[..|calls| - 1], key);
    }
  }

  /** One Redis server and the lock over it. `keys` never shows an expired key. */
  class Server<K(==)> {
    var keys: map<K, Held>
    var now: nat

    ghost predicate Valid()
      reads this
    {
      forall k :: k in keys ==> Alive(keys[k].until, now)
    }

    constructor ()
      ensures Valid() && keys == map[] && now == 0
    {
      keys, now := map[], 0;
    }

    /** Time passes and keys expire. */
    method Tick(to: nat)
      requires Valid() && now <= to
      modifies this
      ensures Valid() && now == to
      ensures forall k :: k in keys <==> k in old(keys) && Alive(old(keys)[k].until, to)
      ensures forall k :: k in keys ==> keys[k] == old(keys)[k]
    {
      keys, now := Swept(keys, to), to;
    }

    method Acquire(key: K, token: nat, ttl: nat, fault: Fault) returns (r: Result<(), LockError>)
      requires Valid()
      modifies this`keys
      ensures Valid()
      ensures keys == if fault.NotSent? then old(keys) else Acquired(old(keys), key, token, Deadline(now, ttl))
      ensures r.Ok? ==> key !in old(keys) && key in keys && keys[key].token == token
      ensures r == Err(NotAcquired) ==> key in old(keys) && keys == old(keys)
      ensures r == Err(Unreachable) <==> fault != Fine
    {
      if fault.NotSent? {
        return Err(Unreachable);
      }
      var ok := key !in keys;
      if ok {
        keys := keys[key := Held(token, Deadline(now, ttl))];
      }
      if fault.AnswerLost? {
        return Err(Unreachable);
      }
      if !ok {
        return Err(NotAcquired);
      }
      return Ok(());
    }

    method Release(key: K, token: nat, fault: Fault) returns (r: Result<(), LockError>)
      requires Valid()
      modifies this`keys
      ensures Valid()
      ensures keys == if fault.NotSent? then old(keys) else Released(old(keys), key, token)
      ensures !fault.NotSent? ==> key !in keys || keys[key].token != token
      ensures r.Err? <==> fault != Fine
    {
      if fault.NotSent? {
        return Err(Unreachable);
      }
      if key in keys && keys[key].token == token {
        keys := keys - {key};
      }
      return if fault.Fine? then Ok(()) else Err(Unreachable);
    }

    method Refresh(key: K, token: nat, ttl: nat, fault: Fault) returns (r: Result<(), LockError>)
      requires Valid()
      modifies this`keys
      ensures Valid()
      ensures keys == if fault.NotSent? then old(keys) else Refreshed(old(keys), key, token, now, ttl)
      ensures r.Err? <==> fault != Fine
    {
      if fault.NotSent? {
        return Err(Unreachable);
      }
      if key in keys && keys[key].token == token {
        if ttl == 0 {
          keys := keys - {key};
        } else {
          keys := keys[key := Held(token, Some(now + ttl))];
        }
      }
      return if fault.Fine? then Ok(()) else Err(Unreachable);
    }
  }
}
