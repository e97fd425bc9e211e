/** The scheduler's waiting queue: scan, wait, scan again, with a growing pause
    between scans, until an account is found or the time is up. Times are in
    nanoseconds. */
module Dispatch {

  const MIN_BACKOFF: nat := 200_000_000
  const MAX_BACKOFF: nat := 2_000_000_000

  datatype Scan = Found(account: nat) | NoneAvailable | Broken(message: string)

  datatype Reply = Leased(account: nat) | NoAvailable | Failed(message: string) | Cancelled

  /** The world a dispatch runs in: what the k-th scan finds, whether the
      request is cancelled during the k-th pause, how late the k-th pause ends,
      and how much time passes before the i-th reading of the clock. */
  datatype World = World(scan: nat -> Scan, cancelled: nat -> bool, late: nat -> nat, passes: nat -> nat)

  function NextBackoff(backoff: nat): nat {
    if backoff + backoff / 2 > MAX_BACKOFF then MAX_BACKOFF else backoff + backoff / 2
  }

  function BackoffAt(k: nat): nat {
    if k == 0 then MIN_BACKOFF else NextBackoff(BackoffAt(k - 1))
  }

  /** The backoff never shrinks and stays between its bounds, which it reaches. */
  lemma {:induction false} BackoffGrows(k: nat)
    ensures MIN_BACKOFF <= BackoffAt(k) <= MAX_BACKOFF
    ensures BackoffAt(k) <= BackoffAt(k + 1)
    ensures k >= 6 ==> BackoffAt(k) == MAX_BACKOFF
  {
    if k > 0 {
      BackoffGrows(k - 1);
      if k == 6 {
        assert BackoffAt(1) == 300_000_000 && BackoffAt(2) == 450_000_000;
        assert BackoffAt(3) == 675_000_000 && BackoffAt(4) == 1_012_500_000;
        assert BackoffAt(5) == 1_518_750_000;
      }
    }
  }

  function Total(waits: seq<nat>): nat {
    if waits == [] then 0 else Total(waits[..|waits| - 1]) + waits[|waits| - 1]
  }

  ghost predicate Full(waits: seq<nat>) {
    forall k :: 0 <= k < |waits| ==> waits[k] == BackoffAt(k)
  }

  /** A pause is the backoff, or what is left of the time when that is less; a
      pause that was cut short is the last one. */
  ghost predicate Paced(waits: seq<nat>) {
    waits != [] ==>
      var n := |waits| - 1;
      Full(waits[..n]) && 0 < waits[n] <= BackoffAt(n)
  }

  lemma {:induction false} FullTakesTime(waits: seq<nat>)
    requires Full(waits)
    ensures Total(waits) >= |waits| * MIN_BACKOFF
    decreases |waits|
  {
    if waits != [] {
      FullTakesTime(waits[..|waits| - 1]);
      BackoffGrows(|waits| - 1);
    }
  }

  lemma FewPauses(waits: seq<nat>, queueWait: nat)
    requires Full(waits) && Total(waits) <= queueWait
    ensures |waits| <= queueWait / MIN_BACKOFF
  {
    FullTakesTime(waits);
  }

  lemma OneMorePause(waits: seq<nat>, wait: nat)
    requires Full(waits) && 0 < wait <= BackoffAt(|waits|)
    ensures Paced(waits + [wait])
    ensures wait == BackoffAt(|waits|) ==> Full(waits + [wait])
    ensures Total(waits + [wait]) == Total(waits) + wait
  {
    assert (waits + [wait])[..|waits|] == waits;
  }

  lemma NextRound(waits: seq<nat>, wait: nat, backoff: nat, queueWait: nat, now: nat)
    requires Full(waits) && Total(waits) <= now && backoff == BackoffAt(|waits|)
    requires 0 < wait <= backoff && wait <= queueWait - now
    requires wait == backoff || wait == queueWait - now
    ensures |waits| + 2 <= MaxScans(queueWait)
    ensures Paced(waits + [wait]) && Total(waits + [wait]) <= now + wait
    ensures now + wait < queueWait ==> Full(waits + [wait])
    ensures BackoffAt(|waits| + 1) == NextBackoff(backoff)
  {
    FewPauses(waits, queueWait);
    OneMorePause(waits, wait);
  }

  function MaxScans(queueWait: nat): nat {
    queueWait / MIN_BACKOFF + 2
  }

  /** Ends for every world. The pauses grow as the backoff does, their total is
      at most the queueing time, there are at most queueWait / 200ms + 2 scans,
      and no account is reported only after a scan that found none with the
      deadline reached. */
  method DispatchLoop(queueWait: nat, w: World) returns (reply: Reply, scans: nat, waits: seq<nat>, waited: nat)
    ensures scans >= 1 && |waits| == if reply == Cancelled then scans else scans - 1
    ensures scans <= MaxScans(queueWait)
    ensures Paced(waits) && Total(waits) <= queueWait
    ensures forall k :: 0 <= k < scans - 1 ==> w.scan(k) == NoneAvailable
    ensures match w.scan(scans - 1)
            case Found(account) => reply == Leased(account)
            case Broken(message) => reply == Failed(message)
            case NoneAvailable =>
              (reply == NoAvailable && waited >= queueWait) || (reply == Cancelled && w.cancelled(scans - 1))
  {
    var now, readings := 0, 0;
    var deadline := queueWait;
    var backoff := MIN_BACKOFF;
    scans, waits := 0, [];
    ghost var most := MaxScans(queueWait);
    while true
      invariant |waits| == scans && backoff == BackoffAt(scans)
      invariant Paced(waits) && Total(waits) <= deadline
      invariant now < deadline ==> Full(waits) && Total(waits) <= now
      invariant scans < most
      invariant forall k :: 0 <= k < scans ==> w.scan(k) == NoneAvailable
      decreases most - scans
    {
      var found := w.scan(scans);
      scans := scans + 1;
      if found.Found? {
        return Leased(found.account), scans, waits, now;
      }
      if found.Broken? {
        return Failed(found.message), scans, waits, now;
      }
      now, readings := now + w.passes(readings), readings + 1;
      if !(now < deadline) {
        return NoAvailable, scans, waits, now;
      }
      var wait: int := backoff;
      now, readings := now + w.passes(readings), readings + 1;
      var remain := deadline - now;
      if remain < wait {
        wait := remain;
      }
      if wait <= 0 {
        return NoAvailable, scans, waits, now;
      }
      NextRound(waits, wait, backoff, queueWait, now);
      waits := waits + [wait];
      if w.cancelled(scans - 1) {
        return Cancelled, scans, waits, now;
      }
      now := now + wait + w.late(scans - 1);
      backoff := NextBackoff(backoff);
    }
  }
}
