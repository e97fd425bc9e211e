/** What every run of the lease protocol keeps: one unexpired lease per account
    and proxy, no lock left behind by a failed dispatch, and, on two conditions,
    the daily cap and the minimum interval of an account. */
module LeaseSafety {
  import opened Wrappers
  import opened RedisLock
  import opened Leases

  predicate Unexpired(s: Sys, token: nat) {
    token in s.grants && Alive(s.grants[token].until, s.now)
  }

  // ---- Exclusion ----

  /** Two unexpired leases of one account, or of one proxy, are the same lease of
      the same request. */
  lemma NoTwoLeases(cfg: Config, s0: Sys, es: seq<Event>, p: nat, q: nat, ref: Ref, other: Ref)
    requires Init(s0) && Run(cfg, s0, es).Some?
    requires
      var s := Run(cfg, s0, es).value;
      && p < |s.procs| && q < |s.procs| && ref in Refs(s.procs[p]) && other in Refs(s.procs[q])
      && Unexpired(s, ref.token) && Unexpired(s, other.token)
    requires ref.key == other.key
    ensures p == q && ref == other
  {
    RunKeepsInv(cfg, s0, es);
    var s := Run(cfg, s0, es).value;
    assert Owns(s, p, ref) && Owns(s, q, other);
  }

  /** A release that comes after its lease expired, with the key free or already
      in other hands, changes nothing in Redis. */
  lemma LateReleaseIsHarmless(cfg: Config, s0: Sys, es: seq<Event>, p: nat, act: Act, fault: Fault)
    requires Init(s0) && Run(cfg, s0, es).Some?
    requires Step(cfg, Run(cfg, s0, es).value, Move(p, act, fault)).Some?
    requires
      var s := Run(cfg, s0, es).value;
      var op := OpOf(cfg, s.procs[p], act);
      op.Give? && !Unexpired(s, op.ref.token)
    ensures Step(cfg, Run(cfg, s0, es).value, Move(p, act, fault)).value.keys == Run(cfg, s0, es).value.keys
  {
    RunKeepsInv(cfg, s0, es);
  }

  /** No step of another request, failing or not, takes a lock from its holder:
      the holder's key stays as it is until it expires. */
  lemma OthersKeepTheirLocks(cfg: Config, s0: Sys, es: seq<Event>, e: Event, q: nat, ref: Ref)
    requires Init(s0) && Run(cfg, s0, es).Some? && Step(cfg, Run(cfg, s0, es).value, e).Some?
    requires q < |Run(cfg, s0, es).value.procs| && ref in Refs(Run(cfg, s0, es).value.procs[q])
    requires Unexpired(Run(cfg, s0, es).value, ref.token) && !(e.Move? && e.p == q)
    ensures
      var s, s' := Run(cfg, s0, es).value, Step(cfg, Run(cfg, s0, es).value, e).value;
      && ref in Refs(s'.procs[q])
      && (Unexpired(s', ref.token) ==>
            ref.key in s.keys && ref.key in s'.keys && s'.keys[ref.key] == s.keys[ref.key])
  {
    RunKeepsInv(cfg, s0, es);
    var s := Run(cfg, s0, es).value;
    StepKeepsInv(cfg, s, e);
    var s' := Step(cfg, s, e).value;
    assert Owns(s, q, ref);
    assert s'.procs[q] == s.procs[q];
    assert Owns(s', q, ref);
    if e.Move? {
      GrantsKeepDeadlines(cfg, s, e.p, e.act, e.fault, ref.token);
    }
  }

  lemma GrantsKeepDeadlines(cfg: Config, s: Sys, p: nat, act: Act, fault: Fault, t: nat)
    requires Inv(s) && Step(cfg, s, Move(p, act, fault)).Some? && t in s.grants
    ensures
      var s' := Step(cfg, s, Move(p, act, fault)).value;
      t in s'.grants ==> s'.grants[t].until == s.grants[t].until && s'.grants[t].key == s.grants[t].key
  {
  }

  // ---- Nothing left behind ----

  predicate Orphan(s: Sys, t: nat) {
    t in s.grants && s.grants[t].holder == None
  }

  /** The two faults that part a token from its request: the lock was taken but
      the answer lost, or its release never arrived. */
  predicate Strands(cfg: Config, s: Sys, e: Event, t: nat) {
    e.Move? && e.p < |s.procs| &&
      match OpOf(cfg, s.procs[e.p], e.act)
      case NoOp => false
      case Take(ref, _, _) => e.fault == AnswerLost && ref.key !in s.keys && t == ref.token
      case Give(ref) => e.fault == NotSent && t == ref.token
  }

  lemma StepStrands(cfg: Config, s: Sys, e: Event, t: nat)
    requires Inv(s) && Step(cfg, s, e).Some?
    ensures Orphan(Step(cfg, s, e).value, t) <==> Orphan(s, t) || Strands(cfg, s, e, t)
  {
    if e.Move? {
      var c := s.procs[e.p];
      var op := OpOf(cfg, c, e.act);
      LocalKeepsBooks(cfg, s.now, c, e.act);
      if op.Give? {
        assert Owns(s, e.p, op.ref);
      }
    }
  }

  ghost predicate StrandsAt(cfg: Config, s0: Sys, es: seq<Event>, i: nat, t: nat)
    requires i < |es|
  {
    var before := Run(cfg, s0, es[..i]);
    before.Some? && Strands(cfg, before.value, es[i], t)
  }

  lemma StrandsAtPrefix(cfg: Config, s0: Sys, es: seq<Event>, i: nat, t: nat)
    requires i < |es| - 1
    ensures StrandsAt(cfg, s0, es[..|es| - 1], i, t) == StrandsAt(cfg, s0, es, i, t)
  {
    assert es[..|es| - 1][..i] == es[..i];
  }

  /** A token becomes nobody's exactly at one of those faults. */
  lemma {:induction false} StrandedExactly(cfg: Config, s0: Sys, es: seq<Event>, t: nat)
    requires Init(s0) && Run(cfg, s0, es).Some?
    ensures Orphan(Run(cfg, s0, es).value, t) <==> exists i :: 0 <= i < |es| && StrandsAt(cfg, s0, es, i, t)
    decreases |es|
  {
    if es != [] {
      var n := |es| - 1;
      var before := es[..n];
      StrandedExactly(cfg, s0, before, t);
      RunKeepsInv(cfg, s0, before);
      var s := Run(cfg, s0, before).value;
      StepStrands(cfg, s, es[n], t);
      assert StrandsAt(cfg, s0, es, n, t) == Strands(cfg, s, es[n], t);
      forall i | 0 <= i < n
        ensures StrandsAt(cfg, s0, before, i, t) == StrandsAt(cfg, s0, es, i, t)
      {
        StrandsAtPrefix(cfg, s0, es, i, t);
      }
    }
  }

  /** Every stored lock is nobody's or held by a request that will still release
      it; a request that is idle or still scanning, so one whose lock attempts
      have failed or been undone, has none stored. */
  lemma WhatIsStored(cfg: Config, s0: Sys, es: seq<Event>, k: Key)
    requires Init(s0) && Run(cfg, s0, es).Some? && k in Run(cfg, s0, es).value.keys
    ensures
      var s := Run(cfg, s0, es).value;
      var t := s.keys[k].token;
      || Orphan(s, t)
      || exists p :: 0 <= p < |s.procs| && Ref(k, t) in Refs(s.procs[p]) && !s.procs[p].Idle? && !s.procs[p].Scanning?
  {
    RunKeepsInv(cfg, s0, es);
    var s := Run(cfg, s0, es).value;
    var t := s.keys[k].token;
    if !Orphan(s, t) {
      var p := s.grants[t].holder.value;
      assert Owns(s, p, Ref(k, t));
      assert Ref(k, t) in Refs(s.procs[p]);
    }
  }

  /** Without faults in Redis, once every request has ended or is back to
      scanning, no lock is stored at all, whatever failed on the way. */
  lemma NoLockOutlivesItsRequest(cfg: Config, s0: Sys, es: seq<Event>)
    requires Init(s0) && Run(cfg, s0, es).Some?
    requires forall i :: 0 <= i < |es| && es[i].Move? ==> es[i].fault == Fine
    requires forall p :: 0 <= p < |Run(cfg, s0, es).value.procs| ==>
      Run(cfg, s0, es).value.procs[p].Idle? || Run(cfg, s0, es).value.procs[p].Scanning?
    ensures Run(cfg, s0, es).value.keys == map[]
  {
    var s := Run(cfg, s0, es).value;
    if k :| k in s.keys {
      WhatIsStored(cfg, s0, es, k);
      StrandedExactly(cfg, s0, es, s.keys[k].token);
      assert false;
    }
  }

  lemma RunSnoc(cfg: Config, s: Sys, es: seq<Event>, e: Event)
    requires Run(cfg, s, es).Some?
    ensures Run(cfg, s, es + [e]) == Step(cfg, Run(cfg, s, es).value, e)
  {
    assert (es + [e])[..|es|] == es;
  }

  lemma ProxyReleaseGoesThrough(cfg: Config, s: Sys, p: nat, fault: Fault)
    requires Inv(s) && p < |s.procs| && s.procs[p].Marked? && (s.procs[p].via.None? ==> fault == Fine)
    ensures
      var next := Step(cfg, s, Move(p, ReturnProxy, fault));
      && next.Some? && next.value.procs == s.procs[p := ProxyBack(s.procs[p].acc, s.procs[p].token)]
      && (fault != NotSent ==> forall ref :: ref in ViaRefs(s.procs[p].via) ==> ref.token !in next.value.grants)
  {
  }

  lemma AccountReleaseGoesThrough(cfg: Config, s: Sys, p: nat, fault: Fault)
    requires Inv(s) && p < |s.procs| && s.procs[p].ProxyBack?
    ensures
      var next := Step(cfg, s, Move(p, ReturnAccount, fault));
      && next.Some? && next.value.procs == s.procs[p := Idle]
      && (fault != NotSent ==> s.procs[p].token !in next.value.grants)
      && next.value.grants.Keys <= s.grants.Keys
  {
    var ref := Ref(AccountLock(s.procs[p].acc.id), s.procs[p].token);
    assert ref in Refs(s.procs[p]);
    assert Owns(s, p, ref);
  }

  /** Releasing a lease goes through all three of its calls whether or not they
      succeed, and leaves neither token granted if both releases arrive. */
  lemma ReleaseAttemptsBoth(cfg: Config, s: Sys, p: nat, ok: bool, first: Fault, second: Fault)
    requires Inv(s) && p < |s.procs| && s.procs[p].Leased?
    requires s.procs[p].via.None? ==> first == Fine
    ensures
      var end := Run(cfg, s, [] + [Move(p, MarkUsed(ok), Fine)] + [Move(p, ReturnProxy, first)]
                                + [Move(p, ReturnAccount, second)]);
      && end.Some? && end.value.procs == s.procs[p := Idle]
      && (first != NotSent && second != NotSent ==>
            forall ref :: ref in Refs(s.procs[p]) ==> ref.token !in end.value.grants)
  {
    var e1, e2, e3 := Move(p, MarkUsed(ok), Fine), Move(p, ReturnProxy, first), Move(p, ReturnAccount, second);
    var s1 := Step(cfg, s, e1).value;
    StepKeepsInv(cfg, s, e1);
    ProxyReleaseGoesThrough(cfg, s1, p, first);
    var s2 := Step(cfg, s1, e2).value;
    StepKeepsInv(cfg, s1, e2);
    AccountReleaseGoesThrough(cfg, s2, p, second);
    RunSnoc(cfg, s, [], e1);
    RunSnoc(cfg, s, [] + [e1], e2);
    RunSnoc(cfg, s, [] + [e1] + [e2], e3);
    assert s.procs[p := Marked(s.procs[p].acc, s.procs[p].token, s.procs[p].via)] == s1.procs;
    assert s.procs[p := Idle] == s2.procs[p := Idle];
  }

  // ---- Throttled accounts ----

  predicate Restores(e: Event, id: nat) {
    e.Admin? && e.id == id && e.status in {Healthy, Warned}
  }

  /** The end of a cooldown restores nobody: an account that is throttled, or
      worse, is not listed again until its status is set back. */
  lemma {:induction false} ThrottledStaysOut(cfg: Config, s: Sys, es: seq<Event>, id: nat)
    requires Run(cfg, s, es).Some? && id in s.rows && s.rows[id].status !in {Healthy, Warned}
    requires forall i :: 0 <= i < |es| ==> !Restores(es[i], id)
    ensures id in Run(cfg, s, es).value.rows && Run(cfg, s, es).value.rows[id].status !in {Healthy, Warned}
    ensures forall i, j :: 0 <= i < |es| && es[i].Move? && es[i].act.Scan? && 0 <= j < |es[i].act.rows| ==>
      es[i].act.rows[j].id != id
    decreases |es|
  {
    if es != [] {
      var before := es[..|es| - 1];
      ThrottledStaysOut(cfg, s, before, id);
      var last := es[|es| - 1];
      assert forall i :: 0 <= i < |before| ==> es[i] == before[i];
      if last.Move? && last.act.Scan? {
        assert IsListing(cfg, Run(cfg, s, before).value, last.act.rows);
      }
    }
  }
}
