/** Images from external channels: a route is asked again for what is still
    missing until the request is filled, and routes are tried in order. */
module ImageChannel {
  import opened Wrappers

  datatype ImageResult = ImageResult(urls: seq<string>, b64s: seq<string>)

  datatype Failure =
    | NoAdapter | Unsupported | EmptyResponse | Upstream(message: string) | CountMismatch(expected: nat, got: nat)

  /** An upstream call fails, or answers with a result that may be missing. */
  type Reply = Result<Option<ImageResult>, Failure>

  /** What an adapter answers to its k-th call for n images; anything at all. */
  type Adapter = (nat, nat) -> Reply

  type Route = Option<Adapter>

  function ActualCount(r: Option<ImageResult>): nat {
    if r.None? then 0 else |r.value.urls| + |r.value.b64s|
  }

  function ExpectedCount(requested: int): nat {
    if requested <= 0 then 1 else requested
  }

  function Least(a: nat, b: nat): nat {
    if a <= b then a else b
  }

  function MaxCalls(expected: nat): nat {
    if expected < 2 then 2 else expected
  }

  /** Keeps the first images, addresses before inline data. */
  function Trim(r: ImageResult, max: int): (t: ImageResult)
    ensures max > 0 ==> ActualCount(Some(t)) == Least(max, ActualCount(Some(r)))
    ensures t.urls <= r.urls && t.b64s <= r.b64s
    ensures |t.urls| < |r.urls| ==> t.b64s == []
  {
    if max <= 0 then r
    else if |r.urls| >= max then ImageResult(r.urls[..max], [])
    else
      var room := max - |r.urls|;
      ImageResult(r.urls, if |r.b64s| > room then r.b64s[..room] else r.b64s)
  }

  function AppendImageResult(dst: ImageResult, src: ImageResult): ImageResult {
    ImageResult(dst.urls + src.urls, dst.b64s + src.b64s)
  }

  // ---- What a route does, as a trace of calls ----

  datatype Call = Call(asked: nat, reply: Reply)

  /** How many images of a reply there was room for. */
  function Usable(c: Call): nat {
    if c.reply.Ok? then Least(c.asked, ActualCount(c.reply.value)) else 0
  }

  function Gathered(calls: seq<Call>): nat {
    if calls == [] then 0 else Gathered(calls[..|calls| - 1]) + Usable(calls[|calls| - 1])
  }

  /** The images of a trace: of every reply as many as there was room for. */
  function Kept(calls: seq<Call>): ImageResult {
    if calls == [] then ImageResult([], [])
    else
      Add(Kept(calls[..|calls| - 1]), calls[|calls| - 1])
  }

  /** A route at work: its calls so far and the images kept of them. */
  datatype Progress = Progress(calls: seq<Call>, kept: ImageResult)

  function Add(kept: ImageResult, c: Call): ImageResult {
    if Usable(c) == 0 then kept
    else
      AppendImageResult(kept, Trim(c.reply.value.value, c.asked))
  }

  function Missing(expected: nat, p: Progress): int {
    expected - ActualCount(Some(p.kept))
  }

  predicate GivesUp(p: Progress) {
    p.calls != [] && p.calls[|p.calls| - 1].reply == Err(Unsupported)
  }

  predicate Stops(expected: nat, p: Progress) {
    Missing(expected, p) <= 0 || |p.calls| >= MaxCalls(expected) || GivesUp(p)
  }

  function CallAgain(a: Adapter, expected: nat, p: Progress): Progress
    requires !Stops(expected, p)
  {
    var missing := Missing(expected, p);
    var c := Call(missing, a(|p.calls|, missing));
    Progress(p.calls + [c], Add(p.kept, c))
  }

  /** Asks for exactly what is missing, until nothing is, the calls are used up
      or the route says that it cannot take the references. */
  function Ask(a: Adapter, expected: nat, p: Progress): Progress
    decreases MaxCalls(expected) - |p.calls|
  {
    if Stops(expected, p) then p else Ask(a, expected, CallAgain(a, expected, p))
  }

  const NOTHING := Progress([], ImageResult([], []))

  function Outcome(route: Route, requested: int): Progress {
    if route.None? then NOTHING else Ask(route.value, ExpectedCount(requested), NOTHING)
  }

  /** The route fills the request. */
  predicate Fills(route: Route, requested: int) {
    Missing(ExpectedCount(requested), Outcome(route, requested)) == 0
  }

  // ---- The trace, read without the progress ----

  lemma OneCall(calls: seq<Call>, c: Call)
    ensures Gathered(calls + [c]) == Gathered(calls) + Usable(c)
    ensures Kept(calls + [c]) == Add(Kept(calls), c)
  {
    assert (calls + [c])[..|calls|] == calls;
  }

  ghost predicate AsksForMissing(a: Adapter, expected: nat, calls: seq<Call>, k: nat)
    requires k < |calls|
  {
    && calls[k].asked == expected - Gathered(calls[..k])
    && calls[k].asked > 0
    && calls[k].reply == a(k, calls[k].asked)
    && (k < |calls| - 1 ==> calls[k].reply != Err(Unsupported))
  }

  ghost predicate Sound(a: Adapter, expected: nat, p: Progress) {
    && |p.calls| <= MaxCalls(expected)
    && p.kept == Kept(p.calls)
    && ActualCount(Some(p.kept)) == Gathered(p.calls) <= expected
    && forall k :: 0 <= k < |p.calls| ==> AsksForMissing(a, expected, p.calls, k)
  }

  lemma CallAgainIsSound(a: Adapter, expected: nat, p: Progress)
    requires Sound(a, expected, p) && !Stops(expected, p)
    ensures Sound(a, expected, CallAgain(a, expected, p))
  {
    var t := CallAgain(a, expected, p);
    var c := t.calls[|p.calls|];
    OneCall(p.calls, c);
    forall k | 0 <= k < |t.calls|
      ensures AsksForMissing(a, expected, t.calls, k)
    {
      if k < |p.calls| {
        assert AsksForMissing(a, expected, p.calls, k);
        assert t.calls[..k] == p.calls[..k];
      } else {
        assert t.calls[..k] == p.calls;
      }
    }
  }

  lemma {:induction false} AskIsSound(a: Adapter, expected: nat, p: Progress)
    requires Sound(a, expected, p)
    ensures Sound(a, expected, Ask(a, expected, p)) && Stops(expected, Ask(a, expected, p))
    decreases MaxCalls(expected) - |p.calls|
  {
    if !Stops(expected, p) {
      CallAgainIsSound(a, expected, p);
      AskIsSound(a, expected, CallAgain(a, expected, p));
    }
  }

  /** For every adapter: every call asks for exactly what is missing, at most
      max(2, expected) calls are made, no image too many is kept, and the route
      only stops short when its calls are used up or it gives up. */
  lemma TraceIsSound(a: Adapter, requested: int)
    ensures var expected := ExpectedCount(requested);
      var p := Outcome(Some(a), requested);
      && |p.calls| <= MaxCalls(expected)
      && p.kept == Kept(p.calls)
      && ActualCount(Some(p.kept)) == Gathered(p.calls) <= expected
      && (forall k :: 0 <= k < |p.calls| ==> AsksForMissing(a, expected, p.calls, k))
      && (Fills(Some(a), requested) || |p.calls| == MaxCalls(expected) || GivesUp(p))
  {
    AskIsSound(a, ExpectedCount(requested), NOTHING);
  }

  /** No reply loses an image there was room for: what it adds is a prefix of
      its addresses and inline images, and it is all of them unless the request
      is filled by it. */
  lemma NothingDropped(a: Adapter, requested: int, calls: seq<Call>, k: nat, offered: ImageResult)
    requires calls == Outcome(Some(a), requested).calls && k < |calls| && calls[k].reply == Ok(Some(offered))
    ensures var (before, after) := (Kept(calls[..k]), Kept(calls[..k + 1]));
      && before.urls <= after.urls <= before.urls + offered.urls
      && before.b64s <= after.b64s <= before.b64s + offered.b64s
      && (Gathered(calls[..k + 1]) < ExpectedCount(requested) ==>
            after == ImageResult(before.urls + offered.urls, before.b64s + offered.b64s))
  {
    TraceIsSound(a, requested);
    assert AsksForMissing(a, ExpectedCount(requested), calls, k);
    assert calls[..k + 1] == calls[..k] + [calls[k]];
    OneCall(calls[..k], calls[k]);
    AddKeeps(Kept(calls[..k]), calls[k]);
  }

  lemma AddKeeps(kept: ImageResult, c: Call)
    requires c.asked > 0 && c.reply.Ok? && c.reply.value.Some?
    ensures var (t, offered) := (Add(kept, c), c.reply.value.value);
      && kept.urls <= t.urls <= kept.urls + offered.urls
      && kept.b64s <= t.b64s <= kept.b64s + offered.b64s
      && (Usable(c) < c.asked ==> t == ImageResult(kept.urls + offered.urls, kept.b64s + offered.b64s))
  {
  }

  // ---- The loops ----

  /** One call for what is missing; an error unless it brought an image. */
  method CallOnce(a: Adapter, expected: nat, p: Progress) returns (q: Progress, err: Option<Failure>)
    requires !Stops(expected, p)
    ensures q == CallAgain(a, expected, p)
    ensures err.None? ==> !GivesUp(q)
    ensures err.Some? ==> q.kept == p.kept && (err.value == Unsupported <==> GivesUp(q))
  {
    var remaining := expected - ActualCount(Some(p.kept));
    var reply := a(|p.calls|, remaining);
    var combined := p.kept;
    err := Some(if reply.Err? then reply.error else EmptyResponse);
    if reply.Ok? && ActualCount(reply.value) > 0 {
      combined := AppendImageResult(combined, Trim(reply.value.value, remaining));
      err := None;
    }
    q := Progress(p.calls + [Call(remaining, reply)], combined);
  }

  method ImageGenerateWithRetry(route: Route, requested: int) returns (r: Result<ImageResult, Failure>, p: Progress)
    ensures p == Outcome(route, requested)
    ensures r.Ok? <==> Fills(route, requested)
    ensures r.Ok? ==> r.value == p.kept && ActualCount(Some(r.value)) == ExpectedCount(requested)
    ensures r.Err? && GivesUp(p) ==> r.error == Unsupported
    ensures r.Err? && !GivesUp(p) && ActualCount(Some(p.kept)) > 0 ==>
      r.error == CountMismatch(ExpectedCount(requested), ActualCount(Some(p.kept)))
  {
    p := NOTHING;
    if route.None? {
      return Err(NoAdapter), p;
    }
    var a, expected := route.value, ExpectedCount(requested);
    var maxCalls := expected;
    if maxCalls < 2 {
      maxCalls := 2;
    }
    var lastErr := EmptyResponse;
    var attempt := 1;
    while attempt <= maxCalls
      invariant 1 <= attempt <= maxCalls + 1 && maxCalls == MaxCalls(expected)
      invariant |p.calls| == attempt - 1
      invariant Missing(expected, p) > 0 && !GivesUp(p)
      invariant Outcome(route, requested) == Ask(a, expected, p)
    {
      var err;
      p, err := CallOnce(a, expected, p);
      attempt := attempt + 1;
      if err.None? {
        if ActualCount(Some(p.kept)) >= expected {
          return Ok(Trim(p.kept, expected)), p;
        }
        lastErr := CountMismatch(expected, ActualCount(Some(p.kept)));
      } else if err.value == Unsupported {
        return Err(err.value), p;
      } else {
        lastErr := err.value;
      }
    }
    var got := ActualCount(Some(p.kept));
    r := Err(if got > 0 then CountMismatch(expected, got) else lastErr);
  }

  /** The first route that fills the request is taken, and the failures are the
      routes before it: all of them when none does. */
  method PickImageRoute(routes: seq<Route>, requested: int)
    returns (selected: Option<nat>, result: Option<ImageResult>, failures: seq<(nat, Failure)>)
    ensures |failures| <= |routes|
    ensures forall j :: 0 <= j < |failures| ==> failures[j].0 == j && !Fills(routes[j], requested)
    ensures selected == if |failures| < |routes| then Some(|failures|) else None
    ensures result.Some? <==> selected.Some?
    ensures selected.Some? ==>
      && Fills(routes[selected.value], requested)
      && result.value == Outcome(routes[selected.value], requested).kept
      && ActualCount(result) == ExpectedCount(requested)
  {
    failures := [];
    for i := 0 to |routes|
      invariant |failures| == i
      invariant forall j :: 0 <= j < i ==> failures[j].0 == j && !Fills(routes[j], requested)
    {
      var r, _ := ImageGenerateWithRetry(routes[i], requested);
      if r.Ok? {
        return Some(i), Some(r.value), failures;
      }
      failures := failures + [(i, r.error)];
    }
    return None, None, failures;
  }
}
