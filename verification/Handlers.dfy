/** The gateway's handlers as they run, one billing call after the other: each
    is exactly a path through the hold protocol. Image edits make the same
    calls as image generations. */
module Handlers {
  import opened Billing
  import opened Holds

  /** What may stop a channel image request between its hold and its
      settlement, in the order in which the handler meets it. */
  datatype ChannelTrouble =
    | TaskNotCreated | ReferencesNotArchived | NoRoute | NoImages
    | InlineUndecodable | ImagesNotArchived | TaskNotUpdated | NoTrouble

  /** The same for the images served from the account pool. */
  datatype LocalTrouble = TaskFails | ReferencesFail | UpstreamFails | NothingReturned | NoneMet

  /** The protocol's view of a handler: it begins, and unless it was turned
      away it either fails or delivers. */
  function Trail(id: nat, rejected: bool, failed: bool, actual: int): seq<Step> {
    if rejected then [Begin(id)]
    else if failed then [Begin(id), Fail(id)]
    else [Begin(id), Deliver(id, actual)]
  }

  lemma TwoSteps(s: Sys, a: Step, b: Step)
    ensures Run(s, [a]) == Next(s, a).0
    ensures Run(s, [a, b]) == Next(Next(s, a).0, b).0
  {
    assert [a, b][1..] == [b] && [a][1..] == [] && [b][1..] == [];
    assert Run(Next(s, a).0, [b]) == Next(Next(s, a).0, b).0;
  }

  /** The request a handler serves, not yet begun, with the engine's tables as
      its store. */
  ghost predicate Serves(engine: Engine, s: Sys, id: nat, r: Req)
    reads engine
  {
    engine.State() == s.store && id < |s.reqs| && s.reqs[id] == r && r.phase == Waiting
  }

  /** A handler's refund: it runs once however often it is called, and the image
      handlers' not at all when nothing was held. */
  class Refunder {
    const engine: Engine
    const r: Req
    const id: nat
    const skipsZero: bool
    var refunded: bool

    constructor (engine: Engine, r: Req, id: nat, skipsZero: bool)
      ensures this.engine == engine && this.r == r && this.id == id && this.skipsZero == skipsZero && !refunded
    {
      this.engine, this.r, this.id, this.skipsZero := engine, r, id, skipsZero;
      refunded := false;
    }

    predicate Skipped()
      reads this`refunded
    {
      refunded || (skipsZero && r.cost == 0)
    }

    method Call()
      modifies this`refunded, engine
      ensures Skipped()
      ensures engine.State() ==
        if old(Skipped()) then old(engine.State())
        else Book(old(engine.State()), Billing.Refund(r.user, r.key, r.cost, Request(id))).0
    {
      if refunded || (skipsZero && r.cost == 0) {
        return;
      }
      refunded := true;
      var _ := engine.Refund(r.user, r.key, r.cost, Request(id));
    }
  }

  /** The image request sent to an external channel. `hasRunner` says whether
      results are archived, `hasTasks` whether tasks are recorded. */
  method DispatchImageToChannel(engine: Engine, ghost s: Sys, id: nat, r: Req, hasRunner: bool, hasTasks: bool,
                                trouble: ChannelTrouble, finalCost: int)
    returns (delivered: bool, ghost trail: seq<Step>)
    requires Serves(engine, s, id, r) && r.path == ChannelImage
    modifies engine
    ensures engine.State() == Run(s, trail).store
    ensures trail == Trail(id, Next(s, Begin(id)).1 != Done, !delivered, finalCost)
    ensures delivered <==>
      && (r.cost > 0 ==> Live(s.store, r.user) && s.store.users[r.user].balance >= r.cost)
      && match trouble
         case TaskNotCreated => !hasTasks
         case ReferencesNotArchived => !hasTasks
         case NoRoute => false
         case NoImages => false
         case InlineUndecodable => !hasRunner
         case ImagesNotArchived => !hasRunner
         case TaskNotUpdated => !hasTasks
         case NoTrouble => true
  {
    ghost var begin, fail, deliver := Begin(id), Fail(id), Deliver(id, finalCost);
    TwoSteps(s, begin, fail);
    TwoSteps(s, begin, deliver);
    delivered, trail := false, [begin];
    var cost := r.cost;
    if cost > 0 {
      var out := engine.PreDeduct(r.user, r.key, cost, Request(id));
      if out != Done {
        return;
      }
    }
    ghost var held := Next(s, begin).0;
    assert engine.State() == held.store && held.reqs[id].phase == Open;
    var refund := new Refunder(engine, r, id, true);
    var stop := false;
    if hasTasks && trouble == TaskNotCreated {
      stop := true;
    } else if hasTasks && trouble == ReferencesNotArchived {
      stop := true;
    } else if trouble == NoRoute || trouble == NoImages {
      stop := true;
    } else if hasRunner && (trouble == InlineUndecodable || trouble == ImagesNotArchived) {
      stop := true;
    } else if hasTasks && trouble == TaskNotUpdated {
      stop := true;
    }
    if stop {
      refund.Call();
      trail := [begin, fail];
      return;
    }
    if finalCost > 0 {
      var _ := engine.Settle(r.user, r.key, cost, finalCost, Request(id));
    }
    delivered, trail := true, [begin, deliver];
  }

  /** The image request served from the account pool; its hold decides whether
      there is anything to settle. */
  method ImageGenerations(engine: Engine, ghost s: Sys, id: nat, r: Req, hasTasks: bool, trouble: LocalTrouble,
                          actualCost: int)
    returns (delivered: bool, ghost trail: seq<Step>)
    requires Serves(engine, s, id, r) && r.path == LocalImage
    modifies engine
    ensures engine.State() == Run(s, trail).store
    ensures trail == Trail(id, Next(s, Begin(id)).1 != Done, !delivered, actualCost)
    ensures delivered <==>
      && (r.cost > 0 ==> Live(s.store, r.user) && s.store.users[r.user].balance >= r.cost)
      && trouble != UpstreamFails && trouble != NothingReturned
      && (hasTasks ==> trouble != TaskFails && trouble != ReferencesFail)
  {
    ghost var begin, fail, deliver := Begin(id), Fail(id), Deliver(id, actualCost);
    TwoSteps(s, begin, fail);
    TwoSteps(s, begin, deliver);
    delivered, trail := false, [begin];
    var cost := r.cost;
    if cost > 0 {
      var out := engine.PreDeduct(r.user, r.key, cost, Request(id));
      if out != Done {
        return;
      }
    }
    ghost var held := Next(s, begin).0;
    assert engine.State() == held.store && held.reqs[id].phase == Open;
    var refund := new Refunder(engine, r, id, true);
    if (hasTasks && (trouble == TaskFails || trouble == ReferencesFail))
       || trouble == UpstreamFails || trouble == NothingReturned {
      refund.Call();
      trail := [begin, fail];
      return;
    }
    if cost > 0 {
      var _ := engine.Settle(r.user, r.key, cost, actualCost, Request(id));
    }
    delivered, trail := true, [begin, deliver];
  }

  /** The chat request: it calls the engine without asking for the amounts. */
  method ChatCompletions(engine: Engine, ghost s: Sys, id: nat, r: Req, upstreamFails: bool, actual: int)
    returns (delivered: bool, ghost trail: seq<Step>)
    requires Serves(engine, s, id, r) && r.path == Chat
    modifies engine
    ensures engine.State() == Run(s, trail).store
    ensures trail == Trail(id, Next(s, Begin(id)).1 != Done, !delivered, actual)
    ensures delivered <==>
      && (r.cost > 0 ==> Live(s.store, r.user) && s.store.users[r.user].balance >= r.cost)
      && !upstreamFails
  {
    ghost var begin, fail, deliver := Begin(id), Fail(id), Deliver(id, actual);
    TwoSteps(s, begin, fail);
    TwoSteps(s, begin, deliver);
    delivered, trail := false, [begin];
    var out := engine.PreDeduct(r.user, r.key, r.cost, Request(id));
    if out != Done {
      return;
    }
    ghost var held := Next(s, begin).0;
    assert engine.State() == held.store && held.reqs[id].phase == Open;
    var refund := new Refunder(engine, r, id, false);
    if upstreamFails {
      refund.Call();
      trail := [begin, fail];
      return;
    }
    var _ := engine.Settle(r.user, r.key, r.cost, actual, Request(id));
    delivered, trail := true, [begin, deliver];
  }

  /** The chat request sent to external channels: `opens` says which of the
      routes, in order, opens a stream; the first that does is used. */
  method DispatchChatToChannel(engine: Engine, ghost s: Sys, id: nat, r: Req, opens: seq<bool>, actual: int)
    returns (selected: nat, ghost trail: seq<Step>)
    requires Serves(engine, s, id, r) && r.path == ChatChannel
    modifies engine
    ensures engine.State() == Run(s, trail).store
    ensures trail == Trail(id, Next(s, Begin(id)).1 != Done, selected == |opens|, actual)
    ensures selected <= |opens|
    ensures r.cost > 0 && !(Live(s.store, r.user) && s.store.users[r.user].balance >= r.cost) ==> selected == |opens|
    ensures selected < |opens| ==> opens[selected] && forall k :: 0 <= k < selected ==> !opens[k]
    ensures selected == |opens| && Next(s, Begin(id)).1 == Done ==> forall k :: 0 <= k < |opens| ==> !opens[k]
  {
    ghost var begin, fail, deliver := Begin(id), Fail(id), Deliver(id, actual);
    TwoSteps(s, begin, fail);
    TwoSteps(s, begin, deliver);
    selected, trail := |opens|, [begin];
    var out := engine.PreDeduct(r.user, r.key, r.cost, Request(id));
    if out != Done {
      return;
    }
    ghost var held := Next(s, begin).0;
    assert engine.State() == held.store && held.reqs[id].phase == Open;
    var refund := new Refunder(engine, r, id, false);
    selected := 0;
    while selected < |opens| && !opens[selected]
      invariant 0 <= selected <= |opens| && forall k :: 0 <= k < selected ==> !opens[k]
      invariant engine.State() == held.store
    {
      selected := selected + 1;
    }
    if selected == |opens| {
      refund.Call();
      trail := [begin, fail];
      return;
    }
    var _ := engine.Settle(r.user, r.key, r.cost, actual, Request(id));
    trail := [begin, deliver];
  }

  /** The chat request answered with one image, which is billed as it was held. */
  method HandleChatAsImage(engine: Engine, ghost s: Sys, id: nat, r: Req, upstreamFails: bool)
    returns (delivered: bool, ghost trail: seq<Step>)
    requires Serves(engine, s, id, r) && r.path == ChatAsImage
    modifies engine
    ensures engine.State() == Run(s, trail).store
    ensures trail == Trail(id, Next(s, Begin(id)).1 != Done, !delivered, r.cost)
    ensures delivered <==>
      && (r.cost > 0 ==> Live(s.store, r.user) && s.store.users[r.user].balance >= r.cost)
      && !upstreamFails
  {
    ghost var begin, fail, deliver := Begin(id), Fail(id), Deliver(id, r.cost);
    TwoSteps(s, begin, fail);
    TwoSteps(s, begin, deliver);
    delivered, trail := false, [begin];
    var cost := r.cost;
    if cost > 0 {
      var out := engine.PreDeduct(r.user, r.key, cost, Request(id));
      if out != Done {
        return;
      }
    }
    ghost var held := Next(s, begin).0;
    assert engine.State() == held.store && held.reqs[id].phase == Open;
    var refund := new Refunder(engine, r, id, true);
    if upstreamFails {
      refund.Call();
      trail := [begin, fail];
      return;
    }
    if cost > 0 {
      var _ := engine.Settle(r.user, r.key, cost, cost, Request(id));
    }
    delivered, trail := true, [begin, deliver];
  }
}
