/** Image requests from the images that were gathered to the bill: what is
    delivered is what was held for. */
module ImageBills {
  import opened Pricing
  import opened ImageRunner
  import opened Wrappers
  import C = ImageChannel
  import H = Holds

  /** Where the images go once gathered; storing them may fail. The cloud gives
      every image an address and a thumbnail of its own. */
  datatype Storage = Local | Cloud | StorageFails

  function DataCount(urls: nat, thumbs: nat, fileIds: nat): nat {
    Max(Max(urls, thumbs), fileIds)
  }

  /** The count and the cost of a response; one without images costs nothing. */
  function Accounting(m: Model, count: nat, ratio: real, q: Quality): (nat, int) {
    if count == 0 then (0, 0) else (count, ImageCost(m, count, ratio, q))
  }

  /** Whatever the attempts bring, in whatever order: a request is delivered
      exactly when the runner succeeds and the images can be stored. It then has
      the images it asked for, is billed exactly its hold, and leaves no overrun
      and nothing frozen. */
  method GenerateLocally(m: Model, n: nat, ratio: real, q: Quality, maxAttempts: int, attempt: nat -> Attempt,
                         batch: (nat, nat) -> seq<Sub>, cancelled: nat -> bool, storage: Storage,
                         ghost r: H.Req, ghost archiving: bool)
    returns (delivered: bool, actualN: nat, actualCost: int, ghost answers: seq<seq<Sub>>, ghost last: nat)
    requires n >= 1 && Answers(batch, archiving)
    requires forall k :: attempt(k).ok ==> Aligned(attempt(k).data, archiving)
    requires r.path == H.LocalImage && r.cost == ImageCost(m, n, ratio, q)
    ensures delivered ==> actualN == n && actualCost == r.cost && storage != StorageFails
    ensures n > 1 ==>
      && AsksForMissing(n, batch, answers)
      && (delivered <==> |FirstUrls(Flat(answers))| == n && storage != StorageFails)
      && (|FirstUrls(Flat(answers))| < n ==>
            |answers| == Max(n, MaxAttemptWindow(maxAttempts)) || (answers != [] && cancelled(|answers|)))
    ensures n == 1 ==>
      && Stops(maxAttempts, attempt, cancelled, last)
      && (forall j :: 1 <= j < last ==> !Stops(maxAttempts, attempt, cancelled, j))
      && (delivered <==>
            !cancelled(last) && attempt(last).ok && attempt(last).data.urls != [] && storage != StorageFails)
    ensures delivered ==> H.Overrun(r, actualCost) == 0 && H.Residue(r, actualCost) == 0
    ensures delivered ==> PricedBy(r.(phase := H.Delivered(actualCost)), Quote(m, n, actualN, ratio, 1.0, q))
    ensures !delivered ==> actualN == 0 && actualCost == 0
  {
    delivered, actualN, actualCost, answers, last := false, 0, 0, [], 0;
    var success, urls, fileIds := false, 0, 0;
    if n > 1 {
      var p, subs := RunParallel(n, maxAttempts, batch, cancelled, archiving);
      answers := subs;
      success, urls, fileIds := p.success, |p.data.urls|, |p.data.fileIds|;
    } else {
      var s, single, _ := RunSingle(maxAttempts, attempt, cancelled, archiving);
      last := single.attempts;
      success, urls, fileIds := s, |single.data.urls|, |single.data.fileIds|;
    }
    if !success || storage.StorageFails? {
      return;
    }
    var count := DataCount(urls, if storage.Cloud? then urls else 0, fileIds);
    var (billed, cost) := Accounting(m, count, ratio, q);
    if billed == 0 {
      return;
    }
    LocalDeliveryHasNoOverrun(m, n, billed, ratio, q, r);
    delivered, actualN, actualCost := true, billed, cost;
  }

  /** A channel request takes the first route that fills it. It is delivered
      exactly when there is one, with exactly the images it asked for, billed at
      that channel's ratio; a channel of ratio at most one does not overrun. */
  method DeliverByChannel(m: Model, requested: int, ratio: real, q: Quality, routes: seq<C.Route>, ratios: nat -> real,
                          ghost r: H.Req)
    returns (delivered: bool, selected: nat, actualN: nat, finalCost: int)
    requires r.path == H.ChannelImage && r.cost == ImageCost(m, requested, ratio, q)
    ensures delivered <==> exists i :: 0 <= i < |routes| && C.Fills(routes[i], requested)
    ensures delivered ==>
      && selected < |routes| && C.Fills(routes[selected], requested)
      && (forall i :: 0 <= i < selected ==> !C.Fills(routes[i], requested))
      && actualN == C.ExpectedCount(requested)
      && finalCost == ImageCost(m, actualN, ChannelRatio(ratio, ratios(selected)), q)
    ensures delivered && ratios(selected) <= 1.0 ==>
      && H.Overrun(r, finalCost) == 0
      && PricedBy(r.(phase := H.Delivered(finalCost)), Quote(m, actualN, actualN, ratio, ratios(selected), q))
  {
    delivered, selected, actualN, finalCost := false, 0, 0, 0;
    var route, result, failures := C.PickImageRoute(routes, requested);
    if route == None || C.ActualCount(result) == 0 {
      return;
    }
    selected, actualN := route.value, C.ActualCount(result);
    finalCost := ImageCost(m, actualN, ChannelRatio(ratio, ratios(selected)), q);
    if ratios(selected) <= 1.0 {
      ChannelBill(m, requested, ratio, ratios(selected), q, r, finalCost);
    }
    delivered := true;
  }

  lemma ChannelBill(m: Model, requested: int, ratio: real, channel: real, q: Quality, r: H.Req, finalCost: int)
    requires r.path == H.ChannelImage && r.cost == ImageCost(m, requested, ratio, q) && channel <= 1.0
    requires finalCost == ImageCost(m, C.ExpectedCount(requested), ChannelRatio(ratio, channel), q)
    ensures
      var n := C.ExpectedCount(requested);
      H.Overrun(r, finalCost) == 0 && PricedBy(r.(phase := H.Delivered(finalCost)), Quote(m, n, n, ratio, channel, q))
  {
    var n := C.ExpectedCount(requested);
    assert ImageCost(m, n, ratio, q) == r.cost;
    ChannelNeverOverruns(m, n, n, ratio, channel, q, r);
  }
}
