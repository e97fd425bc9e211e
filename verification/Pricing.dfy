/** Prices in thousandths of a credit, over reals rounded half up. */
module Pricing {
  import opened Billing
  import opened Decimal
  import H = Holds

  datatype Quality = Q1K | Q2K | Q4K

  datatype Model = Model(image1K: int, image2K: int, image4K: int, inputPer1M: int, outputPer1M: int)

  /** A ratio that is not positive counts as one. */
  function Applied(ratio: real): (r: real)
    ensures r > 0.0
  {
    if ratio <= 0.0 then 1.0 else ratio
  }

  function RoundedTimes(amount: int, ratio: real): int {
    Truncate(amount as real * Applied(ratio) + 0.5)
  }

  /** A tier that has no price of its own falls back to the basic one. */
  function UnitPrice(m: Model, q: Quality): int {
    if q.Q2K? && m.image2K > 0 then m.image2K
    else if q.Q4K? && m.image4K > 0 then m.image4K
    else m.image1K
  }

  function ImageCost(m: Model, n: int, ratio: real, q: Quality): int {
    RoundedTimes(UnitPrice(m, q) * (if n <= 0 then 1 else n), ratio)
  }

  /** Integer division as the implementation language has it. */
  function Quotient(a: int, b: int): int
    requires b > 0
  {
    if a >= 0 then a / b else -((-a) / b)
  }

  function ChatCost(m: Model, promptTokens: int, completionTokens: int, ratio: real): int {
    RoundedTimes(Quotient(promptTokens * m.inputPer1M, 1_000_000) +
                 Quotient(completionTokens * m.outputPer1M, 1_000_000), ratio)
  }

  function EstimateChat(m: Model, promptTokens: int, maxTokens: int, ratio: real): int {
    ChatCost(m, promptTokens, if maxTokens <= 0 then 2048 else maxTokens, ratio)
  }

  lemma FloorIsMonotone(x: real, y: real)
    requires x <= y
    ensures x.Floor <= y.Floor
  {
  }

  lemma ProductsAreMonotone(a: int, b: int, r: real, t: real)
    requires 0 <= a <= b && 0.0 < r <= t
    ensures 0.0 <= a as real * r <= b as real * t
  {
    assert a as real * r <= b as real * r <= b as real * t;
  }

  lemma RoundedIsMonotone(a: int, b: int, r: real, t: real)
    requires 0 <= a <= b && 0.0 < r <= t
    ensures 0 <= RoundedTimes(a, r) <= RoundedTimes(b, t)
  {
    ProductsAreMonotone(a, b, r, t);
    FloorIsMonotone(a as real * r + 0.5, b as real * t + 0.5);
  }

  lemma NegativeCostsNothing(a: int, r: real)
    requires a < 0
    ensures RoundedTimes(a, r) <= 0
  {
    var t := Applied(r);
    assert a as real * t <= 0.0;
  }

  lemma RoundsToNothing(a: int, r: real)
    ensures RoundedTimes(a, r) <= 0 <==> a as real * Applied(r) < 0.5
  {
    var x := a as real * Applied(r) + 0.5;
    if x >= 1.0 {
      FloorIsMonotone(1.0, x);
    } else if x >= 0.0 {
      assert x.Floor == 0;
    } else {
      FloorIsMonotone(0.0, -x);
    }
  }

  lemma TimesIsMonotone(a: real, b: real, c: real)
    requires a >= b && c > 0.0
    ensures a * c >= b * c
  {
  }

  /** The channel multiplies the ratio by its own; where either is not
      positive, the product is not and counts as one. */
  function ChannelRatio(ratio: real, channel: real): real {
    ratio * Applied(channel)
  }

  lemma RatioFalls(ratio: real, factor: real)
    requires 0.0 < factor <= 1.0
    ensures ratio > 0.0 ==> 0.0 < ratio * factor <= ratio
    ensures ratio <= 0.0 ==> ratio * factor <= 0.0
  {
  }

  lemma CheaperRoundsLower(a: int, b: int, ratio: real, channel: real)
    requires 0 <= a <= b && channel <= 1.0
    ensures 0 <= RoundedTimes(a, ChannelRatio(ratio, channel)) <= RoundedTimes(b, ratio)
  {
    var factor := Applied(channel);
    RatioFalls(ratio, factor);
    if ratio <= 0.0 {
      RoundedIsMonotone(a, b, 1.0, 1.0);
    } else {
      RoundedIsMonotone(a, b, ratio * factor, ratio);
    }
  }

  lemma FewerCostLess(a: int, b: int, price: int)
    requires 0 <= a <= b && 0 <= price
    ensures 0 <= a * price <= b * price
    ensures 0 <= Quotient(a * price, 1_000_000) <= Quotient(b * price, 1_000_000)
  {
    assert 0 <= a * price <= b * price;
  }

  /** Fewer images at a lower ratio cost no more, or neither costs anything. */
  lemma FewerImagesCostLess(m: Model, asked: nat, got: nat, ratio: real, channel: real, q: Quality)
    requires 1 <= got <= asked && channel <= 1.0
    ensures
      var (held, final) := (ImageCost(m, asked, ratio, q), ImageCost(m, got, ChannelRatio(ratio, channel), q));
      0 <= final <= held || (held <= 0 && final <= 0)
  {
    var price := UnitPrice(m, q);
    if price < 0 {
      assert price * got < 0 && price * asked < 0;
      NegativeCostsNothing(price * got, ChannelRatio(ratio, channel));
      NegativeCostsNothing(price * asked, ratio);
    } else {
      assert price * got <= price * asked;
      CheaperRoundsLower(price * got, price * asked, ratio, channel);
    }
  }

  /** A channel that charges no more than the user's own ratio, and delivers no
      more than was asked for, costs no more than the hold: no overrun. */
  lemma ChannelNeverOverruns(m: Model, asked: nat, got: nat, ratio: real, channel: real, q: Quality, r: H.Req)
    requires 1 <= got <= asked && channel <= 1.0
    requires r.path == H.ChannelImage && r.cost == ImageCost(m, asked, ratio, q)
    ensures H.Overrun(r, ImageCost(m, got, ChannelRatio(ratio, channel), q)) == 0
  {
    FewerImagesCostLess(m, asked, got, ratio, channel, q);
  }

  /** The bound on the channel's ratio is sharp: above one, some model overruns. */
  lemma DearChannelOverruns(channel: real) returns (m: Model, r: H.Req)
    requires channel > 1.0
    ensures r.path == H.ChannelImage && r.cost == ImageCost(m, 1, 1.0, Q1K)
    ensures H.Overrun(r, ImageCost(m, 1, ChannelRatio(1.0, channel), Q1K)) > 0
  {
    var margin := channel - 1.0;
    var price := (1.0 / margin).Floor + 1;
    TimesIsMonotone(price as real, 1.0 / margin, margin);
    assert price as real * channel == price as real + price as real * margin;
    m := Model(price, 0, 0, 0, 0);
    r := H.Req(H.ChannelImage, 0, 0, price, H.Waiting);
    assert UnitPrice(m, Q1K) * 1 == price && ChannelRatio(1.0, channel) == channel;
    FloorIsMonotone(price as real + 1.5, price as real * channel + 0.5);
  }

  lemma StrandedByAmount(amount: int, ratio: real, effective: real, r: H.Req)
    requires r.path == H.ChannelImage && r.cost == RoundedTimes(amount, ratio)
    requires r.phase == H.Delivered(RoundedTimes(amount, effective))
    ensures H.Strands(r) <==> amount as real * Applied(effective) < 0.5 <= amount as real * Applied(ratio)
  {
    RoundsToNothing(amount, ratio);
    RoundsToNothing(amount, effective);
    if amount < 0 {
      NegativeCostsNothing(amount, effective);
    } else {
      RoundedIsMonotone(0, amount, Applied(ratio), Applied(ratio));
    }
  }

  /** A channel delivery strands its hold exactly when the price rounds up to
      something for the user and down to nothing with the channel's ratio. */
  lemma StrandedExactly(m: Model, n: nat, ratio: real, channel: real, q: Quality, r: H.Req)
    requires n >= 1 && r.path == H.ChannelImage && r.cost == ImageCost(m, n, ratio, q)
    requires r.phase == H.Delivered(ImageCost(m, n, ChannelRatio(ratio, channel), q))
    ensures
      var price := UnitPrice(m, q) * n;
      H.Strands(r) <==>
        price as real * Applied(ChannelRatio(ratio, channel)) < 0.5 <= price as real * Applied(ratio)
  {
    StrandedByAmount(UnitPrice(m, q) * n, ratio, ChannelRatio(ratio, channel), r);
  }

  lemma PositivePrice(price: int, ratio: real)
    requires ratio > 0.0 && price as real * ratio >= 0.5
    ensures price > 0
  {
  }

  lemma RatioRises(ratio: real, factor: real)
    requires ratio > 0.0 && factor >= 1.0
    ensures ratio <= ratio * factor
  {
    TimesIsMonotone(factor, 1.0, ratio);
  }

  lemma RatioStaysDown(ratio: real, factor: real)
    requires factor > 0.0 && ratio <= 0.0
    ensures ratio * factor <= 0.0
  {
  }

  lemma SmallerProduct(price: int, x: real, y: real, low: real, high: real)
    requires x > 0.0 && y > 0.0 && low == price as real * x && high == price as real * y
    requires low < 0.5 <= high
    ensures x < y
  {
    PositivePrice(price, y);
    var p := price as real;
    assert low == x * p && high == y * p;
    if x >= y {
      TimesIsMonotone(x, y, p);
    }
  }

  lemma OnlyCheapChannelsLower(ratio: real, channel: real)
    requires Applied(ChannelRatio(ratio, channel)) < Applied(ratio)
    ensures ratio > 0.0 && 0.0 < channel < 1.0
  {
    var factor := Applied(channel);
    if ratio <= 0.0 {
      RatioStaysDown(ratio, factor);
    } else if factor >= 1.0 {
      RatioRises(ratio, factor);
    }
  }

  /** So nothing strands where a ratio is not positive, or the channel's is at
      least one. */
  lemma OnlyCheapChannelsStrand(price: int, ratio: real, channel: real, x: real, y: real)
    requires x == Applied(ChannelRatio(ratio, channel)) && y == Applied(ratio)
    requires price as real * x < 0.5 <= price as real * y
    ensures ratio > 0.0 && 0.0 < channel < 1.0
  {
    SmallerProduct(price, x, y, price as real * x, price as real * y);
    OnlyCheapChannelsLower(ratio, channel);
  }

  /** A local image request that is billed at the user's own ratio for no more
      images than it asked for pays no more than its hold, and keeps nothing
      frozen; for as many as it asked for it pays exactly the hold. */
  lemma LocalDeliveryHasNoOverrun(m: Model, asked: nat, got: nat, ratio: real, q: Quality, r: H.Req)
    requires 1 <= got <= asked
    requires r.path == H.LocalImage && r.cost == ImageCost(m, asked, ratio, q)
    ensures H.Overrun(r, ImageCost(m, got, ratio, q)) == 0
    ensures H.Residue(r, ImageCost(m, got, ratio, q)) == 0
    ensures got == asked ==> ImageCost(m, got, ratio, q) == r.cost
  {
    FewerImagesCostLess(m, asked, got, ratio, 1.0, q);
    assert ChannelRatio(ratio, 1.0) == ratio;
  }

  /** A chat request can overrun its hold only by completing more tokens than
      were estimated, or through a dear channel. */
  lemma ChatOverrunsOnlyBeyondEstimate(m: Model, prompt: nat, maxTokens: int, completed: nat, ratio: real,
                                       channel: real, r: H.Req)
    requires m.inputPer1M >= 0 && m.outputPer1M >= 0 && channel <= 1.0
    requires r.path == H.Chat || r.path == H.ChatChannel
    requires r.cost == EstimateChat(m, prompt, maxTokens, ratio)
    requires completed <= if maxTokens <= 0 then 2048 else maxTokens
    ensures H.Overrun(r, ChatCost(m, prompt, completed, ChannelRatio(ratio, channel))) == 0
  {
    var estimated := if maxTokens <= 0 then 2048 else maxTokens;
    FewerCostLess(prompt, prompt, m.inputPer1M);
    FewerCostLess(completed, estimated, m.outputPer1M);
    var input := Quotient(prompt * m.inputPer1M, 1_000_000);
    var spent, held := Quotient(completed * m.outputPer1M, 1_000_000), Quotient(estimated * m.outputPer1M, 1_000_000);
    CheaperRoundsLower(input + spent, input + held, ratio, channel);
    assert ChatCost(m, prompt, completed, ChannelRatio(ratio, channel)) ==
           RoundedTimes(input + spent, ChannelRatio(ratio, channel));
    assert EstimateChat(m, prompt, maxTokens, ratio) == RoundedTimes(input + held, ratio);
  }

  // ---- Back to the runs ----

  /** An image request whose hold and settlement were priced as above. */
  datatype Quote = Quote(model: Model, asked: nat, got: nat, ratio: real, channel: real, quality: Quality)

  ghost predicate PricedBy(r: H.Req, quote: Quote) {
    && r.cost == ImageCost(quote.model, quote.asked, quote.ratio, quote.quality)
    && 1 <= quote.got <= quote.asked && quote.channel <= 1.0
    && match r.path
       case ChannelImage =>
         r.phase.Delivered? ==>
           r.phase.actual == ImageCost(quote.model, quote.got, ChannelRatio(quote.ratio, quote.channel), quote.quality)
       case LocalImage =>
         r.phase.Delivered? ==> r.phase.actual == ImageCost(quote.model, quote.got, quote.ratio, quote.quality)
       case ChatAsImage => true
       case _ => false
  }

  lemma {:induction false} PricedRequestsDoNotOverrun(reqs: seq<H.Req>, quotes: seq<Quote>, u: nat)
    requires |quotes| == |reqs| && forall i :: 0 <= i < |reqs| ==> PricedBy(reqs[i], quotes[i])
    ensures H.OverrunSum(reqs, u) == 0
    decreases |reqs|
  {
    if reqs != [] {
      var n := |reqs| - 1;
      var (r, q) := (reqs[n], quotes[n]);
      PricedRequestsDoNotOverrun(reqs[..n], quotes[..n], u);
      assert PricedBy(r, q);
      if r.phase.Delivered? && r.path == H.ChannelImage {
        ChannelNeverOverruns(q.model, q.asked, q.got, q.ratio, q.channel, q.quality, r);
      } else if r.phase.Delivered? && r.path == H.LocalImage {
        LocalDeliveryHasNoOverrun(q.model, q.asked, q.got, q.ratio, q.quality, r);
      }
    }
  }

  /** In a run of image requests so priced no balance ever goes below zero. */
  lemma ImageRunsStaySolvent(s0: Store, events: seq<H.Step>, quotes: seq<Quote>)
    requires H.Solvent(s0)
    requires var reqs := H.Run(H.Start(s0), events).reqs;
      |quotes| == |reqs| && forall i :: 0 <= i < |reqs| ==> PricedBy(reqs[i], quotes[i])
    ensures H.Solvent(H.Run(H.Start(s0), events).store)
  {
    var s := H.Run(H.Start(s0), events);
    H.RunKeepsInv(s0, H.Start(s0), events);
    forall u | u in s.store.users
      ensures s.store.users[u].balance >= 0
    {
      PricedRequestsDoNotOverrun(s.reqs, quotes, u);
    }
  }
}
