/** The aspect ratio of an image size: a row of a short table, or the size
    divided by its greatest common divisor. */
module AspectRatio {
  import opened Decimal

  type Ratio = (int, int)

  const TABLE: seq<Ratio> :=
    [(1, 1), (5, 4), (9, 16), (16, 9), (4, 3), (3, 2), (4, 5), (3, 4), (2, 3), (21, 9)]

  /** The comparison as 64-bit integers make it. */
  predicate Matches(w: int, h: int, r: Ratio) {
    Wrap64(w * r.1) == Wrap64(h * r.0)
  }

  predicate Proportional(w: int, h: int, r: Ratio) {
    w * r.1 == h * r.0
  }

  function FirstMatch(w: int, h: int, from: nat): (k: nat)
    requires from <= |TABLE|
    ensures from <= k <= |TABLE|
    ensures k < |TABLE| ==> Matches(w, h, TABLE[k])
    ensures forall j :: from <= j < k ==> !Matches(w, h, TABLE[j])
    decreases |TABLE| - from
  {
    if from == |TABLE| || Matches(w, h, TABLE[from]) then from else FirstMatch(w, h, from + 1)
  }

  function Gcd(a: nat, b: nat): nat
    decreases b
  {
    if b == 0 then a else Gcd(b, a % b)
  }

  lemma TimesIsStrict(k: int, a: int, b: int)
    requires k > 0 && a < b
    ensures k * a < k * b
  {
  }

  lemma Cancel(k: int, a: int, b: int)
    requires k > 0 && k * a == k * b
    ensures a == b
  {
    if a < b {
      TimesIsStrict(k, a, b);
    } else if b < a {
      TimesIsStrict(k, b, a);
    }
  }

  lemma DivisionIsUnique(x: int, m: int, q: int, r: int)
    requires x == q * m + r && 0 <= r < m
    ensures x / m == q && x % m == r
  {
    assert x == m * (x / m) + x % m;
    if q + 1 <= x / m {
      TimesIsAtLeast(m, q + 1, x / m);
    } else if x / m + 1 <= q {
      TimesIsAtLeast(m, x / m + 1, q);
    }
  }

  lemma TimesIsAtLeast(k: int, a: int, b: int)
    requires k >= 0 && a <= b
    ensures k * a <= k * b
  {
  }

  /** Both sides of a division scale together. */
  lemma RemainderScales(k: nat, a: nat, b: nat)
    requires k > 0 && b > 0
    ensures k * b > 0 && (k * a) % (k * b) == k * (a % b)
  {
    var q, r := a / b, a % b;
    TimesIsStrict(k, 0, b);
    TimesIsStrict(k, r, b);
    TimesIsAtLeast(k, 0, r);
    Distributes(k, q, b, r);
    DivisionIsUnique(k * a, k * b, q, k * r);
  }

  lemma Distributes(k: int, q: int, b: int, r: int)
    ensures k * (q * b + r) == q * (k * b) + k * r
  {
  }

  lemma {:induction false} GcdScales(k: nat, a: nat, b: nat)
    requires k > 0
    ensures Gcd(k * a, k * b) == k * Gcd(a, b)
    decreases b
  {
    if b == 0 {
      assert k * b == 0;
    } else {
      RemainderScales(k, a, b);
      GcdScales(k, b, a % b);
    }
  }

  lemma SumIsDivisible(a: nat, b: nat, q: nat, r: nat, g: nat)
    requires g > 0 && a == q * b + r && b % g == 0 && r % g == 0
    ensures a % g == 0
  {
    var (x, y) := (b / g, r / g);
    assert b == x * g && r == y * g;
    assert a == (q * x + y) * g + 0;
    DivisionIsUnique(a, g, q * x + y, 0);
  }

  lemma {:induction false} GcdDivides(a: nat, b: nat)
    requires a > 0 || b > 0
    ensures Gcd(a, b) > 0 && a % Gcd(a, b) == 0 && b % Gcd(a, b) == 0
    decreases b
  {
    if b == 0 {
      DivisionIsUnique(a, a, 1, 0);
    } else {
      GcdDivides(b, a % b);
      SumIsDivisible(a, b, a / b, a % b, Gcd(b, a % b));
    }
  }

  /** The size over its greatest common divisor. */
  function Reduced(w: nat, h: nat): (r: Ratio)
    requires w > 0 && h > 0
  {
    GcdDivides(w, h);
    (w / Gcd(w, h), h / Gcd(w, h))
  }

  function RatioOf(w: nat, h: nat): Ratio
    requires w > 0 && h > 0
  {
    var k := FirstMatch(w, h, 0);
    if k < |TABLE| then TABLE[k] else Reduced(w, h)
  }

  // ---- The loops ----

  method GcdInt(a0: nat, b0: nat) returns (g: nat)
    ensures g == Gcd(a0, b0)
  {
    var a, b := a0, b0;
    while b != 0
      invariant Gcd(a, b) == Gcd(a0, b0)
      decreases b
    {
      a, b := b, a % b;
    }
    g := a;
  }

  method AspectRatioOfSize(w: nat, h: nat) returns (text: string)
    requires 0 < w <= MAX_INT && 0 < h <= MAX_INT
    ensures text == Text(RatioOf(w, h))
  {
    for k := 0 to |TABLE|
      invariant FirstMatch(w, h, 0) == FirstMatch(w, h, k)
    {
      if Wrap64(w * TABLE[k].1) == Wrap64(h * TABLE[k].0) {
        return Text(TABLE[k]);
      }
    }
    var divisor := GcdInt(w, h);
    GcdDivides(w, h);
    return Text((w / divisor, h / divisor));
  }

  function Text(r: Ratio): string {
    FormatInt(r.0) + ":" + FormatInt(r.1)
  }

  // ---- A canonical form ----

  lemma ReducedIsInLowestTerms(w: nat, h: nat)
    requires w > 0 && h > 0
    ensures var r := Reduced(w, h);
      r.0 > 0 && r.1 > 0 && Proportional(w, h, r) && Gcd(r.0, r.1) == 1
  {
    GcdDivides(w, h);
    var g := Gcd(w, h);
    var (x, y) := (w / g, h / g);
    assert w == g * x && h == g * y;
    assert x > 0 && y > 0;
    GcdScales(g, x, y);
    assert g * Gcd(x, y) == g;
    Cancel(g, Gcd(x, y), 1);
    assert w * y == g * x * y == h * x;
  }

  /** In lowest terms means what it says: no common divisor but one. */
  lemma LowestTermsHaveNoCommonDivisor(a: nat, b: nat, d: nat)
    requires Gcd(a, b) == 1 && d > 0 && a % d == 0 && b % d == 0
    ensures d == 1
  {
    var (x, y) := (a / d, b / d);
    assert a == d * x && b == d * y;
    GcdScales(d, x, y);
    FactorOfOne(d, Gcd(x, y));
  }

  lemma FactorOfOne(d: nat, g: nat)
    requires d * g == 1
    ensures d == 1
  {
    if g >= 1 {
      TimesIsAtLeast(d, 1, g);
    }
  }

  /** Reducing is canonical: proportional sizes reduce to the same pair. */
  lemma SameReduced(w1: nat, h1: nat, w2: nat, h2: nat)
    requires w1 > 0 && h1 > 0 && w2 > 0 && h2 > 0 && w1 * h2 == w2 * h1
    ensures Reduced(w1, h1) == Reduced(w2, h2)
  {
    GcdDivides(w1, h1);
    GcdDivides(w2, h2);
    var (g1, g2) := (Gcd(w1, h1), Gcd(w2, h2));
    GcdScales(h2, w1, h1);
    GcdScales(h1, w2, h2);
    assert h2 * w1 == h1 * w2 && h2 * h1 == h1 * h2;
    assert h2 * g1 == h1 * g2;
    GcdScales(w2, w1, h1);
    GcdScales(w1, w2, h2);
    assert w2 * w1 == w1 * w2 && w2 * h1 == w1 * h2;
    assert w2 * g1 == w1 * g2;
    SameQuotient(h1, g1, h2, g2);
    SameQuotient(w1, g1, w2, g2);
  }

  lemma SameQuotient(a: nat, g: nat, b: nat, d: nat)
    requires g > 0 && d > 0 && a % g == 0 && b % d == 0 && b * g == a * d
    ensures a / g == b / d
  {
    var (x, y) := (a / g, b / d);
    assert a == x * g && b == y * d;
    assert (d * g) * y == b * g == a * d == (d * g) * x;
    assert d * g > 0;
    Cancel(d * g, y, x);
  }

  // ---- Where the table does not overflow ----

  /** The table's comparisons of this size stay within 64 bits. */
  predicate Fits(w: nat, h: nat) {
    0 < w && 0 < h && 21 * w <= MAX_INT && 21 * h <= MAX_INT
  }

  lemma TableRows(k: nat)
    requires k < |TABLE|
    ensures 1 <= TABLE[k].0 <= 21 && 1 <= TABLE[k].1 <= 21
    ensures forall j :: 0 <= j < |TABLE| && TABLE[j].0 * TABLE[k].1 == TABLE[k].0 * TABLE[j].1 ==> j == k
    ensures Gcd(TABLE[k].0, TABLE[k].1) == if TABLE[k] == (21, 9) then 3 else 1
  {
    assert Gcd(21, 9) == Gcd(9, 3) == Gcd(3, 0) == 3;
    assert Gcd(9, 16) == Gcd(16, 9) == Gcd(9, 7) == Gcd(7, 2) == Gcd(2, 1) == Gcd(1, 0) == 1;
    assert Gcd(5, 4) == Gcd(4, 1) == 1 && Gcd(4, 5) == Gcd(5, 4);
    assert Gcd(4, 3) == Gcd(3, 1) == 1 && Gcd(3, 4) == Gcd(4, 3);
    assert Gcd(3, 2) == Gcd(2, 1) && Gcd(2, 3) == Gcd(3, 2);
  }

  lemma FittingMatchesAreProportional(w: nat, h: nat, k: nat)
    requires Fits(w, h) && k < |TABLE|
    ensures Matches(w, h, TABLE[k]) <==> Proportional(w, h, TABLE[k])
  {
    TableRows(k);
    var r := TABLE[k];
    assert 0 <= w * r.1 <= w * 21 && 0 <= h * r.0 <= h * 21;
    WrapKeeps(w * r.1);
    WrapKeeps(h * r.0);
  }

  predicate IsSize(w: nat, h: nat) {
    0 < w <= MAX_INT && 0 < h <= MAX_INT
  }

  /** For every size the ratio is in lowest terms but for 21:9; it is proportional
      to the size whenever the table's comparisons fit. */
  lemma RatioIsProportional(w: nat, h: nat)
    requires IsSize(w, h)
    ensures var r := RatioOf(w, h);
      && r.0 > 0 && r.1 > 0
      && (r == (21, 9) || Gcd(r.0, r.1) == 1)
      && (Fits(w, h) ==> Proportional(w, h, r))
  {
    var k := FirstMatch(w, h, 0);
    if k < |TABLE| {
      if Fits(w, h) {
        FittingMatchesAreProportional(w, h, k);
      }
      TableRows(k);
    } else {
      ReducedIsInLowestTerms(w, h);
    }
  }

  lemma ProportionIsTransitive(w1: nat, h1: nat, w2: nat, h2: nat, r: Ratio)
    requires h1 > 0 && h2 > 0 && w1 * h2 == w2 * h1 && Proportional(w1, h1, r)
    ensures Proportional(w2, h2, r)
  {
    assert h1 * (w2 * r.1) == w1 * h2 * r.1 == h2 * (w1 * r.1) == h1 * (h2 * r.0);
    Cancel(h1, w2 * r.1, h2 * r.0);
  }

  lemma ProportionalMatches(w: int, h: int, r: Ratio)
    requires Proportional(w, h, r)
    ensures Matches(w, h, r)
  {
  }

  /** Proportional sizes that get true ratios meet the table at the same row. */
  lemma SameMatch(w1: nat, h1: nat, w2: nat, h2: nat)
    requires IsSize(w1, h1) && IsSize(w2, h2) && w1 * h2 == w2 * h1
    requires Proportional(w1, h1, RatioOf(w1, h1)) && Proportional(w2, h2, RatioOf(w2, h2))
    ensures FirstMatch(w1, h1, 0) <= FirstMatch(w2, h2, 0)
  {
    var k := FirstMatch(w2, h2, 0);
    if k < |TABLE| {
      ProportionIsTransitive(w2, h2, w1, h1, TABLE[k]);
      ProportionalMatches(w1, h1, TABLE[k]);
    }
  }

  /** The printed ratio is a canonical form: of all 64-bit sizes two whose own
      ratios are true get the same text exactly when they are proportional. */
  lemma RatioIsCanonical(w1: nat, h1: nat, w2: nat, h2: nat)
    requires IsSize(w1, h1) && IsSize(w2, h2)
    requires Proportional(w1, h1, RatioOf(w1, h1)) && Proportional(w2, h2, RatioOf(w2, h2))
    ensures Text(RatioOf(w1, h1)) == Text(RatioOf(w2, h2)) <==> w1 * h2 == w2 * h1
  {
    var (r, t) := (RatioOf(w1, h1), RatioOf(w2, h2));
    RatioIsProportional(w1, h1);
    RatioIsProportional(w2, h2);
    if w1 * h2 == w2 * h1 {
      SameMatch(w1, h1, w2, h2);
      SameMatch(w2, h2, w1, h1);
      SameReduced(w1, h1, w2, h2);
    }
    if Text(r) == Text(t) {
      TextIsInjective(r, t);
      SameRatioIsProportional(w1, h1, w2, h2, r);
    }
  }

  lemma SameRatioIsProportional(w1: nat, h1: nat, w2: nat, h2: nat, r: Ratio)
    requires r.1 > 0 && Proportional(w1, h1, r) && Proportional(w2, h2, r)
    ensures w1 * h2 == w2 * h1
  {
    assert r.1 * (w1 * h2) == (w1 * r.1) * h2 == (h1 * r.0) * h2;
    assert r.1 * (w2 * h1) == (w2 * r.1) * h1 == (h2 * r.0) * h1;
    assert (h1 * r.0) * h2 == (h2 * r.0) * h1;
    Cancel(r.1, w1 * h2, w2 * h1);
  }

  lemma TextIsInjective(r: Ratio, t: Ratio)
    requires r.0 > 0 && r.1 > 0 && t.0 > 0 && t.1 > 0 && Text(r) == Text(t)
    ensures r == t
  {
    var (a, b) := (Print(r.0), Print(t.0));
    PrintThenValue(r.0);
    PrintThenValue(t.0);
    assert Text(r)[|a|] == ':' && Text(t)[|b|] == ':';
    assert |a| < |b| ==> IsDigit(Text(t)[|a|]);
    assert |b| < |a| ==> IsDigit(Text(r)[|b|]);
    assert a == Text(r)[..|a|] && b == Text(t)[..|a|];
    assert Print(r.1) == Text(r)[|a| + 1..] == Text(t)[|a| + 1..] == Print(t.1);
    PrintInjective(r.0, t.0);
    PrintInjective(r.1, t.1);
  }

  /** Beyond that the comparison wraps around: this size is not 5:4, and is told
      the same as one that is. */
  lemma WrappedComparisonLies()
    ensures var (w, h) := (0x4000_0000_0000_0005, 4);
      && IsSize(w, h) && RatioOf(w, h) == (5, 4) && !Proportional(w, h, (5, 4))
      && Text(RatioOf(w, h)) == Text(RatioOf(5, 4)) && w * 4 != 5 * h
  {
    var (w, h) := (0x4000_0000_0000_0005, 4);
    assert !Matches(w, h, TABLE[0]) && Matches(w, h, TABLE[1]);
    assert FirstMatch(w, h, 0) == FirstMatch(w, h, 1) == 1;
    assert !Matches(5, 4, TABLE[0]) && Matches(5, 4, TABLE[1]);
    assert FirstMatch(5, 4, 0) == FirstMatch(5, 4, 1) == 1;
  }

  // ---- Exactly when ----

  /** By how much the compared products differ at a row of the table. */
  function Gap(w: nat, h: nat, k: nat): int
    requires k < |TABLE|
  {
    w * TABLE[k].1 - h * TABLE[k].0
  }

  /** The first row whose products differ by a multiple of 2^64. */
  predicate Accepts(w: nat, h: nat, k: nat)
    requires k < |TABLE|
  {
    Gap(w, h, k) % TWO_64 == 0 && forall j :: 0 <= j < k ==> Gap(w, h, j) % TWO_64 != 0
  }

  lemma AcceptsFirstMatch(w: nat, h: nat, k: nat)
    requires k < |TABLE|
    ensures Accepts(w, h, k) <==> k == FirstMatch(w, h, 0)
  {
    forall j | 0 <= j < |TABLE|
      ensures Matches(w, h, TABLE[j]) <==> Gap(w, h, j) % TWO_64 == 0
    {
      WrapsAgree(w * TABLE[j].1, h * TABLE[j].0);
    }
  }

  /** For every 64-bit size: its ratio is true exactly when the products compared
      at the row that is accepted, if one is, do not differ by a nonzero multiple
      of 2^64. */
  lemma ProportionalExactly(w: nat, h: nat)
    requires IsSize(w, h)
    ensures Proportional(w, h, RatioOf(w, h)) <==>
      forall k :: 0 <= k < |TABLE| && Accepts(w, h, k) ==> Gap(w, h, k) == 0
  {
    var m := FirstMatch(w, h, 0);
    forall k | 0 <= k < |TABLE|
      ensures Accepts(w, h, k) <==> k == m
    {
      AcceptsFirstMatch(w, h, k);
    }
    if m < |TABLE| {
      assert Accepts(w, h, m);
    } else {
      ReducedIsInLowestTerms(w, h);
    }
  }

  predicate SharesTextRightly(w1: nat, h1: nat, w2: nat, h2: nat)
    requires IsSize(w1, h1) && IsSize(w2, h2)
  {
    Text(RatioOf(w1, h1)) == Text(RatioOf(w2, h2)) <==> w1 * h2 == w2 * h1
  }

  lemma RowIsItsOwnRatio(k: nat)
    requires k < |TABLE|
    ensures TABLE[k].0 > 0 && TABLE[k].1 > 0 && RatioOf(TABLE[k].0, TABLE[k].1) == TABLE[k]
  {
    TableRows(k);
    var r := TABLE[k];
    ProportionalMatches(r.0, r.1, r);
    var m := FirstMatch(r.0, r.1, 0);
    FittingMatchesAreProportional(r.0, r.1, m);
  }

  /** A size with a false ratio shares its text with a size it has not. */
  lemma FalseRatioMisleads(w: nat, h: nat) returns (w2: nat, h2: nat)
    requires IsSize(w, h) && !Proportional(w, h, RatioOf(w, h))
    ensures IsSize(w2, h2) && Proportional(w2, h2, RatioOf(w2, h2)) && !SharesTextRightly(w, h, w2, h2)
  {
    var k := FirstMatch(w, h, 0);
    if k == |TABLE| {
      ReducedIsInLowestTerms(w, h);
      assert false;
    }
    RowIsItsOwnRatio(k);
    TableRows(k);
    w2, h2 := TABLE[k].0, TABLE[k].1;
  }

  /** For every 64-bit size: it shares its text with exactly the proportional
      ones, among all sizes whose own ratios are true, if and only if its own is. */
  lemma CanonicalExactly(w: nat, h: nat)
    requires IsSize(w, h)
    ensures Proportional(w, h, RatioOf(w, h)) <==>
      forall w2: nat, h2: nat :: IsSize(w2, h2) && Proportional(w2, h2, RatioOf(w2, h2)) ==>
        SharesTextRightly(w, h, w2, h2)
  {
    if Proportional(w, h, RatioOf(w, h)) {
      forall w2: nat, h2: nat | IsSize(w2, h2) && Proportional(w2, h2, RatioOf(w2, h2))
        ensures SharesTextRightly(w, h, w2, h2)
      {
        RatioIsCanonical(w, h, w2, h2);
      }
    } else {
      var w2, h2 := FalseRatioMisleads(w, h);
      assert !SharesTextRightly(w, h, w2, h2);
    }
  }
}
