/**
 * Kelly sizing over exact reals, with rounding to six places kept where the
 * program rounds.
 */
module Kelly {
  import opened Reals
  import opened Sequences

  // ---- round(x, 6): to the nearest multiple of 1e-6, ties to the even one ----

  const SCALE := 1000000.0

  /** The nearest integer, ties to the even one. */
  function Nearest(z: real): int {
    var n, above := z.Floor, z - z.Floor as real;
    if above < 0.5 || (above == 0.5 && n % 2 == 0) then n else n + 1
  }

  function Round6(x: real): real { Nearest(x * SCALE) as real / SCALE }

  lemma RoundError(x: real)
    ensures -0.0000005 <= Round6(x) - x <= 0.0000005
  {
    var z := x * SCALE;
    assert -0.5 <= Nearest(z) as real - z <= 0.5;
  }

  lemma RoundFixes(n: int)
    ensures Round6(n as real / SCALE) == n as real / SCALE
  {
    assert n as real / SCALE * SCALE == n as real;
  }

  /** Half way between two integers the even one is taken. */
  lemma TiesToEven(n: int)
    ensures Nearest(n as real + 0.5) == (if n % 2 == 0 then n else n + 1)
    ensures Nearest(n as real + 0.5) % 2 == 0
  {
    assert (n as real + 0.5).Floor == n;
  }

  /** Rounding what is already rounded changes nothing. */
  lemma RoundTwice(x: real)
    ensures Round6(Round6(x)) == Round6(x)
  {
    RoundFixes(Nearest(x * SCALE));
  }

  lemma NearestMonotone(x: real, y: real)
    requires x <= y
    ensures Nearest(x) <= Nearest(y)
  {
    if x.Floor < y.Floor {
      assert Nearest(x) <= x.Floor + 1;
    }
  }

  lemma RoundMonotone(x: real, y: real)
    requires x <= y
    ensures Round6(x) <= Round6(y)
  {
    NearestMonotone(x * SCALE, y * SCALE);
  }

  // ---- the estimate ----

  const KELLY_FRACTION := 0.25

  datatype Estimate = Estimate(netOddsB: real, expectedValue: real, kellyFull: real, kellyQuarter: real)

  function NetOdds(pMarket: real): real
    requires 0.0 < pMarket < 1.0
  {
    (1.0 - pMarket) / pMarket
  }

  function Edge(p: real, b: real): real { p * b - (1.0 - p) }

  /** The unrounded Kelly stake, never negative. */
  function FullKelly(p: real, b: real): real
    requires b > 0.0
  {
    var raw := (b * p - (1.0 - p)) / b;
    if raw > 0.0 then raw else 0.0
  }

  lemma NetOddsPositive(pMarket: real)
    requires 0.0 < pMarket < 1.0
    ensures NetOdds(pMarket) > 0.0
  {
  }

  /** The odds are what one unit of price wins beyond itself. */
  lemma OddsOfPrice(pMarket: real)
    requires 0.0 < pMarket < 1.0
    ensures NetOdds(pMarket) > 0.0 && NetOdds(pMarket) * pMarket == 1.0 - pMarket
  {
    Quotient(1.0 - pMarket, pMarket);
  }

  /** The edge is the probability's excess over the price, in units of the price. */
  lemma EdgeInPrices(p: real, pMarket: real)
    requires 0.0 < pMarket < 1.0
    ensures Edge(p, NetOdds(pMarket)) * pMarket == p - pMarket
    ensures Edge(p, NetOdds(pMarket)) > 0.0 <==> p > pMarket
    ensures Edge(p, NetOdds(pMarket)) == (p - pMarket) / pMarket
  {
    OddsOfPrice(pMarket);
    EdgeTimesPrice(p, NetOdds(pMarket), pMarket);
    Quotient(p - pMarket, pMarket);
    CancelFactor(Edge(p, NetOdds(pMarket)), (p - pMarket) / pMarket, pMarket);
    QuotientSign(p - pMarket, pMarket);
  }

  lemma EdgeTimesPrice(p: real, b: real, price: real)
    requires b * price == 1.0 - price
    ensures Edge(p, b) * price == p - price
  {
    assert (p * b) * price == p * (b * price);
  }

  /** What the probability exceeds the price by, if it does, is the stake's share of what the price leaves open. */
  lemma StakeInPrices(p: real, pMarket: real)
    requires 0.0 < pMarket < 1.0 && NetOdds(pMarket) > 0.0
    ensures FullKelly(p, NetOdds(pMarket)) * (1.0 - pMarket) == if p > pMarket then p - pMarket else 0.0
    ensures FullKelly(p, NetOdds(pMarket)) == (if p > pMarket then p - pMarket else 0.0) / (1.0 - pMarket)
  {
    var b, open, excess := NetOdds(pMarket), 1.0 - pMarket, if p > pMarket then p - pMarket else 0.0;
    OddsOfPrice(pMarket);
    EdgeInPrices(p, pMarket);
    StakeTimesOdds(p, b, pMarket);
    Quotient(excess, open);
    CancelFactor(FullKelly(p, b), excess / open, open);
  }

  lemma StakeTimesOdds(p: real, b: real, price: real)
    requires b > 0.0 && b * price == 1.0 - price && Edge(p, b) * price == p - price
    requires Edge(p, b) > 0.0 <==> p > price
    ensures FullKelly(p, b) * (1.0 - price) == if p > price then p - price else 0.0
  {
    assert b * p - (1.0 - p) == Edge(p, b);
    Quotient(Edge(p, b), b);
    QuotientSign(Edge(p, b), b);
    if p > price {
      Associate(FullKelly(p, b), b, price);
    }
  }

  /** Equal to within half a unit of the sixth place. */
  predicate Near(x: real, y: real) { -0.0000005 <= x - y <= 0.0000005 }

  /** A figure with at most six decimal places. */
  ghost predicate SixPlaces(x: real) { exists n: int :: x == Millionths(n) }

  function Millionths(n: int): real { n as real / 1000000.0 }

  lemma RoundedFigure(x: real)
    ensures Near(Round6(x), x) && SixPlaces(Round6(x))
  {
    RoundError(x);
    assert Round6(x) == Millionths(Nearest(x * SCALE));
  }

  /** A stake never exceeds the probability of winning, and is zero without an edge. */
  lemma StakeWithinProbability(p: real, b: real)
    requires 0.0 <= p <= 1.0 && b > 0.0
    ensures 0.0 <= FullKelly(p, b) <= p
    ensures Edge(p, b) <= 0.0 ==> FullKelly(p, b) == 0.0
  {
    var raw := (b * p - (1.0 - p)) / b;
    Quotient(b * p - (1.0 - p), b);
    if raw > p {
      PositiveProduct(raw - p, b, (raw - p) * b);
    }
    if raw > 0.0 {
      PositiveProduct(raw, b, raw * b);
    }
  }

  /**
   * Overwrites the four derived fields.  No stake exceeds 99%, the quarter stake is never above the
   * full one, and when the price is not below the probability nothing is staked and no positive value
   * is reported.
   */
  method ComputeKellyAndEv(p: real, pMarket: real, supplied: Estimate) returns (e: Estimate)
    requires 0.01 <= p <= 0.99 && 0.0 < pMarket < 1.0
    ensures NetOdds(pMarket) > 0.0 && e == EstimateOf(p, pMarket)
    ensures 0.0 <= e.kellyQuarter <= e.kellyFull <= 0.99
    ensures p <= pMarket ==> e.kellyFull == 0.0 && e.kellyQuarter == 0.0 && e.expectedValue <= 0.0
    ensures Near(e.netOddsB, (1.0 - pMarket) / pMarket) && Near(e.expectedValue, (p - pMarket) / pMarket)
    ensures var stake := (if p > pMarket then p - pMarket else 0.0) / (1.0 - pMarket);
            Near(e.kellyFull, stake) && Near(e.kellyQuarter, 0.25 * stake)
    ensures SixPlaces(e.netOddsB) && SixPlaces(e.expectedValue) && SixPlaces(e.kellyFull) && SixPlaces(e.kellyQuarter)
  {
    NetOddsPositive(pMarket);
    var b := NetOdds(pMarket);
    var ev := Edge(p, b);
    var fStar := FullKelly(p, b);
    var fQuarter := KELLY_FRACTION * fStar;
    e := supplied.(netOddsB := Round6(b), expectedValue := Round6(ev));
    e := e.(kellyFull := Round6(fStar), kellyQuarter := Round6(fQuarter));
    StakeWithinProbability(p, b);
    RoundedStakes(p, fStar, ev);
    EdgeInPrices(p, pMarket);
    StakeInPrices(p, pMarket);
    RoundedFigures(b, ev, fStar);
  }

  /** The derived fields: odds, edge, Kelly stake and quarter stake, each rounded. */
  function EstimateOf(p: real, pMarket: real): Estimate
    requires 0.0 < pMarket < 1.0 && NetOdds(pMarket) > 0.0
  {
    var b := NetOdds(pMarket);
    Estimate(Round6(b), Round6(Edge(p, b)), Round6(FullKelly(p, b)), Round6(KELLY_FRACTION * FullKelly(p, b)))
  }

  lemma RoundedStakes(p: real, stake: real, edge: real)
    requires 0.0 <= stake <= p <= 0.99
    ensures 0.0 <= Round6(KELLY_FRACTION * stake) <= Round6(stake) <= 0.99
    ensures stake == 0.0 ==> Round6(stake) == 0.0
    ensures edge <= 0.0 ==> Round6(edge) <= 0.0
  {
    RoundFixes(0);
    RoundFixes(990000);
    RoundMonotone(0.0, KELLY_FRACTION * stake);
    RoundMonotone(KELLY_FRACTION * stake, stake);
    RoundMonotone(stake, 0.99);
    if edge <= 0.0 {
      RoundMonotone(edge, 0.0);
    }
  }

  lemma RoundedFigures(b: real, ev: real, stake: real)
    ensures Near(Round6(b), b) && Near(Round6(ev), ev)
    ensures Near(Round6(stake), stake) && Near(Round6(KELLY_FRACTION * stake), 0.25 * stake)
    ensures SixPlaces(Round6(b)) && SixPlaces(Round6(ev))
    ensures SixPlaces(Round6(stake)) && SixPlaces(Round6(KELLY_FRACTION * stake))
  {
    RoundedFigure(b);
    RoundedFigure(ev);
    RoundedFigure(stake);
    RoundedFigure(KELLY_FRACTION * stake);
  }

  // ---- weighted AM-GM ----

  function Pow(x: real, n: nat): real { if n == 0 then 1.0 else x * Pow(x, n - 1) }

  lemma {:induction false} PowNonNegative(x: real, n: nat)
    requires x >= 0.0
    ensures Pow(x, n) >= 0.0
    ensures x > 0.0 ==> Pow(x, n) > 0.0
  {
    if n > 0 {
      PowNonNegative(x, n - 1);
    }
  }

  lemma {:induction false} PowMonotone(x: real, y: real, n: nat)
    requires 0.0 <= x <= y
    ensures Pow(x, n) <= Pow(y, n)
  {
    if n > 0 {
      PowMonotone(x, y, n - 1);
      PowNonNegative(x, n - 1);
      MulMonotone(x, y, Pow(x, n - 1), Pow(y, n - 1));
    }
  }

  lemma MulMonotone(a: real, b: real, c: real, d: real)
    requires 0.0 <= a <= b && 0.0 <= c <= d
    ensures 0.0 <= a * c <= b * c <= b * d
  {
  }

  /** Hides a division: what matters of a/b is that b times it is a. */
  lemma Divide(a: real, b: real) returns (c: real)
    requires b > 0.0
    ensures c * b == a
    ensures a >= 0.0 ==> c >= 0.0
  {
    c := a / b;
  }

  lemma NonNegativeProduct(a: real, b: real)
    requires a >= 0.0 && b >= 0.0
    ensures a * b >= 0.0
  {
  }

  lemma SelfQuotient(c: real)
    requires c > 0.0
    ensures c / c == 1.0
  {
    Quotient(c, c);
    CancelFactor(c / c, 1.0, c);
  }

  lemma PositiveFactor(a: real, n: real, product: real)
    requires n > 0.0 && a * n == product > 0.0
    ensures a > 0.0
  {
  }

  lemma FactorSign(a: real, n: real)
    requires n > 0.0
    ensures a * n >= 0.0 ==> a >= 0.0
    ensures a * n > 0.0 ==> a > 0.0
    ensures a * n <= n ==> a <= 1.0
  {
    if a > 1.0 {
      assert (a - 1.0) * n > 0.0;
    }
  }

  lemma {:induction false} PowProduct(x: real, y: real, z: real, n: nat)
    requires x * y == z
    ensures Pow(z, n) == Pow(x, n) * Pow(y, n)
  {
    if n > 0 {
      PowProduct(x, y, z, n - 1);
      Rearrange(z, Pow(z, n - 1), x, y, Pow(x, n - 1), Pow(y, n - 1));
    }
  }

  lemma Rearrange(ab: real, cd: real, a: real, b: real, c: real, d: real)
    requires ab == a * b && cd == c * d
    ensures ab * cd == (a * c) * (b * d)
  {
  }

  lemma Associate(a: real, b: real, c: real)
    ensures a * (b * c) == (a * b) * c
  {
  }

  lemma {:induction false} PowOne(n: nat)
    ensures Pow(1.0, n) == 1.0
  {
    if n > 0 {
      PowOne(n - 1);
    }
  }

  lemma BernoulliStep(t: real, m: real, power: real)
    requires t >= 0.0 && m >= 0.0 && power >= 1.0 + m * (t - 1.0)
    ensures t * power >= 1.0 + (m + 1.0) * (t - 1.0)
  {
    var s := t - 1.0;
    ScaleLeq(1.0 + m * s, power, t);
    assert (1.0 + m * s) * t == 1.0 + (m + 1.0) * s + m * (s * s);
    MulMonotone(0.0, m, 0.0, s * s);
  }

  lemma {:induction false} Bernoulli(t: real, n: nat)
    requires t >= 0.0
    ensures Pow(t, n) >= 1.0 + n as real * (t - 1.0)
  {
    if n > 0 {
      Bernoulli(t, n - 1);
      BernoulliStep(t, (n - 1) as real, Pow(t, n - 1));
    }
  }

  /** One step of AM-GM: the new mean, once more multiplied, covers the old mean's power times the new factor. */
  lemma MeanStep(a: real, next: real, y: real, n: nat)
    requires a > 0.0 && y >= 0.0 && next >= 0.0
    requires next * (n + 1) as real == n as real * a + y
    ensures Pow(next, n + 1) >= Pow(a, n) * y
  {
    var t := Divide(next, a);
    var lower := LowerBound(t, a, next, y, n);
    PowNonNegative(a, n);
    PowProduct(t, a, next, n + 1);
    Cover(Pow(t, n + 1), lower, a, y, Pow(a, n), Pow(a, n + 1));
  }

  /** Bernoulli's bound on a power of t = next / a; times a it is exactly y. */
  lemma LowerBound(t: real, a: real, next: real, y: real, n: nat) returns (lower: real)
    requires t >= 0.0 && t * a == next && next * (n + 1) as real == n as real * a + y
    ensures Pow(t, n + 1) >= lower && lower * a == y
  {
    var size := (n + 1) as real;
    Bernoulli(t, n + 1);
    lower := 1.0 + size * (t - 1.0);
    assert lower * a == a + size * (t * a) - size * a;
  }

  lemma Cover(power: real, lower: real, a: real, y: real, rest: real, whole: real)
    requires power >= lower && lower * a == y && a >= 0.0 && rest >= 0.0 && whole == a * rest
    ensures power * whole >= rest * y
  {
    ScaleLeq(lower, power, a);
    ScaleLeq(y, power * a, rest);
    Associate(power, a, rest);
  }

  /** a is the weighted mean of k x's and m y's. */
  predicate IsMean(a: real, x: real, y: real, k: nat, m: nat) {
    k + m > 0 && a * (k + m) as real == k as real * x + m as real * y
  }

  /** When a is the weighted mean of k x's and m y's, x^k * y^m is at most a^(k+m). */
  lemma {:induction false} WeightedMean(x: real, y: real, k: nat, m: nat, a: real)
    requires x >= 0.0 && y >= 0.0 && a >= 0.0 && IsMean(a, x, y, k, m)
    ensures Pow(x, k) * Pow(y, m) <= Pow(a, k + m)
  {
    if m == 0 {
      MeanOfFirst(x, y, k, a);
    } else if k + m == 1 {
      MeanOfOne(x, y, a);
    } else {
      var before := MeanBefore(x, y, k, m, a);
      WeightedMean(x, y, k, m - 1, before);
      MeanStepFor(x, y, k, m, a, before);
    }
  }

  lemma MeanStepFor(x: real, y: real, k: nat, m: nat, a: real, before: real)
    requires y >= 0.0 && a >= 0.0 && before >= 0.0 && m > 0 && k + m > 1
    requires Pow(x, k) * Pow(y, m - 1) <= Pow(before, k + (m - 1))
    requires a * (k + m - 1 + 1) as real == (k + m - 1) as real * before + y
    ensures Pow(x, k) * Pow(y, m) <= Pow(a, k + m)
  {
    assert Pow(y, m) == y * Pow(y, m - 1);
    MeanWithLast(Pow(x, k), Pow(y, m - 1), Pow(y, m), y, k + m - 1, a, before);
  }

  lemma MeanOfFirst(x: real, y: real, k: nat, a: real)
    requires IsMean(a, x, y, k, 0)
    ensures Pow(x, k) * Pow(y, 0) <= Pow(a, k + 0)
  {
    CancelFactor(a, x, k as real);
  }

  lemma MeanOfOne(x: real, y: real, a: real)
    requires IsMean(a, x, y, 0, 1)
    ensures Pow(x, 0) * Pow(y, 1) <= Pow(a, 0 + 1)
  {
  }

  lemma MeanWithLast(power: real, rest: real, last: real, y: real, n: nat, a: real, before: real)
    requires y >= 0.0 && a >= 0.0 && before >= 0.0 && n > 0 && power * rest <= Pow(before, n) && last == y * rest
    requires a * (n + 1) as real == n as real * before + y
    ensures power * last <= Pow(a, n + 1)
  {
    MeanGrows(before, a, y, n, power * rest);
    Associate(power, rest, y);
  }

  /** The mean without the last y: it is covered by k x's and m-1 y's, and gives a with one more y. */
  lemma MeanBefore(x: real, y: real, k: nat, m: nat, a: real) returns (before: real)
    requires x >= 0.0 && y >= 0.0 && m > 0 && k + m > 1 && IsMean(a, x, y, k, m)
    ensures before >= 0.0 && IsMean(before, x, y, k, m - 1)
    ensures a * (k + m - 1 + 1) as real == (k + m - 1) as real * before + y
  {
    MulMonotone(0.0, k as real, 0.0, x);
    MulMonotone(0.0, (m - 1) as real, 0.0, y);
    before := Divide(k as real * x + (m - 1) as real * y, (k + m - 1) as real);
    assert m as real * y == (m - 1) as real * y + y;
  }

  lemma MeanGrows(before: real, after: real, y: real, n: nat, product: real)
    requires before >= 0.0 && after >= 0.0 && y >= 0.0 && n > 0 && product <= Pow(before, n)
    requires after * (n + 1) as real == n as real * before + y
    ensures product * y <= Pow(after, n + 1)
  {
    ScaleLeq(product, Pow(before, n), y);
    PowNonNegative(after, n + 1);
    if before > 0.0 {
      MeanStep(before, after, y, n);
    } else {
      assert Pow(before, n) == before * Pow(before, n - 1) == 0.0;
    }
  }

  lemma CancelFactor(a: real, b: real, c: real)
    requires c > 0.0 && a * c == b * c
    ensures a == b
  {
    assert (a - b) * c == 0.0;
  }

  // ---- optimality ----

  /** What one unit becomes after k factors up and m factors down. */
  function Growth(up: real, down: real, k: nat, m: nat): real {
    if k == 0 then Pow(down, m) else up * Growth(up, down, k - 1, m)
  }

  /** Wealth after k wins at odds b and m losses, staking the fraction f each time. */
  function Wealth(b: real, f: real, k: nat, m: nat): real { Growth(1.0 + b * f, 1.0 - f, k, m) }

  lemma {:induction false} GrowthIsProduct(up: real, down: real, k: nat, m: nat)
    ensures Growth(up, down, k, m) == Pow(up, k) * Pow(down, m)
  {
    if k > 0 {
      GrowthIsProduct(up, down, k - 1, m);
      Associate(up, Pow(up, k - 1), Pow(down, m));
    }
  }

  lemma {:induction false} GrowthNonNegative(up: real, down: real, k: nat, m: nat)
    requires up >= 0.0 && down >= 0.0
    ensures Growth(up, down, k, m) >= 0.0
  {
    PowNonNegative(down, m);
    if k > 0 {
      GrowthNonNegative(up, down, k - 1, m);
      MulMonotone(0.0, up, 0.0, Growth(up, down, k - 1, m));
    }
  }

  /** Growth by products is the product of the growths. */
  lemma {:induction false} GrowthRatio(x: real, u: real, xu: real, y: real, w: real, yw: real, k: nat, m: nat)
    requires x * u == xu && y * w == yw
    ensures Growth(xu, yw, k, m) == Growth(x, y, k, m) * Growth(u, w, k, m)
  {
    if k == 0 {
      PowProduct(y, w, yw, m);
    } else {
      GrowthRatio(x, u, xu, y, w, yw, k - 1, m);
      Rearrange(xu, Growth(xu, yw, k - 1, m), x, u, Growth(x, y, k - 1, m), Growth(u, w, k - 1, m));
    }
  }

  /** At the Kelly stake the per-bet growth ratios x and y average to at most one. */
  lemma GrowthRatios(b: real, p: real, f: real, x: real, y: real)
    requires b > 0.0 && 0.0 <= p < 1.0 && 0.0 <= f < 1.0
    requires var g := FullKelly(p, b); x * (1.0 + b * g) == 1.0 + b * f && y * (1.0 - g) == 1.0 - f
    ensures p * x + (1.0 - p) * y <= 1.0
  {
    var g := FullKelly(p, b);
    if b * p - (1.0 - p) > 0.0 {
      Quotient(b * p - (1.0 - p), b);
      InteriorStake(b, p, g);
      RatioSum(b, p, g, f, x, y);
    } else {
      assert b * g == 0.0;
      ClampedStake(b, p, f);
    }
  }

  lemma StakeInRange(b: real, p: real)
    requires b > 0.0 && 0.0 <= p < 1.0
    ensures 0.0 <= FullKelly(p, b) < 1.0 && 1.0 + b * FullKelly(p, b) > 0.0
  {
    if b * p - (1.0 - p) > 0.0 {
      Quotient(b * p - (1.0 - p), b);
      InteriorStake(b, p, FullKelly(p, b));
    } else {
      assert b * 0.0 == 0.0;
    }
  }

  lemma InteriorStake(b: real, p: real, g: real)
    requires b > 0.0 && p < 1.0 && g * b == b * p - (1.0 - p) > 0.0
    ensures 0.0 <= g < 1.0 && 1.0 + b * g == p * (1.0 + b) > 0.0 && (1.0 - g) * b == (1.0 - p) * (1.0 + b)
  {
    FactorSign(g, b);
    PositiveProduct(1.0 - p, b, (1.0 - p) * b);
    assert (1.0 - g) * b == (1.0 - p) + (1.0 - p) * b;
    PositiveFactor(1.0 - g, b, (1.0 - p) + (1.0 - p) * b);
    assert p * (1.0 + b) == p + b * p;
  }

  lemma RatioSum(b: real, p: real, g: real, f: real, u: real, w: real)
    requires b > 0.0 && 1.0 + b * g == p * (1.0 + b) && (1.0 - g) * b == (1.0 - p) * (1.0 + b)
    requires u * (1.0 + b * g) == 1.0 + b * f && w * (1.0 - g) == 1.0 - f
    ensures p * u + (1.0 - p) * w <= 1.0
  {
    var q, s := 1.0 - p, 1.0 + b;
    Associate(u, p, s);
    Associate(w, q, s);
    Associate(w, 1.0 - g, b);
    assert (p * u + q * w) * s == (u * p) * s + (w * q) * s;
    assert (p * u + q * w) * s == 1.0 + b * f + (1.0 - f) * b == s;
    FactorSign(p * u + q * w, s);
  }

  lemma ClampedStake(b: real, p: real, f: real)
    requires 0.0 <= f && b * p - (1.0 - p) <= 0.0
    ensures p * (1.0 + b * f) + (1.0 - p) * (1.0 - f) <= 1.0
  {
    assert p * (1.0 + b * f) + (1.0 - p) * (1.0 - f) == 1.0 - f * ((1.0 - p) - b * p);
    MulMonotone(0.0, f, 0.0, (1.0 - p) - b * p);
  }

  lemma MeanNonNegative(p: real, x: real, y: real)
    requires 0.0 <= p <= 1.0 && x >= 0.0 && y >= 0.0
    ensures p * x + (1.0 - p) * y >= 0.0
  {
    NonNegativeProduct(p, x);
    NonNegativeProduct(1.0 - p, y);
  }

  /** k wins out of k+m turn an average growth ratio of at most one into a product of powers at most one. */
  lemma RatioProduct(x: real, y: real, k: nat, m: nat, p: real)
    requires x >= 0.0 && y >= 0.0 && k + m > 0 && p * (k + m) as real == k as real
    requires p * x + (1.0 - p) * y <= 1.0
    ensures Growth(x, y, k, m) <= 1.0
  {
    var a, n := p * x + (1.0 - p) * y, (k + m) as real;
    assert (1.0 - p) * n == m as real;
    assert a * n == (p * n) * x + ((1.0 - p) * n) * y;
    FactorSign(p, n);
    FactorSign(1.0 - p, n);
    MeanNonNegative(p, x, y);
    WeightedMean(x, y, k, m, a);
    GrowthIsProduct(x, y, k, m);
    PowMonotone(a, 1.0, k + m);
    PowOne(k + m);
  }

  /**
   * With k wins in k+m bets as the win probability, no stake in [0, 1) ends with
   * more wealth than the stake the program computes.
   */
  lemma KellyOptimal(b: real, f: real, k: nat, m: nat)
    requires b > 0.0 && 0.0 <= f < 1.0 && k + m > 0
    ensures var p := k as real / (k + m) as real;
            Wealth(b, f, k, m) <= Wealth(b, FullKelly(p, b), k, m)
  {
    var p := k as real / (k + m) as real;
    if m == 0 {
      SelfQuotient(k as real);
      SelfQuotient(b);
      AllWins(b, f, k);
    } else {
      Quotient(k as real, (k + m) as real);
      assert (1.0 - p) * (k + m) as real == m as real;
      FactorSign(1.0 - p, (k + m) as real);
      StakeNotBeaten(b, f, k, m, p);
    }
  }

  lemma AllWins(b: real, f: real, k: nat)
    requires b > 0.0 && 0.0 <= f < 1.0
    ensures Wealth(b, f, k, 0) <= Wealth(b, 1.0, k, 0)
  {
    MulMonotone(0.0, b, 0.0, f);
    ScaleLeq(f, 1.0, b);
    PowMonotone(1.0 + b * f, 1.0 + b * 1.0, k);
    GrowthIsProduct(1.0 + b * f, 1.0 - f, k, 0);
    GrowthIsProduct(1.0 + b * 1.0, 1.0 - 1.0, k, 0);
  }

  lemma StakeNotBeaten(b: real, f: real, k: nat, m: nat, p: real)
    requires b > 0.0 && 0.0 <= f < 1.0 && k + m > 0 && 0.0 <= p < 1.0 && p * (k + m) as real == k as real
    ensures Wealth(b, f, k, m) <= Wealth(b, FullKelly(p, b), k, m)
  {
    var g := FullKelly(p, b);
    var x, y, u, w := Ratios(b, p, f);
    RatioProduct(x, y, k, m, p);
    NotBeaten(x, u, 1.0 + b * f, y, w, 1.0 - f, k, m);
    assert Wealth(b, g, k, m) == Growth(u, w, k, m);
  }

  /** The per-bet growth u and w of the Kelly stake, and the ratios of the stake f against it. */
  lemma Ratios(b: real, p: real, f: real) returns (x: real, y: real, u: real, w: real)
    requires b > 0.0 && 0.0 <= f < 1.0 && 0.0 <= p < 1.0
    ensures u == 1.0 + b * FullKelly(p, b) && w == 1.0 - FullKelly(p, b) && u > 0.0 && w > 0.0
    ensures x * u == 1.0 + b * f && y * w == 1.0 - f
    ensures x >= 0.0 && y >= 0.0 && p * x + (1.0 - p) * y <= 1.0
  {
    var g := FullKelly(p, b);
    StakeInRange(b, p);
    NonNegativeProduct(b, f);
    u, w := 1.0 + b * g, 1.0 - g;
    x := Divide(1.0 + b * f, u);
    y := Divide(1.0 - f, w);
    GrowthRatios(b, p, f, x, y);
  }

  lemma NotBeaten(x: real, u: real, xu: real, y: real, w: real, yw: real, k: nat, m: nat)
    requires x * u == xu && y * w == yw && u >= 0.0 && w >= 0.0 && Growth(x, y, k, m) <= 1.0
    ensures Growth(xu, yw, k, m) <= Growth(u, w, k, m)
  {
    GrowthRatio(x, u, xu, y, w, yw, k, m);
    GrowthNonNegative(u, w, k, m);
    ScaledBelow(Growth(xu, yw, k, m), Growth(x, y, k, m), Growth(u, w, k, m));
  }

  lemma ScaledBelow(small: real, ratio: real, large: real)
    requires small == ratio * large && ratio <= 1.0 && large >= 0.0
    ensures small <= large
  {
    ScaleLeq(ratio, 1.0, large);
  }

  // ---- optimality in terms of the price ----

  /**
   * What one unit becomes when the fraction f of it is staked on every outcome: a stake buys f / price
   * contracts, each worth one unit on a win and nothing on a loss.
   */
  function Bankroll(outcomes: seq<bool>, price: real, f: real): real
    requires price > 0.0
  {
    if outcomes == [] then 1.0 else
      AfterBet(Bankroll(outcomes[..|outcomes| - 1], price, f), price, f, outcomes[|outcomes| - 1])
  }

  function AfterBet(before: real, price: real, f: real, won: bool): real
    requires price > 0.0
  {
    before - before * f + if won then before * f / price else 0.0
  }

  predicate Won(outcome: bool) { outcome }

  lemma BetWon(before: real, price: real, b: real, f: real, up: real, after: real)
    requires 0.0 < price < 1.0 && b * price == 1.0 - price && up == 1.0 + b * f && after == up * before
    ensures AfterBet(before, price, f, true) == after
  {
    var staked := before * f;
    Quotient(staked, price);
    assert (b * staked) * price == staked * (b * price);
    CancelFactor(staked / price, staked + b * staked, price);
    Associate(b, f, before);
  }

  lemma BetLost(before: real, price: real, f: real, down: real, after: real)
    requires price > 0.0 && down == 1.0 - f && after == down * before
    ensures AfterBet(before, price, f, false) == after
  {
  }

  lemma GrowthLoss(up: real, down: real, k: nat, m: nat)
    ensures Growth(up, down, k, m + 1) == down * Growth(up, down, k, m)
  {
    GrowthIsProduct(up, down, k, m);
    GrowthIsProduct(up, down, k, m + 1);
    Rearrange(down, Pow(up, k) * Pow(down, m), 1.0, down, Pow(up, k), Pow(down, m));
  }

  /** The wealth after one more bet. */
  lemma LastBet(price: real, b: real, f: real, up: real, down: real, won: bool, k: nat, m: nat)
    requires 0.0 < price < 1.0 && b * price == 1.0 - price && up == 1.0 + b * f && down == 1.0 - f
    ensures AfterBet(Growth(up, down, k, m), price, f, won)
         == if won then Growth(up, down, k + 1, m) else Growth(up, down, k, m + 1)
  {
    if won {
      BetWon(Growth(up, down, k, m), price, b, f, up, Growth(up, down, k + 1, m));
    } else {
      GrowthLoss(up, down, k, m);
      BetLost(Growth(up, down, k, m), price, f, down, Growth(up, down, k, m + 1));
    }
  }

  /** Only the number of wins matters, not their order. */
  lemma {:induction false} BankrollIsWealth(outcomes: seq<bool>, price: real, f: real)
    requires 0.0 < price < 1.0
    ensures var k := Count(outcomes, Won);
            k <= |outcomes| && Bankroll(outcomes, price, f) == Wealth(NetOdds(price), f, k, |outcomes| - k)
  {
    if outcomes != [] {
      var n := |outcomes| - 1;
      BankrollIsWealth(outcomes[..n], price, f);
      var k := Count(outcomes[..n], Won);
      OddsOfPrice(price);
      LastBet(price, NetOdds(price), f, 1.0 + NetOdds(price) * f, 1.0 - f, outcomes[n], k, n - k);
    }
  }

  /**
   * Whatever the order of wins and losses, when the share of wins is the probability no stake in [0, 1)
   * leaves more than the stake g that the probability's excess over the price calls for.
   */
  lemma BestStakeAtPrice(outcomes: seq<bool>, price: real, f: real, g: real)
    requires outcomes != [] && 0.0 < price < 1.0 && 0.0 <= f < 1.0
    requires var p := Count(outcomes, Won) as real / |outcomes| as real;
             g * (1.0 - price) == if p > price then p - price else 0.0
    ensures Bankroll(outcomes, price, f) <= Bankroll(outcomes, price, g)
  {
    var k, n := Count(outcomes, Won), |outcomes|;
    BankrollIsWealth(outcomes, price, f);
    BankrollIsWealth(outcomes, price, g);
    OddsOfPrice(price);
    assert k + (n - k) == n;
    KellyOptimal(NetOdds(price), f, k, n - k);
    SameStake(k as real / n as real, price, g);
  }

  lemma SameStake(p: real, price: real, g: real)
    requires 0.0 < price < 1.0 && g * (1.0 - price) == if p > price then p - price else 0.0
    ensures NetOdds(price) > 0.0 && g == FullKelly(p, NetOdds(price))
  {
    OddsOfPrice(price);
    StakeInPrices(p, price);
    CancelFactor(g, FullKelly(p, NetOdds(price)), 1.0 - price);
  }
}
