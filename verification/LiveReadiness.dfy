/** The live-readiness verdict on a replay report: gates in order, the first failure wins. */
module LiveReadiness {
  import opened Sequences
  import opened Schemas
  import opened Reals
  import opened BacktestRunner

  datatype Verdict =
    | PASS | FAIL_NEGATIVE_PNL | FAIL_DRAWDOWN | FAIL_INSUFFICIENT_TRADES | FAIL_WEAK_CALIBRATION | FAIL_DATA_QUALITY

  const MIN_TRADES := 20
  const MAX_DRAWDOWN_PCT := 0.30
  const CALIBRATION_MAX_DEVIATION := 0.25
  const CALIBRATION_MIN_POPULATED := 2
  const EV_MAX_DEVIATION := 0.15
  const MIN_BAD_FRACTION := 0.10

  type Bucket = (real, real)

  const BUCKETS: seq<Bucket> := [(0.0, 0.2), (0.2, 0.4), (0.4, 0.6), (0.6, 0.8), (0.8, 1.0)]

  datatype DataQuality = DataQuality(totalLoaded: int, malformed: nat, missingFields: nat, crossedBooks: nat)

  predicate IsBuy(d: Decision) { d.decision && d.action == BUY }

  function Buys(ds: seq<Decision>): seq<Decision> { Filter(ds, IsBuy) }

  predicate InBucket(d: Decision, b: Bucket) { b.0 <= d.confidence <= b.1 }

  /** Both ends belong to a bucket. */
  function Within(ds: seq<Decision>, b: Bucket): seq<Decision> { Filter(ds, Inside(b)) }

  function Inside(b: Bucket): Decision -> bool { (d: Decision) => InBucket(d, b) }

  function Average(ds: seq<Decision>, of: Decision -> real): real {
    if ds == [] then 0.0 else Total(ds, of) / |ds| as real
  }

  function Confidence(d: Decision): real { d.confidence }
  function ExpectedValue(d: Decision): real { d.ev }
  function PositionSize(d: Decision): real { d.positionSizeUsdc }

  predicate IsWin(d: Decision) { IsGain(d.realizedPnl) }

  function WinCount(ds: seq<Decision>): nat { Count(ds, IsWin) }

  function Abs(x: real): real { if x < 0.0 then -x else x }

  /** Distance between stated confidence and observed win rate; zero for no decisions. */
  function Deviation(ds: seq<Decision>): real {
    if ds == [] then 0.0 else Abs(Average(ds, Confidence) - Ratio(WinCount(ds), |ds|))
  }

  /** How many of the first n buckets hold a buy. */
  function Populated(buys: seq<Decision>, buckets: seq<Bucket>, n: nat): nat
    requires n <= |buckets|
  {
    if n == 0 then 0 else Populated(buys, buckets, n - 1) + if Within(buys, buckets[n - 1]) != [] then 1 else 0
  }

  /** A populated bucket whose confidence and win rate are too far apart. */
  predicate Off(buys: seq<Decision>, b: Bucket, maxDeviation: real) {
    Within(buys, b) != [] && Deviation(Within(buys, b)) > maxDeviation
  }

  /** Enough buckets are populated and none of them is off by more than the limit. */
  predicate Calibrated(buys: seq<Decision>, buckets: seq<Bucket>, maxDeviation: real, minPopulated: int) {
    && (forall i :: 0 <= i < |buckets| ==> !Off(buys, buckets[i], maxDeviation))
    && Populated(buys, buckets, |buckets|) >= minPopulated
  }

  /** One bucket: whether any buy falls in it, and whether confidence and win rate are too far apart. */
  method Judge(buys: seq<Decision>, b: Bucket, maxDeviation: real) returns (isPopulated: bool, off: bool)
    ensures isPopulated == (Within(buys, b) != []) && off == Off(buys, b, maxDeviation)
  {
    var bucket := Within(buys, b);
    if bucket == [] {
      return false, false;
    }
    var averageConfidence := Total(bucket, Confidence) / |bucket| as real;
    var winRate := WinCount(bucket) as real / |bucket| as real;
    isPopulated, off := true, Abs(averageConfidence - winRate) > maxDeviation;
  }

  method ConfidenceCalibrationAcceptable(
      decisions: seq<Decision>, buckets: seq<Bucket>, maxDeviation: real, minPopulated: int) returns (ok: bool)
    ensures ok == (Buys(decisions) == [] || Calibrated(Buys(decisions), buckets, maxDeviation, minPopulated))
  {
    if |decisions| == 0 {
      return true;
    }
    var buys := Buys(decisions);
    if buys == [] {
      return true;
    }
    ok := ScanBuckets(buys, buckets, maxDeviation, minPopulated);
  }

  predicate NoneOff(buys: seq<Decision>, buckets: seq<Bucket>, maxDeviation: real, n: nat)
    requires n <= |buckets|
  {
    forall j :: 0 <= j < n ==> !Off(buys, buckets[j], maxDeviation)
  }

  /** Stops at the first bucket that is off. */
  method ScanBuckets(buys: seq<Decision>, buckets: seq<Bucket>, maxDeviation: real, minPopulated: int)
    returns (ok: bool)
    ensures ok == Calibrated(buys, buckets, maxDeviation, minPopulated)
  {
    var populated := 0;
    for i := 0 to |buckets|
      invariant populated == Populated(buys, buckets, i) && NoneOff(buys, buckets, maxDeviation, i)
    {
      var isPopulated, off := Judge(buys, buckets[i], maxDeviation);
      if !isPopulated {
        continue;
      }
      populated := populated + 1;
      if off {
        return false;
      }
    }
    ok := populated >= minPopulated;
  }

  /** How far the average stated edge is from the realized return per unit staked; zero when it cannot be told. */
  function EvDeviation(r: Report): real {
    var buys := Buys(r.decisions);
    if r.totalTrades == 0 || buys == [] || Average(buys, PositionSize) <= 0.0 then 0.0
    else Abs(Average(buys, ExpectedValue) - r.netPnl / r.totalTrades as real / Average(buys, PositionSize))
  }

  predicate EvCalibrationAcceptable(r: Report, maxDeviation: real) {
    if r.totalTrades == 0 then true else
      var buys := Buys(r.decisions);
      if buys == [] then true else
        var averageEv := Average(buys, ExpectedValue);
        var averagePosition := Average(buys, PositionSize);
        if averagePosition <= 0.0 then true else
          var realized := r.netPnl / r.totalTrades as real / averagePosition;
          Abs(averageEv - realized) <= maxDeviation
  }

  predicate PoorData(r: Report, q: DataQuality) {
    || (q.totalLoaded > 0
        && (q.malformed + q.missingFields + q.crossedBooks) as real / q.totalLoaded as real > MIN_BAD_FRACTION)
    || (q.totalLoaded <= 0 && r.totalTrades == 0)
  }

  predicate DeepDrawdown(r: Report) { r.bankroll > 0.0 && r.maxDrawdown > MAX_DRAWDOWN_PCT * r.bankroll }

  predicate WeaklyCalibrated(r: Report) {
    || (Buys(r.decisions) != []
        && !Calibrated(Buys(r.decisions), BUCKETS, CALIBRATION_MAX_DEVIATION, CALIBRATION_MIN_POPULATED))
    || !EvCalibrationAcceptable(r, EV_MAX_DEVIATION)
  }

  /** Every gate before calibration lets the report through. */
  predicate ReachesCalibration(r: Report, q: DataQuality) {
    !PoorData(r, q) && r.totalTrades >= MIN_TRADES && r.netPnl > 0.0 && !DeepDrawdown(r)
  }

  // ---- the gates as sums and counts over the decisions, without a division ----

  /** More than a tenth of what was loaded is bad, or nothing was loaded and nothing traded. */
  predicate TooMuchBad(r: Report, q: DataQuality) {
    || (q.totalLoaded > 0 && 10 * (q.malformed + q.missingFields + q.crossedBooks) > q.totalLoaded)
    || (q.totalLoaded <= 0 && r.totalTrades == 0)
  }

  lemma PoorDataIff(r: Report, q: DataQuality)
    ensures PoorData(r, q) <==> TooMuchBad(r, q)
  {
    if q.totalLoaded > 0 {
      TenthOf(q.malformed + q.missingFields + q.crossedBooks, q.totalLoaded);
    }
  }

  lemma TenthOf(part: nat, whole: nat)
    requires whole > 0
    ensures part as real / whole as real > 0.10 <==> 10 * part > whole
  {
    Quotient(part as real, whole as real);
    RatioOverTenth(part as real / whole as real, part as real, whole as real);
    assert 10 * part > whole <==> (10 * part) as real > whole as real;
  }

  lemma RatioOverTenth(ratio: real, part: real, whole: real)
    requires whole > 0.0 && ratio * whole == part
    ensures ratio > 0.10 <==> 10.0 * part > whole
  {
    LeqByFactor(ratio, 0.10, whole);
  }

  /** The buys with a confidence between the two ends, ends included. */
  function InBand(low: real, high: real): Decision -> bool {
    (d: Decision) => d.decision && d.action == BUY && low <= d.confidence <= high
  }

  function WonInBand(low: real, high: real): Decision -> bool {
    (d: Decision) => d.decision && d.action == BUY && low <= d.confidence <= high && d.realizedPnl > 0.0
  }

  function ConfidenceInBand(low: real, high: real): Decision -> real {
    (d: Decision) => if d.decision && d.action == BUY && low <= d.confidence <= high then d.confidence else 0.0
  }

  function WonInside(b: Bucket): Decision -> bool { (d: Decision) => InBucket(d, b) && IsWin(d) }

  function ConfidenceInside(b: Bucket): Decision -> real {
    (d: Decision) => if InBucket(d, b) then d.confidence else 0.0
  }

  lemma BandFigures(ds: seq<Decision>, b: Bucket)
    ensures |Within(Buys(ds), b)| == Count(ds, InBand(b.0, b.1))
    ensures WinCount(Within(Buys(ds), b)) == Count(ds, WonInBand(b.0, b.1))
    ensures Total(Within(Buys(ds), b), Confidence) == Total(ds, ConfidenceInBand(b.0, b.1))
  {
    CountAnything(Within(Buys(ds), b));
    CountFilter(Buys(ds), Inside(b), Anything, Inside(b));
    CountFilter(ds, IsBuy, Inside(b), InBand(b.0, b.1));
    CountFilter(Buys(ds), Inside(b), IsWin, WonInside(b));
    CountFilter(ds, IsBuy, WonInside(b), WonInBand(b.0, b.1));
    TotalFilter(Buys(ds), Inside(b), Confidence, ConfidenceInside(b));
    TotalFilter(ds, IsBuy, ConfidenceInside(b), ConfidenceInBand(b.0, b.1));
  }

  /** The stated confidences and the wins of a band differ by more than a quarter per buy. */
  predicate BandOff(ds: seq<Decision>, low: real, high: real) {
    var n, sum := Count(ds, InBand(low, high)) as real, Total(ds, ConfidenceInBand(low, high));
    var wins := Count(ds, WonInBand(low, high)) as real;
    n > 0.0 && Apart(sum, wins, 0.25 * n)
  }

  predicate Apart(a: real, b: real, limit: real) { a - b > limit || b - a > limit }

  /** Two numbers are as far apart as their multiples are, the limit being multiplied too. */
  lemma ApartByFactor(x: real, w: real, t: real, c: real, a: real, b: real, limit: real)
    requires c > 0.0 && t >= 0.0 && (x - w) * c == a - b && t * c == limit
    ensures Abs(x - w) > t <==> Apart(a, b, limit)
  {
    LeqByFactor(x - w, t, c);
    LeqByFactor(w - x, t, c);
    assert (w - x) * c == b - a;
  }

  lemma GapWithoutDivision(sum: real, wins: real, n: real)
    requires n > 0.0
    ensures Abs(sum / n - wins / n) > 0.25 <==> Apart(sum, wins, 0.25 * n)
  {
    Quotient(sum, n);
    Quotient(wins, n);
    ApartByFactor(sum / n, wins / n, 0.25, n, sum, wins, 0.25 * n);
  }

  lemma DeviationWithoutDivision(own: seq<Decision>)
    ensures own != [] && Deviation(own) > 0.25
            <==> |own| as real > 0.0 && Apart(Total(own, Confidence), WinCount(own) as real, 0.25 * |own| as real)
  {
    if own != [] {
      GapWithoutDivision(Total(own, Confidence), WinCount(own) as real, |own| as real);
    }
  }

  lemma BandOffIff(ds: seq<Decision>, b: Bucket)
    ensures Off(Buys(ds), b, 0.25) <==> BandOff(ds, b.0, b.1)
  {
    BandFigures(ds, b);
    DeviationWithoutDivision(Within(Buys(ds), b));
  }

  function InUse(ds: seq<Decision>, low: real, high: real): nat {
    if Count(ds, InBand(low, high)) > 0 then 1 else 0
  }

  /** Some fifth of the unit interval is off, or fewer than two are in use. */
  predicate BandsOff(ds: seq<Decision>) {
    || BandOff(ds, 0.0, 0.2) || BandOff(ds, 0.2, 0.4) || BandOff(ds, 0.4, 0.6) || BandOff(ds, 0.6, 0.8)
    || BandOff(ds, 0.8, 1.0)
    || InUse(ds, 0.0, 0.2) + InUse(ds, 0.2, 0.4) + InUse(ds, 0.4, 0.6) + InUse(ds, 0.6, 0.8) + InUse(ds, 0.8, 1.0) < 2
  }

  lemma BandAt(ds: seq<Decision>, i: nat, low: real, high: real)
    requires i < 5 && BUCKETS[i] == (low, high)
    ensures Off(Buys(ds), BUCKETS[i], 0.25) <==> BandOff(ds, low, high)
    ensures Populated(Buys(ds), BUCKETS, i + 1) == Populated(Buys(ds), BUCKETS, i) + InUse(ds, low, high)
  {
    BandOffIff(ds, BUCKETS[i]);
    BandFigures(ds, BUCKETS[i]);
  }

  lemma BandsOffIff(ds: seq<Decision>)
    ensures Calibrated(Buys(ds), BUCKETS, 0.25, 2) <==> !BandsOff(ds)
  {
    BandAt(ds, 0, 0.0, 0.2);
    BandAt(ds, 1, 0.2, 0.4);
    BandAt(ds, 2, 0.4, 0.6);
    BandAt(ds, 3, 0.6, 0.8);
    BandAt(ds, 4, 0.8, 1.0);
  }

  function BoughtEv(d: Decision): real { if d.decision && d.action == BUY then d.ev else 0.0 }

  function BoughtSize(d: Decision): real { if d.decision && d.action == BUY then d.positionSizeUsdc else 0.0 }

  /**
   * With n buys of total edge e and total size p, and t trades that made m, the average edge e / n and
   * the return m n / (t p) differ by more than 0.15.
   */
  predicate EdgeOff(r: Report) {
    var n, t := Count(r.decisions, IsBuy) as real, r.totalTrades as real;
    var e, p := Total(r.decisions, BoughtEv), Total(r.decisions, BoughtSize);
    n > 0.0 && t > 0.0 && p > 0.0 && FarApart(e, p, r.netPnl, n, t)
  }

  predicate FarApart(e: real, p: real, m: real, n: real, t: real) {
    Apart(e * (t * p), m * (n * n), 0.15 * (n * (t * p)))
  }

  lemma BuyFigures(ds: seq<Decision>)
    ensures |Buys(ds)| == Count(ds, IsBuy)
    ensures Total(Buys(ds), ExpectedValue) == Total(ds, BoughtEv)
    ensures Total(Buys(ds), PositionSize) == Total(ds, BoughtSize)
  {
    CountAnything(Buys(ds));
    CountFilter(ds, IsBuy, Anything, IsBuy);
    TotalFilter(ds, IsBuy, ExpectedValue, BoughtEv);
    TotalFilter(ds, IsBuy, PositionSize, BoughtSize);
  }

  /** x is the average edge and w the return per unit staked, z being the average stake and y the average profit. */
  lemma ReturnGap(x: real, w: real, y: real, z: real, e: real, p: real, m: real, n: real, t: real, scale: real)
    requires x * n == e && y * t == m && z * n == p && w * z == y && scale == n * (t * p)
    ensures (x - w) * scale == e * (t * p) - m * (n * n)
  {
    assert x * scale == (x * n) * (t * p);
    assert w * scale == (w * z) * (n * n) * t by {
      assert scale == n * (t * (z * n));
    }
    assert (y * t) * (n * n) == y * (n * n) * t;
  }

  lemma ReturnGapSign(x: real, w: real, y: real, z: real, e: real, p: real, m: real, n: real, t: real)
    requires x * n == e && y * t == m && z * n == p && w * z == y && n > 0.0 && t > 0.0 && p > 0.0
    ensures Abs(x - w) > 0.15 <==> FarApart(e, p, m, n, t)
  {
    var rest, scale := t * p, n * (t * p);
    PositiveProduct(t, p, rest);
    PositiveProduct(n, rest, scale);
    ReturnGap(x, w, y, z, e, p, m, n, t, scale);
    ApartByFactor(x, w, 0.15, scale, e * rest, m * (n * n), 0.15 * scale);
  }

  lemma ReturnGapIff(e: real, p: real, m: real, n: real, t: real)
    requires n > 0.0 && t > 0.0 && p > 0.0
    ensures p / n > 0.0 && (Abs(e / n - m / t / (p / n)) > 0.15 <==> FarApart(e, p, m, n, t))
  {
    Quotient(e, n);
    Quotient(m, t);
    Quotient(p, n);
    Quotient(m / t, p / n);
    ReturnGapSign(e / n, m / t / (p / n), m / t, p / n, e, p, m, n, t);
  }

  lemma EdgeOffIff(r: Report)
    ensures EvCalibrationAcceptable(r, 0.15) <==> !EdgeOff(r)
  {
    BuyFigures(r.decisions);
    var buys := Buys(r.decisions);
    if r.totalTrades > 0 && buys != [] {
      QuotientSign(Total(buys, PositionSize), |buys| as real);
      if Total(buys, PositionSize) > 0.0 {
        ReturnGapIff(Total(buys, ExpectedValue), Total(buys, PositionSize), r.netPnl, |buys| as real,
                     r.totalTrades as real);
      }
    }
  }

  /** There are buys, and their confidences or their edges do not bear out. */
  predicate Miscalibrated(r: Report) {
    Count(r.decisions, IsBuy) > 0 && (BandsOff(r.decisions) || EdgeOff(r))
  }

  lemma MiscalibratedIff(r: Report)
    ensures WeaklyCalibrated(r) <==> Miscalibrated(r)
  {
    BuyFigures(r.decisions);
    BandsOffIff(r.decisions);
    EdgeOffIff(r);
  }

  method DeriveVerdict(r: Report, q: DataQuality) returns (v: Verdict)
    ensures v == FAIL_DATA_QUALITY <==> PoorData(r, q)
    ensures v == FAIL_INSUFFICIENT_TRADES <==> !PoorData(r, q) && r.totalTrades < MIN_TRADES
    ensures v == FAIL_NEGATIVE_PNL <==> !PoorData(r, q) && r.totalTrades >= MIN_TRADES && r.netPnl <= 0.0
    ensures v == FAIL_DRAWDOWN <==>
              !PoorData(r, q) && r.totalTrades >= MIN_TRADES && r.netPnl > 0.0 && DeepDrawdown(r)
    ensures v == FAIL_WEAK_CALIBRATION <==> ReachesCalibration(r, q) && WeaklyCalibrated(r)
    ensures v == PASS <==> ReachesCalibration(r, q) && !WeaklyCalibrated(r)
    ensures v == if TooMuchBad(r, q) then FAIL_DATA_QUALITY
                 else if r.totalTrades < 20 then FAIL_INSUFFICIENT_TRADES
                 else if r.netPnl <= 0.0 then FAIL_NEGATIVE_PNL
                 else if r.bankroll > 0.0 && r.maxDrawdown > 0.3 * r.bankroll then FAIL_DRAWDOWN
                 else if Miscalibrated(r) then FAIL_WEAK_CALIBRATION
                 else PASS
  {
    PoorDataIff(r, q);
    MiscalibratedIff(r);
    if q.totalLoaded > 0 {
      var bad := q.malformed + q.missingFields + q.crossedBooks;
      if bad as real / q.totalLoaded as real > MIN_BAD_FRACTION {
        return FAIL_DATA_QUALITY;
      }
    }
    if q.totalLoaded <= 0 && r.totalTrades <= 0 {
      return FAIL_DATA_QUALITY;
    }
    if r.totalTrades < MIN_TRADES {
      return FAIL_INSUFFICIENT_TRADES;
    }
    if r.netPnl <= 0.0 {
      return FAIL_NEGATIVE_PNL;
    }
    if r.bankroll > 0.0 && r.maxDrawdown > MAX_DRAWDOWN_PCT * r.bankroll {
      return FAIL_DRAWDOWN;
    }
    var calibrated := ConfidenceCalibrationAcceptable(
      r.decisions, BUCKETS, CALIBRATION_MAX_DEVIATION, CALIBRATION_MIN_POPULATED);
    if !calibrated {
      return FAIL_WEAK_CALIBRATION;
    }
    if !EvCalibrationAcceptable(r, EV_MAX_DEVIATION) {
      return FAIL_WEAK_CALIBRATION;
    }
    v := PASS;
  }

  /**
   * What a pass says about the replay itself: cumulative profit never fell below
   * minus thirty percent of the bankroll, at no point of the run, and ended above zero.
   */
  lemma PassFloorsEquity(r: Report, ds: seq<Decision>, bankroll: real, sqrt: real -> real, q: DataQuality)
    requires IsReport(r, ds, bankroll, sqrt) && bankroll > 0.0
    requires ReachesCalibration(r, q)
    ensures var pnls := Trades(ds);
            && |pnls| >= MIN_TRADES
            && (forall j: nat :: j <= |pnls| ==> Equity(pnls, j) >= -MAX_DRAWDOWN_PCT * bankroll)
            && Equity(pnls, |pnls|) > 0.0
  {
    var pnls := Trades(ds);
    forall j: nat | j <= |pnls|
      ensures Equity(pnls, j) >= -MAX_DRAWDOWN_PCT * bankroll
    {
      assert Equity(pnls, 0) == 0.0;
      assert Equity(pnls, 0) - Equity(pnls, j) <= r.maxDrawdown;
    }
    assert pnls[..|pnls|] == pnls;
  }
}
