/** The validation report: its own calibration table, computed apart from the verdict that goes with it. */
module ValidationReport {
  import opened Sequences
  import opened Reals
  import opened BacktestRunner
  import opened LiveReadiness

  datatype CalibrationBucket = CalibrationBucket(
    low: real, high: real, count: nat, avgConfidence: real, observedWinRate: real, deviation: real)

  datatype Validation = Validation(
    verdict: Verdict, totalDecisions: nat, totalTrades: nat, netPnl: real, averageEv: real,
    realizedEvCalibration: real, buckets: seq<CalibrationBucket>)

  /** The table row of one bucket. */
  function RowFor(buys: seq<Decision>, b: Bucket): CalibrationBucket {
    var ds := Within(buys, b);
    CalibrationBucket(b.0, b.1, |ds|, Average(ds, Confidence), Ratio(WinCount(ds), |ds|), Deviation(ds))
  }

  /** x is the distance between a and b. */
  predicate IsDistance(x: real, a: real, b: real) { x >= 0.0 && (x == a - b || x == b - a) }

  /** average is the part each of n has of the total; nothing when there are none. */
  predicate IsAverage(average: real, total: real, n: nat) {
    average * n as real == total && (n == 0 ==> average == 0.0)
  }

  /** The row counts the buys of its band and gives their average confidence, their share of wins and the distance. */
  predicate RowMeans(row: CalibrationBucket, ds: seq<Decision>, low: real, high: real) {
    && row.low == low && row.high == high && row.count == Count(ds, InBand(low, high))
    && IsAverage(row.avgConfidence, Total(ds, ConfidenceInBand(low, high)), row.count)
    && IsAverage(row.observedWinRate, Count(ds, WonInBand(low, high)) as real, row.count)
    && IsDistance(row.deviation, row.avgConfidence, row.observedWinRate)
  }

  lemma AverageIs(ds: seq<Decision>, of: Decision -> real)
    ensures IsAverage(Average(ds, of), Total(ds, of), |ds|)
  {
    if ds != [] {
      Quotient(Total(ds, of), |ds| as real);
    }
  }

  lemma WinRateIs(ds: seq<Decision>)
    ensures IsAverage(Ratio(WinCount(ds), |ds|), WinCount(ds) as real, |ds|)
  {
    if ds != [] {
      Quotient(WinCount(ds) as real, |ds| as real);
    }
  }

  lemma RowForMeans(ds: seq<Decision>, b: Bucket)
    ensures RowMeans(RowFor(Buys(ds), b), ds, b.0, b.1)
  {
    BandFigures(ds, b);
    AverageIs(Within(Buys(ds), b), Confidence);
    WinRateIs(Within(Buys(ds), b));
  }

  method ComputeCalibrationBuckets(decisions: seq<Decision>, buckets: seq<Bucket>)
    returns (table: seq<CalibrationBucket>)
    ensures |table| == |buckets|
    ensures forall i :: 0 <= i < |buckets| ==> table[i] == RowFor(Buys(decisions), buckets[i])
  {
    var buys := Buys(decisions);
    table := [];
    for i := 0 to |buckets|
      invariant |table| == i && forall j :: 0 <= j < i ==> table[j] == RowFor(buys, buckets[j])
    {
      var (low, high) := buckets[i];
      var ds := Within(buys, buckets[i]);
      if |ds| == 0 {
        table := table + [CalibrationBucket(low, high, 0, 0.0, 0.0, 0.0)];
        continue;
      }
      var avgConfidence := Total(ds, Confidence) / |ds| as real;
      var winRate := WinCount(ds) as real / |ds| as real;
      table := table + [CalibrationBucket(low, high, |ds|, avgConfidence, winRate, Abs(avgConfidence - winRate))];
    }
  }

  function PopulatedRows(table: seq<CalibrationBucket>, n: nat): nat
    requires n <= |table|
  {
    if n == 0 then 0 else PopulatedRows(table, n - 1) + if table[n - 1].count > 0 then 1 else 0
  }

  predicate IsOffRow(row: CalibrationBucket) { row.count > 0 && row.deviation > CALIBRATION_MAX_DEVIATION }

  /** What a reader of the report alone would call weak calibration. */
  predicate ShowsWeakCalibration(v: Validation) {
    || (exists i :: 0 <= i < |v.buckets| && IsOffRow(v.buckets[i]))
    || PopulatedRows(v.buckets, |v.buckets|) < CALIBRATION_MIN_POPULATED
    || v.realizedEvCalibration > EV_MAX_DEVIATION
  }

  /**
   * The verdict and the table are computed by different code and agree: once the
   * earlier gates pass, calibration is called weak exactly when the report shows it.
   */
  method BuildValidationReport(r: Report, q: DataQuality) returns (v: Validation)
    ensures v.totalDecisions == |r.decisions| && v.totalTrades == r.totalTrades && v.netPnl == r.netPnl
    ensures IsAverage(v.averageEv, Total(r.decisions, BoughtEv), Count(r.decisions, IsBuy))
    ensures EdgeGapIs(v.realizedEvCalibration, r)
    ensures TableMeans(v.buckets, r.decisions)
    ensures ReachesCalibration(r, q) ==>
              (v.verdict == FAIL_WEAK_CALIBRATION <==> Buys(r.decisions) != [] && ShowsWeakCalibration(v))
    ensures v.verdict == PASS <==> ReachesCalibration(r, q) && (Buys(r.decisions) == [] || !ShowsWeakCalibration(v))
  {
    var averageEv, realizedEv := EvFigures(r);
    var table := ComputeCalibrationBuckets(r.decisions, BUCKETS);
    var verdict := DeriveVerdict(r, q);
    v := Validation(verdict, |r.decisions|, r.totalTrades, r.netPnl, averageEv, realizedEv, table);
    VerdictIffShown(r, v);
    RowsMean(table, r.decisions);
  }

  lemma VerdictIffShown(r: Report, v: Validation)
    requires |v.buckets| == |BUCKETS| && v.realizedEvCalibration == EvDeviation(r)
    requires forall i :: 0 <= i < |BUCKETS| ==> v.buckets[i] == RowFor(Buys(r.decisions), BUCKETS[i])
    ensures WeaklyCalibrated(r) <==> Buys(r.decisions) != [] && ShowsWeakCalibration(v)
  {
    WeakIffShown(r, v.buckets, v.realizedEvCalibration);
  }

  /** The average edge of the buys, and how far it is from what trading returned. */
  method EvFigures(r: Report) returns (averageEv: real, realizedEv: real)
    ensures IsAverage(averageEv, Total(r.decisions, BoughtEv), Count(r.decisions, IsBuy))
    ensures realizedEv == EvDeviation(r) && EdgeGapIs(realizedEv, r)
  {
    var buys := Buys(r.decisions);
    averageEv := if buys != [] then Total(buys, ExpectedValue) / |buys| as real else 0.0;
    realizedEv := 0.0;
    if r.totalTrades > 0 && buys != [] {
      var averagePosition := Total(buys, PositionSize) / |buys| as real;
      if averagePosition > 0.0 {
        realizedEv := Abs(averageEv - r.netPnl / r.totalTrades as real / averagePosition);
      }
    }
    AverageIs(buys, ExpectedValue);
    BuyFigures(r.decisions);
    EvDeviationIs(r);
  }

  /** One row for each fifth of the unit interval. */
  predicate TableMeans(table: seq<CalibrationBucket>, ds: seq<Decision>) {
    && |table| == 5
    && RowMeans(table[0], ds, 0.0, 0.2) && RowMeans(table[1], ds, 0.2, 0.4) && RowMeans(table[2], ds, 0.4, 0.6)
    && RowMeans(table[3], ds, 0.6, 0.8) && RowMeans(table[4], ds, 0.8, 1.0)
  }

  lemma RowsMean(table: seq<CalibrationBucket>, ds: seq<Decision>)
    requires |table| == |BUCKETS| && forall i :: 0 <= i < |BUCKETS| ==> table[i] == RowFor(Buys(ds), BUCKETS[i])
    ensures TableMeans(table, ds)
  {
    RowForMeans(ds, BUCKETS[0]);
    RowForMeans(ds, BUCKETS[1]);
    RowForMeans(ds, BUCKETS[2]);
    RowForMeans(ds, BUCKETS[3]);
    RowForMeans(ds, BUCKETS[4]);
  }

  /** How far the buys' average edge is from what a trade returned per unit of the average stake, if it can be told. */
  predicate EdgeGapIs(gap: real, r: Report) {
    var n, t := Count(r.decisions, IsBuy) as real, r.totalTrades as real;
    var e, p := Total(r.decisions, BoughtEv), Total(r.decisions, BoughtSize);
    if n > 0.0 && t > 0.0 && p > 0.0 then GapInSums(gap, e, p, r.netPnl, n, t) else gap == 0.0
  }

  predicate GapInSums(gap: real, e: real, p: real, m: real, n: real, t: real) {
    IsDistance(gap * (n * (t * p)), e * (t * p), m * (n * n))
  }

  lemma DistanceByFactor(x: real, w: real, c: real, a: real, b: real)
    requires c > 0.0 && (x - w) * c == a - b
    ensures IsDistance(Abs(x - w) * c, a, b)
  {
    assert (w - x) * c == b - a;
    LeqByFactor(0.0, x - w, c);
    LeqByFactor(0.0, w - x, c);
  }

  lemma ReturnDistanceOf(x: real, w: real, y: real, z: real, e: real, p: real, m: real, n: real, t: real)
    requires x * n == e && y * t == m && z * n == p && w * z == y && n > 0.0 && t > 0.0 && p > 0.0
    ensures GapInSums(Abs(x - w), e, p, m, n, t)
  {
    var rest, scale := t * p, n * (t * p);
    PositiveProduct(t, p, rest);
    PositiveProduct(n, rest, scale);
    ReturnGap(x, w, y, z, e, p, m, n, t, scale);
    DistanceByFactor(x, w, scale, e * rest, m * (n * n));
  }

  lemma ReturnDistance(e: real, p: real, m: real, n: real, t: real)
    requires n > 0.0 && t > 0.0 && p > 0.0
    ensures p / n > 0.0 && GapInSums(Abs(e / n - m / t / (p / n)), e, p, m, n, t)
  {
    Quotient(e, n);
    Quotient(m, t);
    Quotient(p, n);
    Quotient(m / t, p / n);
    ReturnDistanceOf(e / n, m / t / (p / n), m / t, p / n, e, p, m, n, t);
  }

  lemma EvDeviationIs(r: Report)
    ensures EdgeGapIs(EvDeviation(r), r)
  {
    BuyFigures(r.decisions);
    var buys := Buys(r.decisions);
    if r.totalTrades > 0 && buys != [] {
      QuotientSign(Total(buys, PositionSize), |buys| as real);
      if Total(buys, PositionSize) > 0.0 {
        ReturnDistance(Total(buys, ExpectedValue), Total(buys, PositionSize), r.netPnl, |buys| as real,
                       r.totalTrades as real);
      }
    }
  }

  lemma {:induction false} SamePopulated(
      buys: seq<Decision>, buckets: seq<Bucket>, table: seq<CalibrationBucket>, n: nat)
    requires n <= |table| == |buckets|
    requires forall i :: 0 <= i < |buckets| ==> table[i].count == |Within(buys, buckets[i])|
    ensures PopulatedRows(table, n) == Populated(buys, buckets, n)
  {
    if n > 0 {
      SamePopulated(buys, buckets, table, n - 1);
    }
  }

  lemma WeakIffShown(r: Report, table: seq<CalibrationBucket>, realizedEv: real)
    requires |table| == |BUCKETS|
    requires forall i :: 0 <= i < |BUCKETS| ==> table[i] == RowFor(Buys(r.decisions), BUCKETS[i])
    requires realizedEv == EvDeviation(r)
    ensures WeaklyCalibrated(r) <==>
              && Buys(r.decisions) != []
              && ShowsWeakCalibration(Validation(PASS, 0, 0, 0.0, 0.0, realizedEv, table))
  {
    var buys := Buys(r.decisions);
    SamePopulated(buys, BUCKETS, table, |BUCKETS|);
    assert EvCalibrationAcceptable(r, EV_MAX_DEVIATION) <==> realizedEv <= EV_MAX_DEVIATION;
    forall i | 0 <= i < |BUCKETS|
      ensures Deviation(Within(buys, BUCKETS[i])) > CALIBRATION_MAX_DEVIATION
              <==> IsOffRow(table[i])
    {
    }
  }

  // ---- the buckets overlap at their edges ----

  function Counts(table: seq<CalibrationBucket>, n: nat): nat
    requires n <= |table|
  {
    if n == 0 then 0 else Counts(table, n - 1) + table[n - 1].count
  }

  predicate InUnitInterval(d: Decision) { 0.0 <= d.confidence <= 1.0 }

  predicate OnInteriorEdge(d: Decision) {
    d.confidence == 0.2 || d.confidence == 0.4 || d.confidence == 0.6 || d.confidence == 0.8
  }

  function BucketSum(buys: seq<Decision>): nat {
    |Within(buys, BUCKETS[0])| + |Within(buys, BUCKETS[1])| + |Within(buys, BUCKETS[2])|
    + |Within(buys, BUCKETS[3])| + |Within(buys, BUCKETS[4])|
  }

  lemma {:induction false} BucketSumCounts(buys: seq<Decision>)
    ensures BucketSum(buys) == Count(buys, InUnitInterval) + Count(buys, OnInteriorEdge)
  {
    if buys != [] {
      BucketSumCounts(buys[..|buys| - 1]);
    }
  }

  /** The table counts every buy with a confidence in [0, 1] once, and those on an interior edge twice. */
  lemma TableCounts(buys: seq<Decision>, table: seq<CalibrationBucket>)
    requires |table| == |BUCKETS| && forall i :: 0 <= i < |BUCKETS| ==> table[i].count == |Within(buys, BUCKETS[i])|
    ensures Counts(table, |table|) == Count(buys, InUnitInterval) + Count(buys, OnInteriorEdge)
  {
    BucketSumCounts(buys);
    assert Counts(table, 1) == table[0].count;
    assert Counts(table, 2) == Counts(table, 1) + table[1].count;
    assert Counts(table, 3) == Counts(table, 2) + table[2].count;
    assert Counts(table, 4) == Counts(table, 3) + table[3].count;
  }

  lemma CountOne(d: Decision, p: Decision -> bool)
    ensures Count([d], p) == if p(d) then 1 else 0
  {
    assert [d][..0] == [];
  }

  lemma EdgesAreInside(d: Decision)
    requires OnInteriorEdge(d)
    ensures InUnitInterval(d)
  {
  }

  /** A single buy whose confidence is 0.2, 0.4, 0.6 or 0.8 is counted by two buckets. */
  lemma EdgeCountedTwice(d: Decision)
    requires OnInteriorEdge(d)
    ensures BucketSum([d]) == 2
  {
    EdgesAreInside(d);
    CountOne(d, InUnitInterval);
    CountOne(d, OnInteriorEdge);
    BucketSumCounts([d]);
  }
}
