/**
 * The dataset builder: raw markets become per-token, per-day snapshot files,
 * with what is known only after resolution kept in a separate file.
 */
module HistoricalDataset {
  import opened Wrappers
  import opened Sequences
  import opened Text
  import opened BacktestData

  datatype SkipCode =
    | MISSING_TOKEN_ID | MISSING_CONDITION_ID | AMBIGUOUS_OUTCOME | SOURCE_ERROR | INVALID_TIMESTAMP
    | MALFORMED_RECORD | NON_POSITIVE_BID | NON_POSITIVE_ASK | NON_POSITIVE_MIDPOINT | CROSSED_BOOK
    | DUPLICATE_SNAPSHOT | FLOAT_REJECTED

  /** An optional number as fetched: a raw float is rejected, and one that is not finite fails the record. */
  datatype Optional = Absent | RawFloat | NotFinite | Given(value: real)

  function Accepted(o: Optional): Option<real> { if o.Given? then Some(o.value) else None }

  function FloatSkip(o: Optional): seq<SkipCode> { if o.RawFloat? then [FLOAT_REJECTED] else [] }

  /** A parsed timestamp: the instant, and the calendar date in its own offset. */
  datatype Stamp = Stamp(utc: int, date: DateKey)

  /** One element of a fetched time series, after field lookup. */
  datatype RawSnapshot =
    | NotADict
    | Dict(stamp: Option<Stamp>, bid: Option<real>, ask: Option<real>, midpoint: Option<real>,
           spread: Optional, volume: Optional)

  datatype Point = Point(stamp: Stamp, bid: real, ask: real, midpoint: real, spread: real, volume: Option<real>)

  datatype Fetch = Failed | NotASeries | Series(raws: seq<RawSnapshot>)

  /** What is only known once a market has resolved. */
  datatype Outcome = Outcome(resolved: Option<string>, price: Optional, pnl: Optional)

  datatype RawMarket = RawMarket(
    tokenId: string, conditionId: string, endDate: Option<int>, outcome: Outcome, fetch: Fetch)

  // ---- parsing and de-duplicating one series ----

  /** A validated point, or the reason it is skipped; the checks come in this order. */
  function ParseSnapshot(raw: RawSnapshot): Result<Point, SkipCode> {
    if raw.NotADict? then Failure(MALFORMED_RECORD)
    else if raw.stamp.None? then Failure(INVALID_TIMESTAMP)
    else if raw.bid.None? || raw.ask.None? || raw.midpoint.None? then Failure(MALFORMED_RECORD)
    else if raw.spread.NotFinite? || raw.volume.NotFinite? then Failure(MALFORMED_RECORD)
    else
      var bid, ask, mid := raw.bid.value, raw.ask.value, raw.midpoint.value;
      if bid <= 0.0 then Failure(NON_POSITIVE_BID)
      else if ask <= 0.0 then Failure(NON_POSITIVE_ASK)
      else if mid <= 0.0 then Failure(NON_POSITIVE_MIDPOINT)
      else if bid > ask then Failure(CROSSED_BOOK)
      else Success(Point(raw.stamp.value, bid, ask, mid,
                         if raw.spread.Given? then raw.spread.value else ask - bid, Accepted(raw.volume)))
  }

  /** Raw floats in optional fields are reported, kept point or not, once the required fields are there. */
  function FloatSkips(raw: RawSnapshot): seq<SkipCode> {
    if raw.NotADict? || raw.stamp.None? || raw.bid.None? || raw.ask.None? || raw.midpoint.None? then []
    else FloatSkip(raw.spread) + FloatSkip(raw.volume)
  }

  predicate Sound(p: Point) { 0.0 < p.bid <= p.ask && 0.0 < p.midpoint }

  /** Element j is valid and no earlier valid element has its instant. */
  ghost predicate FirstAt(raws: seq<RawSnapshot>, j: nat)
    requires j < |raws|
  {
    && ParseSnapshot(raws[j]).Success?
    && forall i :: 0 <= i < j && ParseSnapshot(raws[i]).Success? ==> InstantOf(raws[i]) != InstantOf(raws[j])
  }

  function InstantOf(raw: RawSnapshot): int
    requires ParseSnapshot(raw).Success?
  {
    ParseSnapshot(raw).value.stamp.utc
  }

  ghost predicate Picks(raws: seq<RawSnapshot>, at: nat, p: Point) {
    at < |raws| && FirstAt(raws, at) && ParseSnapshot(raws[at]) == Success(p)
  }

  /** f lists, in order, the positions of all first valid elements, and points are what they parse to. */
  ghost predicate Selects(f: seq<nat>, points: seq<Point>, raws: seq<RawSnapshot>) {
    && |f| == |points|
    && (forall i, j :: 0 <= i < j < |f| ==> f[i] < f[j])
    && (forall i :: 0 <= i < |f| ==> Picks(raws, f[i], points[i]))
    && (forall j :: 0 <= j < |raws| && FirstAt(raws, j) ==> j in f)
  }

  /** points is the series in order, without what is invalid, each instant kept at its first valid element. */
  ghost predicate FirstValid(points: seq<Point>, raws: seq<RawSnapshot>) { exists f :: Selects(f, points, raws) }

  function Points(raws: seq<RawSnapshot>): seq<Point> {
    if raws == [] then [] else
      var before := Points(raws[..|raws| - 1]);
      if Keeps(before, raws[|raws| - 1]) then before + [ParseSnapshot(raws[|raws| - 1]).value] else before
  }

  /** A valid element whose instant has not been seen. */
  predicate Keeps(before: seq<Point>, raw: RawSnapshot) {
    ParseSnapshot(raw).Success? && InstantOf(raw) !in Instants(before)
  }

  function Instants(points: seq<Point>): set<int> { set i | 0 <= i < |points| :: points[i].stamp.utc }

  lemma InstantsExtend(points: seq<Point>, p: Point)
    ensures Instants(points + [p]) == Instants(points) + {p.stamp.utc}
  {
    assert (points + [p])[|points|] == p;
    forall utc | utc in Instants(points)
      ensures utc in Instants(points + [p])
    {
      var i :| 0 <= i < |points| && points[i].stamp.utc == utc;
      assert (points + [p])[i] == points[i];
    }
  }

  lemma FirstAtPrefix(raws: seq<RawSnapshot>, n: nat, j: nat)
    requires j < n <= |raws|
    ensures FirstAt(raws[..n], j) <==> FirstAt(raws, j)
  {
  }

  /** Some first valid element has the instant of any valid one. */
  lemma {:induction false} FirstExists(raws: seq<RawSnapshot>, i: nat) returns (j: nat)
    requires i < |raws| && ParseSnapshot(raws[i]).Success?
    ensures j <= i && FirstAt(raws, j) && InstantOf(raws[j]) == InstantOf(raws[i])
    decreases i
  {
    if k :| 0 <= k < i && ParseSnapshot(raws[k]).Success? && InstantOf(raws[k]) == InstantOf(raws[i]) {
      j := FirstExists(raws, k);
    } else {
      j := i;
    }
  }

  /** Whether the last element is new is what the set of seen instants tells. */
  lemma SeenIff(f: seq<nat>, points: seq<Point>, raws: seq<RawSnapshot>)
    requires raws != [] && Selects(f, points, raws[..|raws| - 1]) && ParseSnapshot(raws[|raws| - 1]).Success?
    ensures InstantOf(raws[|raws| - 1]) in Instants(points) <==> !FirstAt(raws, |raws| - 1)
  {
    var n := |raws| - 1;
    var before, utc := raws[..n], InstantOf(raws[n]);
    if utc in Instants(points) {
      var i :| 0 <= i < |points| && points[i].stamp.utc == utc;
      assert FirstAt(before, f[i]) && before[f[i]] == raws[f[i]];
    }
    if !FirstAt(raws, n) {
      var k :| 0 <= k < n && ParseSnapshot(raws[k]).Success? && InstantOf(raws[k]) == utc;
      assert before[k] == raws[k];
      var j := FirstExists(before, k);
      assert j in f;
      var i :| 0 <= i < |f| && f[i] == j;
      assert points[i].stamp.utc == utc;
    }
  }

  lemma PicksLonger(raws: seq<RawSnapshot>, n: nat, at: nat, p: Point)
    requires n <= |raws| && Picks(raws[..n], at, p)
    ensures Picks(raws, at, p)
  {
  }

  lemma SkipStep(f: seq<nat>, points: seq<Point>, raws: seq<RawSnapshot>)
    requires raws != [] && Selects(f, points, raws[..|raws| - 1]) && !FirstAt(raws, |raws| - 1)
    ensures Selects(f, points, raws)
  {
    var n := |raws| - 1;
    forall i | 0 <= i < |f|
      ensures Picks(raws, f[i], points[i])
    {
      PicksLonger(raws, n, f[i], points[i]);
    }
    forall j | 0 <= j < |raws| && FirstAt(raws, j)
      ensures j in f
    {
      FirstAtPrefix(raws, n, j);
    }
  }

  lemma TakeStep(f: seq<nat>, points: seq<Point>, raws: seq<RawSnapshot>)
    requires raws != [] && Selects(f, points, raws[..|raws| - 1]) && FirstAt(raws, |raws| - 1)
    ensures Selects(f + [|raws| - 1], points + [ParseSnapshot(raws[|raws| - 1]).value], raws)
  {
    var n := |raws| - 1;
    var p := ParseSnapshot(raws[n]).value;
    forall i | 0 <= i < |f| + 1
      ensures Picks(raws, (f + [n])[i], (points + [p])[i])
    {
      if i < |f| {
        PicksLonger(raws, n, f[i], points[i]);
      }
    }
    forall j | 0 <= j < |raws| && FirstAt(raws, j)
      ensures j in f + [n]
    {
      if j < n {
        FirstAtPrefix(raws, n, j);
      }
    }
  }

  /** The loop keeps exactly the first valid element of each instant, in the order of the series. */
  lemma {:induction false} PointsAreFirstValid(raws: seq<RawSnapshot>)
    ensures FirstValid(Points(raws), raws)
  {
    if raws == [] {
      assert Selects([], [], raws);
    } else {
      var n := |raws| - 1;
      PointsAreFirstValid(raws[..n]);
      var f: seq<nat> :| Selects(f, Points(raws[..n]), raws[..n]);
      if ParseSnapshot(raws[n]).Success? {
        SeenIff(f, Points(raws[..n]), raws);
      }
      if FirstAt(raws, n) {
        TakeStep(f, Points(raws[..n]), raws);
      } else {
        SkipStep(f, Points(raws[..n]), raws);
      }
    }
  }

  // ---- the same, said of the fetched elements themselves ----

  /** All required fields are there, positive and uncrossed, and no optional one is an infinity or not a number. */
  predicate Quotable(raw: RawSnapshot) {
    && raw.Dict? && raw.stamp.Some? && raw.bid.Some? && raw.ask.Some? && raw.midpoint.Some?
    && !raw.spread.NotFinite? && !raw.volume.NotFinite?
    && 0.0 < raw.bid.value <= raw.ask.value && 0.0 < raw.midpoint.value
  }

  /** The point has the element's own figures; the spread defaults to the width of the quotes. */
  predicate Quotes(raw: RawSnapshot, p: Point)
    requires Quotable(raw)
  {
    && p.stamp == raw.stamp.value
    && p.bid == raw.bid.value && p.ask == raw.ask.value && p.midpoint == raw.midpoint.value
    && (if raw.spread.Given? then p.spread == raw.spread.value else p.spread == raw.ask.value - raw.bid.value)
    && (if raw.volume.Given? then p.volume == Some(raw.volume.value) else p.volume == None)
  }

  lemma ParsesIff(raw: RawSnapshot)
    ensures ParseSnapshot(raw).Success? <==> Quotable(raw)
    ensures Quotable(raw) ==> Quotes(raw, ParseSnapshot(raw).value)
  {
  }

  /** The first usable element with its instant. */
  ghost predicate FirstOfInstant(raws: seq<RawSnapshot>, j: nat)
    requires j < |raws|
  {
    && Quotable(raws[j])
    && forall i :: 0 <= i < j && Quotable(raws[i]) ==> raws[i].stamp.value.utc != raws[j].stamp.value.utc
  }

  /** f lists, in order, the first usable element of each instant, and points quotes those elements. */
  ghost predicate QuotesAt(f: seq<nat>, points: seq<Point>, raws: seq<RawSnapshot>) {
    && |f| == |points|
    && (forall i, j :: 0 <= i < j < |f| ==> f[i] < f[j])
    && (forall i :: 0 <= i < |f| ==> f[i] < |raws| && FirstOfInstant(raws, f[i]) && Quotes(raws[f[i]], points[i]))
    && (forall j :: 0 <= j < |raws| && FirstOfInstant(raws, j) ==> j in f)
  }

  lemma FirstIff(raws: seq<RawSnapshot>, j: nat)
    requires j < |raws|
    ensures FirstAt(raws, j) <==> FirstOfInstant(raws, j)
  {
    forall i | 0 <= i <= j
      ensures ParseSnapshot(raws[i]).Success? <==> Quotable(raws[i])
      ensures Quotable(raws[i]) ==> InstantOf(raws[i]) == raws[i].stamp.value.utc
    {
      ParsesIff(raws[i]);
    }
  }

  /** The points quote the first usable element of each instant, in the order of the series, and nothing else. */
  lemma PointsQuoteElements(raws: seq<RawSnapshot>) returns (f: seq<nat>)
    ensures QuotesAt(f, Points(raws), raws)
  {
    PointsAreFirstValid(raws);
    f :| Selects(f, Points(raws), raws);
    forall i | 0 <= i < |f|
      ensures f[i] < |raws| && FirstOfInstant(raws, f[i]) && Quotes(raws[f[i]], Points(raws)[i])
    {
      assert Picks(raws, f[i], Points(raws)[i]);
      FirstIff(raws, f[i]);
      ParsesIff(raws[f[i]]);
    }
    forall j | 0 <= j < |raws| && FirstOfInstant(raws, j)
      ensures j in f
    {
      FirstIff(raws, j);
    }
  }

  /** All required fields are there. */
  predicate Full(raw: RawSnapshot) {
    raw.Dict? && raw.stamp.Some? && raw.bid.Some? && raw.ask.Some? && raw.midpoint.Some?
  }

  /** And every figure is finite. */
  predicate Complete(raw: RawSnapshot) { Full(raw) && !raw.spread.NotFinite? && !raw.volume.NotFinite? }

  /** Which reason an unusable element is skipped for: of several, the one checked first. */
  lemma SkipReasons(raw: RawSnapshot)
    requires !Quotable(raw)
    ensures ParseSnapshot(raw) == Failure(INVALID_TIMESTAMP) <==> raw.Dict? && raw.stamp.None?
    ensures ParseSnapshot(raw) == Failure(MALFORMED_RECORD)
            <==> raw.NotADict? || (raw.stamp.Some? && !Complete(raw))
    ensures ParseSnapshot(raw) == Failure(NON_POSITIVE_BID) <==> Complete(raw) && raw.bid.value <= 0.0
    ensures ParseSnapshot(raw) == Failure(NON_POSITIVE_ASK)
            <==> Complete(raw) && raw.bid.value > 0.0 && raw.ask.value <= 0.0
    ensures ParseSnapshot(raw) == Failure(NON_POSITIVE_MIDPOINT)
            <==> Complete(raw) && raw.bid.value > 0.0 && raw.ask.value > 0.0 && raw.midpoint.value <= 0.0
    ensures ParseSnapshot(raw) == Failure(CROSSED_BOOK)
            <==> Complete(raw) && raw.bid.value > raw.ask.value > 0.0 && raw.midpoint.value > 0.0
  {
  }

  /** So the points are sound and no two have the same instant. */
  lemma PointsAreSound(raws: seq<RawSnapshot>)
    ensures forall p :: p in Points(raws) ==> Sound(p)
    ensures forall i, j :: 0 <= i < j < |Points(raws)| ==> Points(raws)[i].stamp.utc != Points(raws)[j].stamp.utc
  {
    PointsAreFirstValid(raws);
    var f: seq<nat> :| Selects(f, Points(raws), raws);
    SelectedAreSound(f, Points(raws), raws);
  }

  lemma SelectedAreSound(f: seq<nat>, points: seq<Point>, raws: seq<RawSnapshot>)
    requires Selects(f, points, raws)
    ensures forall p :: p in points ==> Sound(p)
    ensures forall i, j :: 0 <= i < j < |points| ==> points[i].stamp.utc != points[j].stamp.utc
  {
    forall i, j | 0 <= i < j < |points|
      ensures points[i].stamp.utc != points[j].stamp.utc
    {
      assert FirstAt(raws, f[j]) && f[i] < f[j];
    }
  }

  /** The skip codes of a series, in the order they are reported. */
  function SkipsOf(raws: seq<RawSnapshot>): seq<SkipCode> {
    if raws == [] then [] else
      var n := |raws| - 1;
      SkipsOf(raws[..n]) + FloatSkips(raws[n]) + OwnSkip(Points(raws[..n]), raws[n])
  }

  function OwnSkip(before: seq<Point>, raw: RawSnapshot): seq<SkipCode> {
    match ParseSnapshot(raw)
    case Failure(code) => [code]
    case Success(p) => if p.stamp.utc in Instants(before) then [DUPLICATE_SNAPSHOT] else []
  }

  predicate NotFloat(code: SkipCode) { code != FLOAT_REJECTED }

  lemma FloatSkipsAreFloats(raw: RawSnapshot)
    ensures Filter(FloatSkips(raw), NotFloat) == []
  {
    if FloatSkips(raw) != [] {
      FilterConcat(FloatSkip(raw.spread), FloatSkip(raw.volume), NotFloat);
      assert Filter(FloatSkip(raw.spread), NotFloat) == [] && Filter(FloatSkip(raw.volume), NotFloat) == [];
    }
  }

  lemma KeptOrOwnSkip(before: seq<Point>, raw: RawSnapshot)
    ensures |Filter(OwnSkip(before, raw), NotFloat)| == if Keeps(before, raw) then 0 else 1
  {
    var own := OwnSkip(before, raw);
    if own != [] {
      assert own == [own[0]] && NotFloat(own[0]);
      OneOf(own[0]);
    }
  }

  lemma OneOf(code: SkipCode)
    ensures |Filter([code], NotFloat)| == if NotFloat(code) then 1 else 0
  {
    assert [code][..0] == [];
  }

  lemma SkipsConcat(before: seq<SkipCode>, raw: RawSnapshot, own: seq<SkipCode>)
    ensures |Filter(before + FloatSkips(raw) + own, NotFloat)| == |Filter(before, NotFloat)| + |Filter(own, NotFloat)|
  {
    FloatSkipsAreFloats(raw);
    FilterConcat(before + FloatSkips(raw), own, NotFloat);
    FilterConcat(before, FloatSkips(raw), NotFloat);
  }

  /** Apart from rejected floats, every element of a series is either kept or skipped with one code. */
  lemma {:induction false} KeptOrSkipped(raws: seq<RawSnapshot>)
    ensures |Points(raws)| + |Filter(SkipsOf(raws), NotFloat)| == |raws|
  {
    if raws != [] {
      var n := |raws| - 1;
      KeptOrSkipped(raws[..n]);
      SkipsConcat(SkipsOf(raws[..n]), raws[n], OwnSkip(Points(raws[..n]), raws[n]));
      KeptOrOwnSkip(Points(raws[..n]), raws[n]);
    }
  }

  predicate IsDuplicate(code: SkipCode) { code == DUPLICATE_SNAPSHOT }

  predicate SpreadRejected(raw: RawSnapshot) { Full(raw) && raw.spread.RawFloat? }

  predicate VolumeRejected(raw: RawSnapshot) { Full(raw) && raw.volume.RawFloat? }

  predicate IsFloatSkip(code: SkipCode) { code == FLOAT_REJECTED }

  lemma FloatsOfOne(raw: RawSnapshot)
    ensures Count(FloatSkips(raw), IsFloatSkip)
         == (if SpreadRejected(raw) then 1 else 0) + if VolumeRejected(raw) then 1 else 0
    ensures Count(FloatSkips(raw), IsDuplicate) == 0
  {
    if Full(raw) {
      CountOptional(raw.spread);
      CountOptional(raw.volume);
      CountConcat(FloatSkip(raw.spread), FloatSkip(raw.volume), IsFloatSkip);
      CountConcat(FloatSkip(raw.spread), FloatSkip(raw.volume), IsDuplicate);
    }
  }

  lemma CountOptional(o: Optional)
    ensures Count(FloatSkip(o), IsFloatSkip) == if o.RawFloat? then 1 else 0
    ensures Count(FloatSkip(o), IsDuplicate) == 0
  {
    CountSkip(FLOAT_REJECTED);
  }

  lemma OwnSkipCounts(before: seq<Point>, raw: RawSnapshot)
    ensures Count(OwnSkip(before, raw), IsFloatSkip) == 0
    ensures Count(OwnSkip(before, raw), IsDuplicate) + (if Keeps(before, raw) then 1 else 0)
         == if Quotable(raw) then 1 else 0
  {
    ParsesIff(raw);
    if !Quotable(raw) {
      OwnReason(raw);
      CountSkip(ParseSnapshot(raw).error);
    } else if !Keeps(before, raw) {
      CountSkip(DUPLICATE_SNAPSHOT);
    }
  }

  lemma OwnReason(raw: RawSnapshot)
    requires ParseSnapshot(raw).Failure?
    ensures ParseSnapshot(raw).error != FLOAT_REJECTED && ParseSnapshot(raw).error != DUPLICATE_SNAPSHOT
  {
  }

  lemma CountSkip(code: SkipCode)
    ensures Count([code], IsFloatSkip) == if code == FLOAT_REJECTED then 1 else 0
    ensures Count([code], IsDuplicate) == if code == DUPLICATE_SNAPSHOT then 1 else 0
  {
    CountOneMore([], code, IsFloatSkip);
    CountOneMore([], code, IsDuplicate);
    assert [] + [code] == [code];
  }

  /** Every usable element is kept or reported as a duplicate, and every raw float in a full element is reported. */
  lemma {:induction false} SkipsCounted(raws: seq<RawSnapshot>)
    ensures |Points(raws)| + Count(SkipsOf(raws), IsDuplicate) == Count(raws, Quotable)
    ensures Count(SkipsOf(raws), IsFloatSkip) == Count(raws, SpreadRejected) + Count(raws, VolumeRejected)
  {
    if raws != [] {
      var n := |raws| - 1;
      var before, floats, own := SkipsOf(raws[..n]), FloatSkips(raws[n]), OwnSkip(Points(raws[..n]), raws[n]);
      SkipsCounted(raws[..n]);
      FloatsOfOne(raws[n]);
      OwnSkipCounts(Points(raws[..n]), raws[n]);
      CountThree(before, floats, own, IsDuplicate);
      CountThree(before, floats, own, IsFloatSkip);
    }
  }

  lemma CountThree(a: seq<SkipCode>, b: seq<SkipCode>, c: seq<SkipCode>, p: SkipCode -> bool)
    ensures Count(a + b + c, p) == Count(a, p) + Count(b, p) + Count(c, p)
  {
    CountConcat(a, b, p);
    CountConcat(a + b, c, p);
  }

  /** The codes about a whole market. */
  predicate OfMarket(code: SkipCode) {
    code in {MISSING_TOKEN_ID, MISSING_CONDITION_ID, AMBIGUOUS_OUTCOME, SOURCE_ERROR}
  }

  lemma {:induction false} SeriesSkips(raws: seq<RawSnapshot>)
    ensures forall code :: code in SkipsOf(raws) ==> !OfMarket(code)
  {
    if raws != [] {
      SeriesSkips(raws[..|raws| - 1]);
      OwnSkipOfSeries(Points(raws[..|raws| - 1]), raws[|raws| - 1]);
    }
  }

  lemma OwnSkipOfSeries(before: seq<Point>, raw: RawSnapshot)
    ensures forall code :: code in OwnSkip(before, raw) ==> !OfMarket(code)
  {
  }

  // ---- one market ----

  datatype MarketRecord = MarketRecord(
    tokenId: string, conditionId: string, endDate: Option<int>, points: seq<Point>, outcome: Outcome)

  predicate AcceptsOutcome(o: Outcome) { o.resolved == Some("YES") || o.resolved == Some("NO") }

  /** The record can be constructed: neither amount is an infinity or not a number. */
  predicate Constructs(o: Outcome) { !o.price.NotFinite? && !o.pnl.NotFinite? }

  function SeriesOf(m: RawMarket): seq<RawSnapshot> { if m.fetch.Series? then m.fetch.raws else [] }

  /** The record a raw market becomes, if any; a series that is not a list counts as empty. */
  function RecordOf(m: RawMarket): Option<MarketRecord> {
    if m.tokenId == "" || m.conditionId == "" || !AcceptsOutcome(m.outcome) || m.fetch.Failed? || !Constructs(m.outcome)
    then None
    else Some(MarketRecord(m.tokenId, m.conditionId, m.endDate, Points(SeriesOf(m)), m.outcome))
  }

  /** All skip codes of a market, in the order they are reported. */
  function SkipsFor(m: RawMarket): seq<SkipCode> {
    if m.tokenId == "" then [MISSING_TOKEN_ID]
    else if m.conditionId == "" then [MISSING_CONDITION_ID]
    else
      var floats := FloatSkip(m.outcome.price) + FloatSkip(m.outcome.pnl);
      if !AcceptsOutcome(m.outcome) then floats + [AMBIGUOUS_OUTCOME]
      else if m.fetch.Failed? then floats + [SOURCE_ERROR]
      else
        var listed := if m.fetch.Series? then floats else floats + [MALFORMED_RECORD];
        var parsed := listed + SkipsOf(SeriesOf(m));
        if Constructs(m.outcome) then parsed else parsed + [MALFORMED_RECORD]
  }

  /** The market got as far as its fetch, and that failed. */
  predicate FetchFails(m: RawMarket) {
    m.tokenId != "" && m.conditionId != "" && AcceptsOutcome(m.outcome) && m.fetch.Failed?
  }

  /** Nothing stands in the way of the market's record. */
  predicate Recordable(m: RawMarket) {
    && m.tokenId != "" && m.conditionId != "" && !m.fetch.Failed?
    && (m.outcome.resolved == Some("YES") || m.outcome.resolved == Some("NO"))
    && !m.outcome.price.NotFinite? && !m.outcome.pnl.NotFinite?
  }

  /** Builds one market; a market is a source failure only when its fetch failed. */
  method BuildMarketRecord(m: RawMarket)
    returns (record: Option<MarketRecord>, skips: seq<SkipCode>, sourceFailure: bool)
    ensures record == RecordOf(m) && skips == SkipsFor(m)
    ensures record.Some? <==> Recordable(m)
    ensures record.Some? ==>
              && record.value.tokenId == m.tokenId && record.value.conditionId == m.conditionId
              && record.value.endDate == m.endDate && record.value.outcome == m.outcome
              && exists f :: QuotesAt(f, record.value.points, SeriesOf(m))
    ensures sourceFailure <==>
              && m.tokenId != "" && m.conditionId != "" && m.fetch.Failed?
              && (m.outcome.resolved == Some("YES") || m.outcome.resolved == Some("NO"))
    ensures record.Some? && m.fetch.Series? ==>
              var floats := FloatSkip(m.outcome.price) + FloatSkip(m.outcome.pnl);
              && floats <= skips
              && |record.value.points| + |Filter(skips[|floats|..], NotFloat)| == |m.fetch.raws|
  {
    if m.tokenId == "" {
      return None, [MISSING_TOKEN_ID], false;
    }
    if m.conditionId == "" {
      return None, [MISSING_CONDITION_ID], false;
    }
    skips := FloatSkip(m.outcome.price) + FloatSkip(m.outcome.pnl);
    ghost var floats := skips;
    if !AcceptsOutcome(m.outcome) {
      return None, skips + [AMBIGUOUS_OUTCOME], false;
    }
    if m.fetch.Failed? {
      return None, skips + [SOURCE_ERROR], true;
    }
    if !m.fetch.Series? {
      skips := skips + [MALFORMED_RECORD];
    }
    var points, more := ParseSeries(SeriesOf(m));
    KeptOrSkipped(SeriesOf(m));
    ghost var f := PointsQuoteElements(SeriesOf(m));
    skips := skips + more;
    if !Constructs(m.outcome) {
      return None, skips + [MALFORMED_RECORD], false;
    }
    if m.fetch.Series? {
      assert (floats + more)[|floats|..] == more;
    }
    record, sourceFailure := Some(MarketRecord(m.tokenId, m.conditionId, m.endDate, points, m.outcome)), false;
  }

  /** Which of the market's own faults is reported: the first of a missing token, condition, outcome and fetch. */
  lemma MarketSkips(m: RawMarket)
    ensures var clear := m.outcome.resolved == Some("YES") || m.outcome.resolved == Some("NO");
            && (MISSING_TOKEN_ID in SkipsFor(m) <==> m.tokenId == "")
            && (MISSING_CONDITION_ID in SkipsFor(m) <==> m.tokenId != "" && m.conditionId == "")
            && (AMBIGUOUS_OUTCOME in SkipsFor(m) <==> m.tokenId != "" && m.conditionId != "" && !clear)
            && (SOURCE_ERROR in SkipsFor(m) <==> m.tokenId != "" && m.conditionId != "" && clear && m.fetch.Failed?)
  {
    SeriesSkips(SeriesOf(m));
    assert forall code :: code in FloatSkip(m.outcome.price) + FloatSkip(m.outcome.pnl) ==> !OfMarket(code);
  }

  /** The parse and de-duplicate loop. */
  method ParseSeries(raws: seq<RawSnapshot>) returns (points: seq<Point>, skips: seq<SkipCode>)
    ensures points == Points(raws) && skips == SkipsOf(raws)
  {
    points, skips := [], [];
    var seen: set<int> := {};
    for i := 0 to |raws|
      invariant points == Points(raws[..i]) && seen == Instants(points) && skips == SkipsOf(raws[..i])
    {
      SeriesStep(raws, i);
      var own: seq<SkipCode>;
      own, points, seen := KeepOrSkip(points, seen, raws[i]);
      skips := skips + FloatSkips(raws[i]) + own;
    }
    assert raws[..|raws|] == raws;
  }

  lemma SeriesStep(raws: seq<RawSnapshot>, i: nat)
    requires i < |raws|
    ensures var before := Points(raws[..i]);
            && Points(raws[..i + 1])
               == (if Keeps(before, raws[i]) then before + [ParseSnapshot(raws[i]).value] else before)
            && SkipsOf(raws[..i + 1]) == SkipsOf(raws[..i]) + FloatSkips(raws[i]) + OwnSkip(before, raws[i])
  {
    assert raws[..i + 1][..i] == raws[..i];
  }

  /** The body of the loop: a valid element with a new instant is kept, anything else is skipped. */
  method KeepOrSkip(points0: seq<Point>, seen0: set<int>, raw: RawSnapshot)
    returns (own: seq<SkipCode>, points: seq<Point>, seen: set<int>)
    requires seen0 == Instants(points0)
    ensures own == OwnSkip(points0, raw) && seen == Instants(points)
    ensures points == if Keeps(points0, raw) then points0 + [ParseSnapshot(raw).value] else points0
  {
    own, points, seen := [], points0, seen0;
    match ParseSnapshot(raw) {
      case Failure(code) => own := [code];
      case Success(p) =>
        if p.stamp.utc in seen {
          own := [DUPLICATE_SNAPSHOT];
        } else {
          InstantsExtend(points, p);
          seen, points := seen + {p.stamp.utc}, points + [p];
        }
    }
  }

  // ---- files ----

  /** A kept point together with the market it belongs to. */
  datatype Kept = Kept(tokenId: string, conditionId: string, endDate: Option<int>, point: Point)

  function FileName(token: string, date: DateKey): string { token + "_" + date + EXTENSION }

  function FileOf(k: Kept): string { FileName(k.tokenId, k.point.stamp.date) }

  function OutcomesName(token: string): string { token + "_outcomes.json" }

  const MANIFEST := "manifest.json"

  /** Only what was observable at the time: no outcome field is written. */
  function SnapshotToDict(k: Kept): Record {
    var base := map[
      "token_id" := Str(k.tokenId), "condition_id" := Str(k.conditionId),
      "timestamp_utc" := Time(k.point.stamp.utc), "best_bid" := Number(k.point.bid),
      "best_ask" := Number(k.point.ask), "midpoint" := Number(k.point.midpoint), "spread" := Number(k.point.spread)];
    var dated := if k.endDate.Some? then base["market_end_date" := Time(k.endDate.value)] else base;
    Object(if k.point.volume.Some? then dated["volume_24h" := Number(k.point.volume.value)] else dated)
  }

  function KeptOf(r: MarketRecord): (ks: seq<Kept>)
    ensures |ks| == |r.points|
    ensures forall i :: 0 <= i < |ks| ==> ks[i] == Kept(r.tokenId, r.conditionId, r.endDate, r.points[i])
  {
    seq(|r.points|, i requires 0 <= i < |r.points| => Kept(r.tokenId, r.conditionId, r.endDate, r.points[i]))
  }

  function Contents(dir: Directory, name: string): seq<Record> {
    if name in dir && dir[name].Records? then dir[name].records else []
  }

  /** The dicts of those kept points that belong in the named file, in order. */
  function DictsFor(ks: seq<Kept>, name: string): seq<Record> {
    if ks == [] then [] else
      var k := ks[|ks| - 1];
      DictsFor(ks[..|ks| - 1], name) + if FileOf(k) == name then [SnapshotToDict(k)] else []
  }

  function Names(ks: seq<Kept>): set<string> { set i | 0 <= i < |ks| :: FileOf(ks[i]) }

  /** The directory once the points are appended to their files. */
  function WithPoints(dir: Directory, ks: seq<Kept>): Directory {
    map name | name in dir.Keys + Names(ks) ::
      if name in Names(ks) then Records(Contents(dir, name) + DictsFor(ks, name)) else dir[name]
  }

  /** The resolution data of a market, as one object. */
  function OutcomeFile(r: MarketRecord): File {
    var base := map["token_id" := Str(r.tokenId), "condition_id" := Str(r.conditionId)];
    var dated := if r.endDate.Some? then base["market_end_date" := Time(r.endDate.value)] else base;
    var o := r.outcome;
    var resolved := if o.resolved.Some? then dated["resolved_outcome" := Str(o.resolved.value)] else dated;
    var priced := if o.price.Given? then resolved["resolved_outcome_price" := Number(o.price.value)] else resolved;
    SingleObject(if o.pnl.Given? then priced["realized_pnl_usdc" := Number(o.pnl.value)] else priced)
  }

  predicate Writes(record: Option<MarketRecord>) { record.Some? && record.value.points != [] }

  function WithMarket(dir: Directory, m: RawMarket): Directory {
    if !Writes(RecordOf(m)) then dir
    else WithPoints(dir, KeptOf(RecordOf(m).value))[OutcomesName(m.tokenId) := OutcomeFile(RecordOf(m).value)]
  }

  function WithMarkets(ms: seq<RawMarket>): Directory {
    if ms == [] then map[] else WithMarket(WithMarkets(ms[..|ms| - 1]), ms[|ms| - 1])
  }

  function Built(ms: seq<RawMarket>): Directory { WithMarkets(ms)[MANIFEST := SingleObject(map[])] }

  class DatasetBuilder {
    var files: Directory

    /** Starts on an empty output directory. */
    constructor ()
      ensures files == map[]
    {
      files := map[];
    }

    /** Groups the points by date, then merges each group into its file. */
    method WriteSnapshotFiles(r: MarketRecord) returns (count: nat)
      modifies this
      ensures files == WithPoints(old(files), KeptOf(r))
      ensures count == |r.points|
    {
      var grouped := GroupByDate(r.tokenId, KeptOf(r));
      ghost var before := files;
      MergeGroups(r.tokenId, grouped);
      MergedAll(before, files, r.tokenId, KeptOf(r), grouped);
      count := |r.points|;
    }

    method MergeGroups(token: string, grouped: map<DateKey, seq<Record>>)
      modifies this
      ensures Merged(old(files), files, token, grouped, grouped.Keys)
    {
      var dates := grouped.Keys;
      ghost var before := files;
      MergedNone(before, token, grouped);
      assert grouped.Keys - dates == {};
      while dates != {}
        invariant dates <= grouped.Keys
        invariant Merged(before, files, token, grouped, grouped.Keys - dates)
      {
        var d :| d in dates;
        MergeDate(token, grouped, d, before, dates);
        dates := dates - {d};
      }
      assert grouped.Keys - dates == grouped.Keys;
    }

    /** Merges one date out of those left. */
    method MergeDate(
        token: string, grouped: map<DateKey, seq<Record>>, d: DateKey,
        ghost before: Directory, ghost left: set<DateKey>)
      requires d in left && left <= grouped.Keys && Merged(before, files, token, grouped, grouped.Keys - left)
      modifies this
      ensures Merged(before, files, token, grouped, grouped.Keys - (left - {d}))
    {
      MergeStep(before, files, token, grouped, grouped.Keys - left, d);
      MergeInto(FileName(token, d), grouped[d]);
      assert grouped.Keys - (left - {d}) == grouped.Keys - left + {d};
    }

    /** Appends to a file that may already exist. */
    method MergeInto(name: string, group: seq<Record>)
      modifies this
      ensures files == old(files)[name := Records(Contents(old(files), name) + group)]
    {
      var existing := Contents(files, name);
      files := files[name := Records(existing + group)];
    }

    static method GroupByDate(token: string, ks: seq<Kept>) returns (grouped: map<DateKey, seq<Record>>)
      requires forall k :: k in ks ==> k.tokenId == token
      ensures GroupedBy(grouped, token, ks)
    {
      grouped := map[];
      for i := 0 to |ks|
        invariant GroupedBy(grouped, token, ks[..i])
      {
        var d := ks[i].point.stamp.date;
        GroupStep(grouped, token, ks[..i], ks[i]);
        assert ks[..i + 1] == ks[..i] + [ks[i]];
        grouped := grouped[d := (if d in grouped then grouped[d] else []) + [SnapshotToDict(ks[i])]];
      }
      assert ks[..|ks|] == ks;
    }

    /** One file, apart from the snapshots. */
    method WriteOutcomesFile(r: MarketRecord)
      modifies this
      ensures files == old(files)[OutcomesName(r.tokenId) := OutcomeFile(r)]
    {
      files := files[OutcomesName(r.tokenId) := OutcomeFile(r)];
    }

    /** A market without snapshots writes nothing. */
    method AddMarket(m: RawMarket) returns (sourceFailure: bool)
      modifies this
      ensures files == WithMarket(old(files), m) && sourceFailure == FetchFails(m)
    {
      var record, skips, failed := BuildMarketRecord(m);
      if record.Some? && |record.value.points| > 0 {
        var count := WriteSnapshotFiles(record.value);
        WriteOutcomesFile(record.value);
      }
      sourceFailure := failed;
    }

    method Build(ms: seq<RawMarket>) returns (sourceFailure: bool)
      requires files == map[]
      modifies this
      ensures files == Built(ms)
      ensures sourceFailure <==> exists m :: m in ms && FetchFails(m)
    {
      sourceFailure := false;
      for i := 0 to |ms|
        invariant files == WithMarkets(ms[..i])
        invariant sourceFailure <==> exists m :: m in ms[..i] && FetchFails(m)
      {
        assert ms[..i + 1] == ms[..i] + [ms[i]];
        var failed := AddMarket(ms[i]);
        sourceFailure := sourceFailure || failed;
      }
      assert ms[..|ms|] == ms;
      files := files[MANIFEST := SingleObject(map[])];
    }
  }

  // ---- proofs about grouping and merging ----

  lemma FileNameInjective(a: string, d: DateKey, b: string, e: DateKey)
    ensures FileName(a, d) == FileName(b, e) <==> a == b && d == e
  {
    if FileName(a, d) == FileName(b, e) {
      var n := |FileName(a, d)| - SUFFIX_LENGTH;
      assert a == FileName(a, d)[..n] && b == FileName(b, e)[..n];
      assert d == FileName(a, d)[n + 1..n + 11] && e == FileName(b, e)[n + 1..n + 11];
    }
  }

  /** Each date holds the dicts for its file, in order. */
  ghost predicate GroupedBy(grouped: map<DateKey, seq<Record>>, token: string, ks: seq<Kept>) {
    forall d: DateKey ::
      && (d in grouped <==> FileName(token, d) in Names(ks))
      && (d in grouped ==> grouped[d] == DictsFor(ks, FileName(token, d)))
  }

  lemma GroupStep(grouped: map<DateKey, seq<Record>>, token: string, ks: seq<Kept>, k: Kept)
    requires GroupedBy(grouped, token, ks) && k.tokenId == token
    ensures var d := k.point.stamp.date;
            GroupedBy(grouped[d := (if d in grouped then grouped[d] else []) + [SnapshotToDict(k)]], token, ks + [k])
  {
    NamesExtend(ks, k);
    assert (ks + [k])[..|ks|] == ks;
    forall d: DateKey
      ensures FileName(token, d) == FileOf(k) <==> d == k.point.stamp.date
      ensures DictsFor(ks + [k], FileName(token, d))
           == DictsFor(ks, FileName(token, d)) + if d == k.point.stamp.date then [SnapshotToDict(k)] else []
    {
      FileNameInjective(token, d, token, k.point.stamp.date);
    }
    NoDicts(ks, FileOf(k));
  }

  lemma NamesExtend(ks: seq<Kept>, k: Kept)
    ensures Names(ks + [k]) == Names(ks) + {FileOf(k)}
  {
    var all := ks + [k];
    forall name | name in Names(ks) + {FileOf(k)}
      ensures name in Names(all)
    {
      if name == FileOf(k) {
        assert all[|ks|] == k;
      } else {
        var i :| 0 <= i < |ks| && FileOf(ks[i]) == name;
        assert all[i] == ks[i];
      }
    }
  }

  lemma {:induction false} NoDicts(ks: seq<Kept>, name: string)
    ensures name !in Names(ks) <==> DictsFor(ks, name) == []
  {
    if ks != [] {
      var n := |ks| - 1;
      NoDicts(ks[..n], name);
      NamesExtend(ks[..n], ks[n]);
      DictsOneMore(ks[..n], ks[n], name);
      assert ks == ks[..n] + [ks[n]];
    }
  }

  lemma DictsOneMore(ks: seq<Kept>, k: Kept, name: string)
    ensures DictsFor(ks + [k], name) == [] <==> DictsFor(ks, name) == [] && FileOf(k) != name
  {
    assert (ks + [k])[..|ks|] == ks;
  }

  /** The date part of a snapshot file name. */
  function DateIn(name: string): string {
    if |name| < SUFFIX_LENGTH then "" else name[|name| - 15..|name| - 5]
  }

  lemma DateInFileName(token: string, date: DateKey)
    ensures DateIn(FileName(token, date)) == date
  {
  }

  /** The name is this token's file for one of the dates. */
  predicate Covers(name: string, token: string, dates: set<DateKey>) {
    var d := DateIn(name);
    IsDate(d) && d in dates && name == FileName(token, d)
  }

  /** Merging the groups of the given dates turned what before held at name into what after holds there. */
  ghost predicate MergedAt(
      before: Directory, after: Directory, token: string, grouped: map<DateKey, seq<Record>>, dates: set<DateKey>,
      name: string)
    requires dates <= grouped.Keys
  {
    if Covers(name, token, dates)
    then name in after && after[name] == Records(Contents(before, name) + grouped[DateIn(name)])
    else (name in after <==> name in before) && (name in before ==> after[name] == before[name])
  }

  ghost predicate Merged(
      before: Directory, after: Directory, token: string, grouped: map<DateKey, seq<Record>>, dates: set<DateKey>)
    requires dates <= grouped.Keys
  {
    forall name :: MergedAt(before, after, token, grouped, dates, name)
  }

  lemma MergedNone(before: Directory, token: string, grouped: map<DateKey, seq<Record>>)
    ensures Merged(before, before, token, grouped, {})
  {
  }

  lemma CoversOneMore(name: string, token: string, dates: set<DateKey>, d: DateKey)
    ensures Covers(name, token, dates + {d}) <==> Covers(name, token, dates) || name == FileName(token, d)
  {
    DateInFileName(token, d);
  }

  /** Appending one more group to its file. */
  lemma MergeStep(
      before: Directory, current: Directory, token: string, grouped: map<DateKey, seq<Record>>, dates: set<DateKey>,
      d: DateKey)
    requires dates <= grouped.Keys && d in grouped && d !in dates && Merged(before, current, token, grouped, dates)
    ensures var name := FileName(token, d);
            Merged(before, current[name := Records(Contents(current, name) + grouped[d])], token, grouped, dates + {d})
  {
    var target := FileName(token, d);
    DateInFileName(token, d);
    assert MergedAt(before, current, token, grouped, dates, target);
    assert Contents(current, target) == Contents(before, target);
    var next := current[target := Records(Contents(current, target) + grouped[d])];
    forall name
      ensures MergedAt(before, next, token, grouped, dates + {d}, name)
    {
      CoversOneMore(name, token, dates, d);
      assert MergedAt(before, current, token, grouped, dates, name);
    }
  }

  lemma MergedValue(token: string, ks: seq<Kept>, grouped: map<DateKey, seq<Record>>, name: string)
    requires GroupedBy(grouped, token, ks) && forall k :: k in ks ==> k.tokenId == token
    ensures Covers(name, token, grouped.Keys) <==> name in Names(ks)
    ensures name in Names(ks) ==>
              IsDate(DateIn(name)) && DateIn(name) in grouped && grouped[DateIn(name)] == DictsFor(ks, name)
  {
    if name in Names(ks) {
      var i :| 0 <= i < |ks| && FileOf(ks[i]) == name;
      assert ks[i] in ks;
      DateInFileName(token, ks[i].point.stamp.date);
    }
  }

  lemma MergedAll(
      before: Directory, after: Directory, token: string, ks: seq<Kept>, grouped: map<DateKey, seq<Record>>)
    requires GroupedBy(grouped, token, ks) && (forall k :: k in ks ==> k.tokenId == token)
    requires Merged(before, after, token, grouped, grouped.Keys)
    ensures after == WithPoints(before, ks)
  {
    var points := WithPoints(before, ks);
    forall name
      ensures name in after <==> name in points
      ensures name in after && name in points ==> after[name] == points[name]
    {
      MergedValue(token, ks, grouped, name);
      assert MergedAt(before, after, token, grouped, grouped.Keys, name);
    }
  }
}
