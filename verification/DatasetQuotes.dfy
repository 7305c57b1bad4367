/** The dataset's round trip said of the fetched elements, and what the files hold beyond what the loader reads. */
module DatasetQuotes {
  import opened Wrappers
  import opened Sequences
  import opened Sorting
  import opened Text
  import opened BacktestData
  import opened HistoricalDataset
  import opened DatasetRoundTrip

  // ---- each loaded snapshot is a fetched element, and each usable element is loaded ----

  /** The snapshot has this element's instant and quotes, and nothing of the outcome. */
  predicate Shows(raw: RawSnapshot, token: string, s: Snapshot) {
    && Quotable(raw) && s.tokenId == token && s.timestampUtc == raw.stamp.value.utc
    && s.bestBid == raw.bid.value && s.bestAsk == raw.ask.value && s.midpoint == raw.midpoint.value
    && s.realizedPnl == 0.0 && !s.outcomeResolved
  }

  /** The snapshot shows element j of the market's series, the first usable one of its instant. */
  ghost predicate Fetched(m: RawMarket, j: nat, s: Snapshot) {
    && Recordable(m) && m.fetch.Series? && j < |m.fetch.raws|
    && FirstOfInstant(m.fetch.raws, j) && Shows(m.fetch.raws[j], m.tokenId, s)
  }

  ghost predicate FetchedFrom(m: RawMarket, s: Snapshot) { exists j: nat :: Fetched(m, j, s) }

  lemma {:induction false} InReadBack(w: Window, ks: seq<Kept>, s: Snapshot)
    ensures s in ReadBack(w, ks) <==> exists k :: k in ks && Readable(w, k) && AsSnapshot(k) == s
  {
    if ks != [] {
      var n := |ks| - 1;
      InReadBack(w, ks[..n], s);
      assert ks == ks[..n] + [ks[n]];
    }
  }

  /** The point is kept from this market. */
  predicate KeptFrom(m: RawMarket, k: Kept) { Writes(RecordOf(m)) && k in KeptOf(RecordOf(m).value) }

  lemma {:induction false} InAllKept(ms: seq<RawMarket>, k: Kept)
    ensures k in AllKept(ms) <==> exists m :: m in ms && KeptFrom(m, k)
  {
    if ms != [] {
      var n := |ms| - 1;
      InAllKept(ms[..n], k);
      assert ms == ms[..n] + [ms[n]];
      assert k in AllKept(ms) <==> k in AllKept(ms[..n]) || KeptFrom(ms[n], k);
      assert forall m :: m in ms <==> m in ms[..n] || m == ms[n];
    }
  }

  lemma RecordOfRecordable(m: RawMarket)
    ensures RecordOf(m).Some? <==> Recordable(m)
    ensures RecordOf(m).Some? ==>
              RecordOf(m).value == MarketRecord(m.tokenId, m.conditionId, m.endDate, Points(SeriesOf(m)), m.outcome)
  {
  }

  lemma KeptIsFetched(m: RawMarket, k: Kept)
    requires KeptFrom(m, k)
    ensures FetchedFrom(m, AsSnapshot(k)) && k.tokenId == m.tokenId
  {
    RecordOfRecordable(m);
    var f := PointsQuoteElements(SeriesOf(m));
    var ks := KeptOf(RecordOf(m).value);
    var i :| 0 <= i < |ks| && ks[i] == k;
    assert FirstOfInstant(SeriesOf(m), f[i]) && Quotes(SeriesOf(m)[f[i]], k.point);
    assert Fetched(m, f[i], AsSnapshot(k));
  }

  lemma FetchedIsKept(m: RawMarket, j: nat, s: Snapshot) returns (k: Kept)
    requires Fetched(m, j, s)
    ensures KeptFrom(m, k) && AsSnapshot(k) == s
  {
    RecordOfRecordable(m);
    var f := PointsQuoteElements(m.fetch.raws);
    assert j in f;
    var i :| 0 <= i < |f| && f[i] == j;
    k := KeptOf(RecordOf(m).value)[i];
    assert k in KeptOf(RecordOf(m).value);
  }

  /**
   * From fetch to replay, in any date window: a snapshot is loaded exactly when it shows the instant
   * and quotes of the first usable element of that instant in the series of a recordable market, the
   * token has no line feed, and the instant lies in the window.
   */
  lemma LoadedIffFetched(w: Window, ms: seq<RawMarket>, s: Snapshot)
    ensures Loaded(w, Built(ms)).Success?
    ensures s in Loaded(w, Built(ms)).value
            <==> && All(s.tokenId, NotNewline) && Within(w, s.timestampUtc)
                 && exists m :: m in ms && FetchedFrom(m, s)
  {
    LoadsWhatWasBuilt(w, ms);
    var loaded := Loaded(w, Built(ms)).value;
    assert s in loaded <==> s in multiset(loaded);
    assert s in ReadBack(w, AllKept(ms)) <==> s in multiset(ReadBack(w, AllKept(ms)));
    InReadBack(w, AllKept(ms), s);
    if s in loaded {
      var k :| k in AllKept(ms) && Readable(w, k) && AsSnapshot(k) == s;
      InAllKept(ms, k);
      var m :| m in ms && KeptFrom(m, k);
      KeptIsFetched(m, k);
    }
    if All(s.tokenId, NotNewline) && Within(w, s.timestampUtc) && exists m :: m in ms && FetchedFrom(m, s) {
      var m :| m in ms && FetchedFrom(m, s);
      var j: nat :| Fetched(m, j, s);
      var k := FetchedIsKept(m, j, s);
      InAllKept(ms, k);
      KeptAreSound(ms);
    }
  }

  // ---- what the files say besides ----

  const OBSERVABLE := {
    "token_id", "condition_id", "timestamp_utc", "best_bid", "best_ask", "midpoint", "spread", "market_end_date",
    "volume_24h"}

  /** A snapshot's dict names its token, market and figures. */
  lemma DictFields(k: Kept)
    ensures var f := SnapshotToDict(k).fields;
            && f.Keys >= {"token_id", "condition_id", "timestamp_utc", "best_bid", "best_ask", "midpoint", "spread"}
            && f["token_id"] == Str(k.tokenId) && f["condition_id"] == Str(k.conditionId)
            && f["timestamp_utc"] == Time(k.point.stamp.utc)
            && f["best_bid"] == Number(k.point.bid) && f["best_ask"] == Number(k.point.ask)
            && f["midpoint"] == Number(k.point.midpoint) && f["spread"] == Number(k.point.spread)
  {
  }

  /** Of the rest only the end date and the volume can be there: no key tells how the market ended. */
  lemma DictHasNoOutcome(k: Kept)
    ensures var f := SnapshotToDict(k).fields;
            && f.Keys <= OBSERVABLE
            && "resolved_outcome" !in f && "resolved_outcome_price" !in f && "realized_pnl_usdc" !in f
            && (if k.endDate.Some? then "market_end_date" in f && f["market_end_date"] == Time(k.endDate.value)
                else "market_end_date" !in f)
            && (if k.point.volume.Some? then "volume_24h" in f && f["volume_24h"] == Number(k.point.volume.value)
                else "volume_24h" !in f)
  {
  }

  /** The dict is this kept point's, and the named file is the one it belongs in. */
  function DictIn(name: string): (Kept, Record) -> bool {
    (k: Kept, d: Record) => d == SnapshotToDict(k) && k.tokenId + "_" + k.point.stamp.date + ".json" == name
  }

  lemma {:induction false} DictsInOrder(ks: seq<Kept>, name: string) returns (at: seq<nat>)
    ensures Accompanies(at, ks, DictsFor(ks, name), DictIn(name))
    ensures forall j :: 0 <= j < |ks| && FileOf(ks[j]) == name ==> j in at
  {
    at := [];
    if ks != [] {
      var n := |ks| - 1;
      at := DictsInOrder(ks[..n], name);
      assert ks == ks[..n] + [ks[n]];
      if FileOf(ks[n]) == name {
        PlacesMore(at, ks[..n], ks[n], DictsFor(ks[..n], name), SnapshotToDict(ks[n]), DictIn(name));
        at := at + [n];
      } else {
        PlacesLonger(at, ks[..n], ks[n], DictsFor(ks[..n], name), DictIn(name));
      }
    }
  }

  /**
   * The file of a token and a date holds, in the order they were kept, the dicts of the points kept for
   * that token on that date, from whichever markets they come.
   */
  lemma FileAsWritten(ms: seq<RawMarket>, token: string, date: DateKey) returns (at: seq<nat>)
    requires FileName(token, date) in Built(ms)
    ensures Built(ms)[FileName(token, date)].Records?
    ensures Accompanies(at, AllKept(ms), Built(ms)[FileName(token, date)].records, DictIn(FileName(token, date)))
    ensures forall j :: 0 <= j < |AllKept(ms)| ==>
              (j in at <==> AllKept(ms)[j].tokenId == token && AllKept(ms)[j].point.stamp.date == date)
  {
    var ks, name := AllKept(ms), FileName(token, date);
    BuiltHoldsExactly(ms);
    at := DictsInOrder(ks, name);
    forall j | 0 <= j < |ks|
      ensures j in at <==> ks[j].tokenId == token && ks[j].point.stamp.date == date
    {
      FileNameInjective(ks[j].tokenId, ks[j].point.stamp.date, token, date);
      assert FileOf(ks[j]) == ks[j].tokenId + "_" + ks[j].point.stamp.date + ".json";
    }
  }

  /** The market's own outcomes object: each part of the outcome is there exactly when it was given. */
  predicate Reports(m: RawMarket, f: map<string, Field>) {
    && "token_id" in f && f["token_id"] == Str(m.tokenId)
    && "condition_id" in f && f["condition_id"] == Str(m.conditionId)
    && (if m.endDate.Some? then "market_end_date" in f && f["market_end_date"] == Time(m.endDate.value)
        else "market_end_date" !in f)
    && (if m.outcome.resolved.Some?
        then "resolved_outcome" in f && f["resolved_outcome"] == Str(m.outcome.resolved.value)
        else "resolved_outcome" !in f)
    && (if m.outcome.price.Given?
        then "resolved_outcome_price" in f && f["resolved_outcome_price"] == Number(m.outcome.price.value)
        else "resolved_outcome_price" !in f)
    && (if m.outcome.pnl.Given?
        then "realized_pnl_usdc" in f && f["realized_pnl_usdc"] == Number(m.outcome.pnl.value)
        else "realized_pnl_usdc" !in f)
  }

  /** The market is recordable and at least one element of its series is usable. */
  ghost predicate Contributes(m: RawMarket) {
    Recordable(m) && m.fetch.Series? && exists j :: 0 <= j < |m.fetch.raws| && Quotable(m.fetch.raws[j])
  }

  lemma ContributesIff(m: RawMarket)
    ensures Contributes(m) <==> Writes(RecordOf(m))
  {
    RecordOfRecordable(m);
    var f := PointsQuoteElements(SeriesOf(m));
    if Contributes(m) {
      var j :| 0 <= j < |m.fetch.raws| && Quotable(m.fetch.raws[j]);
      ParsesIff(m.fetch.raws[j]);
      var first := FirstExists(m.fetch.raws, j);
      FirstIff(m.fetch.raws, first);
      assert first in f;
    }
    if Writes(RecordOf(m)) {
      assert FirstOfInstant(SeriesOf(m), f[0]);
    }
  }

  lemma OutcomeReported(m: RawMarket)
    requires RecordOf(m).Some?
    ensures OutcomeFile(RecordOf(m).value).SingleObject? && Reports(m, OutcomeFile(RecordOf(m).value).fields)
  {
  }

  lemma OutcomesNameInjective(a: string, b: string)
    ensures OutcomesName(a) == OutcomesName(b) <==> a == b
  {
    if OutcomesName(a) == OutcomesName(b) {
      assert a == OutcomesName(a)[..|OutcomesName(a)| - 14] && b == OutcomesName(b)[..|OutcomesName(b)| - 14];
    }
  }

  /** One more market leaves the outcomes of other tokens alone. */
  lemma OutcomesKept(dir: Directory, m: RawMarket, token: string)
    requires m.tokenId != token && OutcomesName(token) in dir
    ensures OutcomesName(token) in WithMarket(dir, m)
    ensures WithMarket(dir, m)[OutcomesName(token)] == dir[OutcomesName(token)]
  {
    OutcomesNameInjective(m.tokenId, token);
    OutcomesNeverMatch(token);
    if Writes(RecordOf(m)) {
      var ks := KeptOf(RecordOf(m).value);
      if OutcomesName(token) in Names(ks) {
        var t, d := NamesAreSnapshotNames(ks, OutcomesName(token));
      }
    }
  }

  lemma {:induction false} OutcomesInMarkets(ms: seq<RawMarket>, i: nat)
    requires i < |ms| && Contributes(ms[i])
    requires forall j :: i < j < |ms| && Contributes(ms[j]) ==> ms[j].tokenId != ms[i].tokenId
    ensures var name := OutcomesName(ms[i].tokenId);
            && name in WithMarkets(ms)
            && WithMarkets(ms)[name].SingleObject? && Reports(ms[i], WithMarkets(ms)[name].fields)
  {
    var n := |ms| - 1;
    ContributesIff(ms[n]);
    if i == n {
      OutcomeReported(ms[n]);
    } else {
      OutcomesInMarkets(ms[..n], i);
      if Contributes(ms[n]) {
        OutcomesKept(WithMarkets(ms[..n]), ms[n], ms[i].tokenId);
      }
    }
  }

  /** How a market ended is on record under its token, as the last contributing market of that token has it. */
  lemma OutcomesRecorded(ms: seq<RawMarket>, i: nat)
    requires i < |ms| && Contributes(ms[i])
    requires forall j :: i < j < |ms| && Contributes(ms[j]) ==> ms[j].tokenId != ms[i].tokenId
    ensures var name := ms[i].tokenId + "_outcomes.json";
            && name in Built(ms) && Built(ms)[name].SingleObject? && Reports(ms[i], Built(ms)[name].fields)
  {
    OutcomesInMarkets(ms, i);
    assert OutcomesName(ms[i].tokenId)[|OutcomesName(ms[i].tokenId)| - 6] == 's';
    assert MANIFEST[|MANIFEST| - 6] == 't';
  }
}
