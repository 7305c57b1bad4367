/** What the builder writes, the loader reads back; what is known only afterwards never leaks in. */
module DatasetRoundTrip {
  import opened Wrappers
  import opened Sequences
  import opened Sorting
  import opened Text
  import opened BacktestData
  import opened HistoricalDataset

  /** Every point of every written market, in writing order. */
  function AllKept(ms: seq<RawMarket>): seq<Kept> {
    if ms == [] then [] else
      var record := RecordOf(ms[|ms| - 1]);
      AllKept(ms[..|ms| - 1]) + if Writes(record) then KeptOf(record.value) else []
  }

  /** The snapshot a kept point should come back as: observable fields only, outcome unresolved. */
  function AsSnapshot(k: Kept): Snapshot {
    Snapshot(k.tokenId, k.point.stamp.utc, k.point.bid, k.point.ask, k.point.midpoint, 0.0, false)
  }

  /** The loader recognises the token's files, and the instant lies in the date window. */
  predicate Readable(w: Window, k: Kept) {
    k.tokenId != "" && All(k.tokenId, NotNewline) && Within(w, k.point.stamp.utc)
  }

  function ReadBack(w: Window, ks: seq<Kept>): seq<Snapshot> {
    if ks == [] then [] else
      var k := ks[|ks| - 1];
      ReadBack(w, ks[..|ks| - 1]) + if Readable(w, k) then [AsSnapshot(k)] else []
  }

  function AsSnapshots(ks: seq<Kept>): seq<Snapshot> {
    if ks == [] then [] else AsSnapshots(ks[..|ks| - 1]) + [AsSnapshot(ks[|ks| - 1])]
  }

  // ---- names ----

  lemma SnapshotNameMatches(token: string, date: DateKey)
    ensures MatchName(FileName(token, date)) == if token != "" && All(token, NotNewline) then Some(token) else None
    ensures HasExtension(FileName(token, date))
  {
    var name := FileName(token, date);
    var n := |token|;
    assert name[..n] == token;
    assert name[n + 1..n + 11] == date;
    assert name[n + 11..] == EXTENSION;
  }

  lemma OutcomesNeverMatch(token: string)
    ensures MatchName(OutcomesName(token)) == None && MatchName(MANIFEST) == None
    ensures forall t, d: DateKey :: FileName(t, d) != OutcomesName(token) && FileName(t, d) != MANIFEST
  {
    var name := OutcomesName(token);
    assert name[|name| - 6] == 's';
    assert MANIFEST[|MANIFEST| - 6] == 't';
    forall t, d: DateKey
      ensures FileName(t, d) != name && FileName(t, d) != MANIFEST
    {
      assert FileName(t, d)[|FileName(t, d)| - 6] == d[9];
    }
  }

  // ---- what the directory holds ----

  ghost predicate HoldsPoints(dir: Directory, ks: seq<Kept>) {
    forall name :: name in Names(ks) ==> name in dir && dir[name] == Records(DictsFor(ks, name))
  }

  ghost predicate OthersUnmatched(dir: Directory, ks: seq<Kept>) {
    && (forall name :: name in dir && name !in Names(ks) ==> MatchName(name) == None)
    && (forall t, d: DateKey :: FileName(t, d) in dir ==> FileName(t, d) in Names(ks))
  }

  /** The snapshot files are exactly those of the kept points; nothing else matches the pattern. */
  ghost predicate HoldsExactly(dir: Directory, ks: seq<Kept>) { HoldsPoints(dir, ks) && OthersUnmatched(dir, ks) }

  lemma {:induction false} DictsConcat(a: seq<Kept>, b: seq<Kept>, name: string)
    ensures DictsFor(a + b, name) == DictsFor(a, name) + DictsFor(b, name)
  {
    if b == [] {
      assert a + b == a;
    } else {
      assert (a + b)[..|a + b| - 1] == a + b[..|b| - 1];
      DictsConcat(a, b[..|b| - 1], name);
    }
  }

  lemma {:induction false} NamesConcat(a: seq<Kept>, b: seq<Kept>)
    ensures Names(a + b) == Names(a) + Names(b)
  {
    if b == [] {
      assert a + b == a;
    } else {
      var n := |b| - 1;
      assert a + b == a + b[..n] + [b[n]] && b == b[..n] + [b[n]];
      NamesConcat(a, b[..n]);
      NamesExtend(a + b[..n], b[n]);
      NamesExtend(b[..n], b[n]);
    }
  }

  lemma NamesAreSnapshotNames(ks: seq<Kept>, name: string) returns (t: string, d: DateKey)
    requires name in Names(ks)
    ensures name == FileName(t, d)
  {
    var i :| 0 <= i < |ks| && FileOf(ks[i]) == name;
    t, d := ks[i].tokenId, ks[i].point.stamp.date;
  }

  lemma PointAddedAt(dir: Directory, before: seq<Kept>, ks: seq<Kept>, name: string)
    requires HoldsExactly(dir, before) && name in Names(before) + Names(ks)
    ensures name in WithPoints(dir, ks)
    ensures WithPoints(dir, ks)[name] == Records(DictsFor(before + ks, name))
  {
    DictsConcat(before, ks, name);
    NoDicts(before, name);
    NoDicts(ks, name);
    if name !in Names(before) {
      var t, d := NamesAreSnapshotNames(ks, name);
      assert name !in dir;
    }
  }

  lemma PointsAdded(dir: Directory, before: seq<Kept>, ks: seq<Kept>)
    requires HoldsExactly(dir, before)
    ensures HoldsExactly(WithPoints(dir, ks), before + ks)
  {
    NamesConcat(before, ks);
    forall name | name in Names(before + ks)
      ensures name in WithPoints(dir, ks) && WithPoints(dir, ks)[name] == Records(DictsFor(before + ks, name))
    {
      PointAddedAt(dir, before, ks, name);
    }
  }

  lemma OtherFileAdded(dir: Directory, ks: seq<Kept>, name: string, file: File)
    requires HoldsExactly(dir, ks) && MatchName(name) == None
    requires forall t, d: DateKey :: FileName(t, d) != name
    ensures HoldsExactly(dir[name := file], ks)
  {
    if name in Names(ks) {
      var t, d := NamesAreSnapshotNames(ks, name);
    }
  }

  lemma {:induction false} MarketsHoldExactly(ms: seq<RawMarket>)
    ensures HoldsExactly(WithMarkets(ms), AllKept(ms))
  {
    if ms != [] {
      var n := |ms| - 1;
      MarketsHoldExactly(ms[..n]);
      var record := RecordOf(ms[n]);
      if Writes(record) {
        var ks := AllKept(ms[..n]) + KeptOf(record.value);
        PointsAdded(WithMarkets(ms[..n]), AllKept(ms[..n]), KeptOf(record.value));
        OutcomesNeverMatch(ms[n].tokenId);
        OtherFileAdded(WithPoints(WithMarkets(ms[..n]), KeptOf(record.value)), ks,
                       OutcomesName(ms[n].tokenId), OutcomeFile(record.value));
      } else {
        assert AllKept(ms) == AllKept(ms[..n]);
      }
    }
  }

  lemma BuiltHoldsExactly(ms: seq<RawMarket>)
    ensures HoldsExactly(Built(ms), AllKept(ms))
  {
    MarketsHoldExactly(ms);
    OutcomesNeverMatch("");
    OtherFileAdded(WithMarkets(ms), AllKept(ms), MANIFEST, SingleObject(map[]));
  }

  // ---- reading one file, then all of them ----

  function SnapshotsFor(w: Window, ks: seq<Kept>, name: string): seq<Snapshot> {
    if ks == [] then [] else
      var k := ks[|ks| - 1];
      SnapshotsFor(w, ks[..|ks| - 1], name) + if FileOf(k) == name && Readable(w, k) then [AsSnapshot(k)] else []
  }

  lemma DictReadsBack(w: Window, k: Kept)
    ensures ReadRecord(w, k.tokenId, SnapshotToDict(k))
         == Success(InWindow(w, k))
  {
    var f := SnapshotToDict(k).fields;
    assert "timestamp_utc" in f && "best_bid" in f && "best_ask" in f && "midpoint" in f;
    assert "realized_pnl_usdc" !in f;
  }

  lemma ReadOneMore(
      w: Window, name: string, token: string, dicts: seq<Record>, dict: Record,
      before: seq<Snapshot>, more: seq<Snapshot>)
    requires ReadRecords(w, name, token, dicts) == Success(before) && ReadRecord(w, token, dict) == Success(more)
    ensures ReadRecords(w, name, token, dicts + [dict]) == Success(before + more)
  {
    assert (dicts + [dict])[..|dicts|] == dicts;
  }

  /** What a kept point reads back as, once its token is recognised. */
  function InWindow(w: Window, k: Kept): seq<Snapshot> {
    if Within(w, k.point.stamp.utc) then [AsSnapshot(k)] else []
  }

  /** A point whose file has a matching name belongs to the token the name gives. */
  lemma MatchedPoint(w: Window, k: Kept, name: string, token: string)
    requires MatchName(name) == Some(token) && FileOf(k) == name
    ensures k.tokenId == token && (if Readable(w, k) then [AsSnapshot(k)] else []) == InWindow(w, k)
  {
    SnapshotNameMatches(k.tokenId, k.point.stamp.date);
  }

  lemma {:induction false} DictsReadBack(w: Window, ks: seq<Kept>, name: string, token: string)
    requires MatchName(name) == Some(token)
    ensures ReadRecords(w, name, token, DictsFor(ks, name)) == Success(SnapshotsFor(w, ks, name))
  {
    if ks != [] {
      var n := |ks| - 1;
      var dicts, before := DictsFor(ks[..n], name), SnapshotsFor(w, ks[..n], name);
      DictsReadBack(w, ks[..n], name, token);
      if FileOf(ks[n]) == name {
        MatchedPoint(w, ks[n], name, token);
        DictReadsBack(w, ks[n]);
        ReadOneMore(w, name, token, dicts, SnapshotToDict(ks[n]), before, InWindow(w, ks[n]));
      } else {
        assert dicts + [] == dicts && before + [] == before;
      }
    }
  }

  lemma {:induction false} NothingForUnmatched(w: Window, ks: seq<Kept>, name: string)
    requires MatchName(name) == None
    ensures SnapshotsFor(w, ks, name) == []
  {
    if ks != [] {
      var k := ks[|ks| - 1];
      NothingForUnmatched(w, ks[..|ks| - 1], name);
      SnapshotNameMatches(k.tokenId, k.point.stamp.date);
    }
  }

  lemma FileReadsBack(w: Window, dir: Directory, ks: seq<Kept>, name: string)
    requires HoldsExactly(dir, ks) && name in dir
    ensures ReadFile(w, name, dir[name]) == Success(SnapshotsFor(w, ks, name))
  {
    if MatchName(name).Some? {
      DictsReadBack(w, ks, name, MatchName(name).value);
    } else {
      NothingForUnmatched(w, ks, name);
    }
  }

  function SnapshotsForAll(w: Window, ks: seq<Kept>, names: seq<string>): seq<Snapshot> {
    if names == [] then []
    else SnapshotsForAll(w, ks, names[..|names| - 1]) + SnapshotsFor(w, ks, names[|names| - 1])
  }

  lemma {:induction false} FilesReadBack(w: Window, dir: Directory, ks: seq<Kept>, names: seq<string>)
    requires HoldsExactly(dir, ks) && forall n :: n in names ==> n in dir
    ensures ReadFiles(w, dir, names) == Success(SnapshotsForAll(w, ks, names))
  {
    if names != [] {
      FilesReadBack(w, dir, ks, names[..|names| - 1]);
      FileReadsBack(w, dir, ks, names[|names| - 1]);
    }
  }

  // ---- splitting by file loses and adds nothing ----

  /** Multiset bookkeeping for one more file at the end of the list. */
  lemma OneMoreFile(w: Window, ks: seq<Kept>, names: seq<string>, name: string)
    ensures multiset(SnapshotsForAll(w, ks, names + [name]))
         == multiset(SnapshotsForAll(w, ks, names)) + multiset(SnapshotsFor(w, ks, name))
  {
    assert (names + [name])[..|names|] == names;
  }

  /** What one more kept point adds to what one file reads back as. */
  function AddedHere(w: Window, k: Kept, name: string): multiset<Snapshot> {
    if FileOf(k) == name && Readable(w, k) then multiset{AsSnapshot(k)} else multiset{}
  }

  lemma OneMoreForFile(w: Window, ks: seq<Kept>, k: Kept, name: string)
    ensures multiset(SnapshotsFor(w, ks + [k], name)) == multiset(SnapshotsFor(w, ks, name)) + AddedHere(w, k, name)
  {
    assert (ks + [k])[..|ks|] == ks;
  }

  /** What it adds over a list of distinct file names. */
  function Added(w: Window, k: Kept, names: seq<string>): multiset<Snapshot> {
    if FileOf(k) in names && Readable(w, k) then multiset{AsSnapshot(k)} else multiset{}
  }

  lemma AddedExtend(w: Window, k: Kept, names: seq<string>, name: string)
    requires name !in names
    ensures Added(w, k, names + [name]) == Added(w, k, names) + AddedHere(w, k, name)
  {
  }

  lemma Regroup(a: multiset<Snapshot>, b: multiset<Snapshot>, x: multiset<Snapshot>, y: multiset<Snapshot>)
    ensures (a + x) + (b + y) == (a + b) + (x + y)
  {
  }

  lemma {:induction false} OneMorePoint(w: Window, ks: seq<Kept>, k: Kept, names: seq<string>)
    requires Distinct(names)
    ensures multiset(SnapshotsForAll(w, ks + [k], names))
         == multiset(SnapshotsForAll(w, ks, names)) + Added(w, k, names)
  {
    if names != [] {
      var before, name := names[..|names| - 1], names[|names| - 1];
      assert names == before + [name];
      OneMorePoint(w, ks, k, before);
      OneMoreForFile(w, ks, k, name);
      AddedExtend(w, k, before, name);
      OneMoreFile(w, ks, before, name);
      OneMoreFile(w, ks + [k], before, name);
      Regroup(multiset(SnapshotsForAll(w, ks, before)), multiset(SnapshotsFor(w, ks, name)),
              Added(w, k, before), AddedHere(w, k, name));
    }
  }

  lemma {:induction false} PartitionByFile(w: Window, ks: seq<Kept>, names: seq<string>)
    requires Distinct(names) && forall name :: name in Names(ks) ==> name in names
    ensures multiset(SnapshotsForAll(w, ks, names)) == multiset(ReadBack(w, ks))
  {
    if ks == [] {
      NoPoints(w, names);
    } else {
      var n := |ks| - 1;
      assert ks == ks[..n] + [ks[n]];
      NamesExtend(ks[..n], ks[n]);
      PartitionByFile(w, ks[..n], names);
      OneMorePoint(w, ks[..n], ks[n], names);
    }
  }

  lemma {:induction false} NoPoints(w: Window, names: seq<string>)
    ensures SnapshotsForAll(w, [], names) == []
  {
    if names != [] {
      NoPoints(w, names[..|names| - 1]);
    }
  }

  // ---- the round trip ----

  predicate Tradable(s: Snapshot) {
    0.0 < s.bestBid <= s.bestAsk && 0.0 < s.midpoint && !s.outcomeResolved && s.realizedPnl == 0.0
  }

  lemma {:induction false} KeptAreSound(ms: seq<RawMarket>)
    ensures forall k :: k in AllKept(ms) ==> Sound(k.point) && k.tokenId != ""
  {
    if ms != [] {
      var m := ms[|ms| - 1];
      KeptAreSound(ms[..|ms| - 1]);
      if m.fetch.Series? {
        PointsAreSound(m.fetch.raws);
      }
    }
  }

  lemma {:induction false} ReadBackTradable(w: Window, ks: seq<Kept>)
    requires forall k :: k in ks ==> Sound(k.point)
    ensures forall s :: s in ReadBack(w, ks) ==> Tradable(s)
  {
    if ks != [] {
      ReadBackTradable(w, ks[..|ks| - 1]);
      assert ks[|ks| - 1] in ks;
    }
  }

  /** Every file of a kept point is among those the loader lists. */
  lemma FilesAreListed(ms: seq<RawMarket>)
    ensures forall name :: name in Names(AllKept(ms)) ==> name in SortedStrings(JsonNames(Built(ms)))
  {
    BuiltHoldsExactly(ms);
    forall name | name in Names(AllKept(ms))
      ensures name in SortedStrings(JsonNames(Built(ms)))
    {
      var t, d := NamesAreSnapshotNames(AllKept(ms), name);
      SnapshotNameMatches(t, d);
      assert name in JsonNames(Built(ms));
    }
  }

  /** What the loader collects before it sorts. */
  function Collected(w: Window, ms: seq<RawMarket>): seq<Snapshot> {
    SnapshotsForAll(w, AllKept(ms), SortedStrings(JsonNames(Built(ms))))
  }

  lemma CollectsWhatWasBuilt(w: Window, ms: seq<RawMarket>)
    ensures Loaded(w, Built(ms)) == Success(Sort(Collected(w, ms), Earlier))
    ensures multiset(Collected(w, ms)) == multiset(ReadBack(w, AllKept(ms)))
  {
    BuiltHoldsExactly(ms);
    FilesReadBack(w, Built(ms), AllKept(ms), SortedStrings(JsonNames(Built(ms))));
    FilesAreListed(ms);
    PartitionByFile(w, AllKept(ms), SortedStrings(JsonNames(Built(ms))));
  }

  lemma AllTradable(loaded: seq<Snapshot>, expected: seq<Snapshot>)
    requires multiset(loaded) == multiset(expected) && forall s :: s in expected ==> Tradable(s)
    ensures forall s :: s in loaded ==> Tradable(s)
  {
    forall s | s in loaded
      ensures Tradable(s)
    {
      assert s in multiset(loaded) && s in multiset(expected);
    }
  }

  /**
   * Loading a freshly built directory never fails, in any date window, and gives, sorted by time, exactly
   * the kept points of readable tokens whose instants lie in the window, uncrossed, positive and unresolved.
   */
  lemma LoadsWhatWasBuilt(w: Window, ms: seq<RawMarket>)
    ensures var r := Loaded(w, Built(ms));
            && r.Success?
            && multiset(r.value) == multiset(ReadBack(w, AllKept(ms)))
            && InTime(r.value)
            && forall s :: s in r.value ==> Tradable(s)
  {
    CollectsWhatWasBuilt(w, ms);
    SortedInTime(Collected(w, ms));
    assert TotalPreorder(Earlier);
    SortCorrect(Collected(w, ms), Earlier);
    KeptAreSound(ms);
    ReadBackTradable(w, AllKept(ms));
    AllTradable(Sort(Collected(w, ms), Earlier), ReadBack(w, AllKept(ms)));
  }

  lemma {:induction false} ReadBackComplete(w: Window, ks: seq<Kept>)
    ensures |ReadBack(w, ks)| <= |AsSnapshots(ks)| == |ks|
    ensures (forall k :: k in ks ==> Readable(w, k)) <==> |ReadBack(w, ks)| == |ks|
    ensures (forall k :: k in ks ==> Readable(w, k)) ==> ReadBack(w, ks) == AsSnapshots(ks)
  {
    if ks != [] {
      var n := |ks| - 1;
      ReadBackComplete(w, ks[..n]);
      assert ks == ks[..n] + [ks[n]];
    }
  }

  lemma CompleteIff(w: Window, loaded: seq<Snapshot>, ks: seq<Kept>)
    requires multiset(loaded) == multiset(ReadBack(w, ks))
    ensures multiset(loaded) == multiset(AsSnapshots(ks)) <==> forall k :: k in ks ==> Readable(w, k)
  {
    ReadBackComplete(w, ks);
    assert |multiset(ReadBack(w, ks))| == |ReadBack(w, ks)| && |multiset(AsSnapshots(ks))| == |AsSnapshots(ks)|;
  }

  /** No kept point is lost exactly when no token id contains a line feed and every instant lies in the window. */
  lemma NothingLostIff(w: Window, ms: seq<RawMarket>)
    ensures Loaded(w, Built(ms)).Success?
    ensures multiset(Loaded(w, Built(ms)).value) == multiset(AsSnapshots(AllKept(ms)))
            <==> forall k :: k in AllKept(ms) ==>
                   All(k.tokenId, NotNewline) && Within(w, k.point.stamp.utc)
  {
    LoadsWhatWasBuilt(w, ms);
    KeptAreSound(ms);
    CompleteIff(w, Loaded(w, Built(ms)).value, AllKept(ms));
  }

  /** A resolved market with one good snapshot. */
  function OneSnapshot(token: string): RawMarket {
    RawMarket(token, "0xc0de", None, Outcome(Some("YES"), Absent, Absent),
              Series([Dict(Some(Stamp(0, "2024-01-31")), Some(0.4), Some(0.5), Some(0.45), Absent, Absent)]))
  }

  /** A token id with a line feed: the snapshot is written, loading succeeds, and nothing comes back. */
  lemma LineFeedLosesSnapshot(w: Window, before: string, after: string)
    ensures var ms := [OneSnapshot(before + "\n" + after)];
            && |AllKept(ms)| == 1
            && Loaded(w, Built(ms)) == Success([])
  {
    var token := before + "\n" + after;
    var ms := [OneSnapshot(token)];
    OneSnapshotKept(token);
    assert token[|before|] == '\n';
    LoadsWhatWasBuilt(w, ms);
    var ks := AllKept(ms);
    assert !Readable(w, ks[0]) && ks[..0] == [];
    assert ReadBack(w, ks) == [];
    var loaded := Loaded(w, Built(ms)).value;
    assert |multiset(loaded)| == |loaded|;
  }

  lemma OneSnapshotKept(token: string)
    requires token != ""
    ensures |AllKept([OneSnapshot(token)])| == 1 && AllKept([OneSnapshot(token)])[0].tokenId == token
  {
    var m := OneSnapshot(token);
    var raw := m.fetch.raws[0];
    assert m.fetch.raws[..0] == [];
    assert Points(m.fetch.raws) == [ParseSnapshot(raw).value];
    assert [m][..0] == [];
    assert AllKept([m]) == AllKept([]) + KeptOf(RecordOf(m).value);
  }

  // ---- outcome blindness ----

  /** A YES or NO outcome whose amounts, if any, are finite. */
  predicate Usable(o: Outcome) { AcceptsOutcome(o) && Constructs(o) }

  /** The two markets differ at most in what became known at resolution, and both or neither can be used. */
  predicate SameBeforeResolution(a: RawMarket, b: RawMarket) {
    a.(outcome := b.outcome) == b && (Usable(a.outcome) <==> Usable(b.outcome))
  }

  predicate AllSameBeforeResolution(a: seq<RawMarket>, b: seq<RawMarket>) {
    |a| == |b| && forall i :: 0 <= i < |a| ==> SameBeforeResolution(a[i], b[i])
  }

  /** The two directories list the same names and agree on every file the loader opens. */
  ghost predicate LooksAlike(a: Directory, b: Directory) {
    a.Keys == b.Keys && forall name :: name in a && MatchName(name).Some? ==> a[name] == b[name]
  }

  lemma MarketAddedAlike(a: Directory, b: Directory, r: MarketRecord, o: Outcome)
    requires LooksAlike(a, b)
    ensures var s, name := r.(outcome := o), OutcomesName(r.tokenId);
            KeptOf(s) == KeptOf(r) &&
            LooksAlike(WithPoints(a, KeptOf(r))[name := OutcomeFile(r)],
                       WithPoints(b, KeptOf(s))[name := OutcomeFile(s)])
  {
    OutcomesNeverMatch(r.tokenId);
    var ks := KeptOf(r);
    assert KeptOf(r.(outcome := o)) == ks;
    forall name | name in WithPoints(a, ks) && MatchName(name).Some?
      ensures WithPoints(a, ks)[name] == WithPoints(b, ks)[name]
    {
      assert name in a ==> Contents(a, name) == Contents(b, name);
    }
  }

  lemma {:induction false} BuiltAlike(a: seq<RawMarket>, b: seq<RawMarket>)
    requires AllSameBeforeResolution(a, b)
    ensures LooksAlike(WithMarkets(a), WithMarkets(b))
  {
    if a != [] {
      var n := |a| - 1;
      BuiltAlike(a[..n], b[..n]);
      assert SameBeforeResolution(a[n], b[n]);
      if Writes(RecordOf(a[n])) {
        MarketAddedAlike(WithMarkets(a[..n]), WithMarkets(b[..n]), RecordOf(a[n]).value, b[n].outcome);
      }
    }
  }

  lemma {:induction false} AlikeLoadAlike(w: Window, a: Directory, b: Directory, names: seq<string>)
    requires forall n :: n in names ==> n in a && n in b && (MatchName(n).Some? ==> a[n] == b[n])
    ensures ReadFiles(w, a, names) == ReadFiles(w, b, names)
  {
    if names != [] {
      AlikeLoadAlike(w, a, b, names[..|names| - 1]);
    }
  }

  predicate Matched(name: string) { MatchName(name).Some? }

  lemma FilteredAreIn(dir: Directory, names: seq<string>)
    requires forall n :: n in names ==> n in dir
    ensures forall n :: n in Filter(names, Matched) ==> n in dir
  {
    forall n | n in Filter(names, Matched)
      ensures n in dir
    {
      InFilter(names, Matched, n);
    }
  }

  /** Two lists that read alike still do when one goes on with a name and the other too, if it matches. */
  lemma ReadsAlikeExtended(w: Window, dir: Directory, a: seq<string>, b: seq<string>, name: string)
    requires name in dir && (forall n :: n in a ==> n in dir) && (forall n :: n in b ==> n in dir)
    requires ReadFiles(w, dir, a) == ReadFiles(w, dir, b)
    ensures ReadFiles(w, dir, a + [name]) == ReadFiles(w, dir, if Matched(name) then b + [name] else b)
  {
    assert (a + [name])[..|a|] == a && (b + [name])[..|b|] == b;
    if ReadFiles(w, dir, a).Success? {
      assert ReadFiles(w, dir, a).value + [] == ReadFiles(w, dir, a).value;
    }
  }

  /** Files whose names do not match might as well not be listed. */
  lemma {:induction false} OnlyMatchedRead(w: Window, dir: Directory, names: seq<string>)
    requires forall n :: n in names ==> n in dir
    ensures forall n :: n in Filter(names, Matched) ==> n in dir
    ensures ReadFiles(w, dir, names) == ReadFiles(w, dir, Filter(names, Matched))
  {
    FilteredAreIn(dir, names);
    if names != [] {
      var last := |names| - 1;
      OnlyMatchedRead(w, dir, names[..last]);
      assert names == names[..last] + [names[last]];
      FilterOneMore(names[..last], names[last], Matched);
      ReadsAlikeExtended(w, dir, names[..last], Filter(names[..last], Matched), names[last]);
      assert Filter(names[..last], Matched) + [] == Filter(names[..last], Matched);
    }
  }

  lemma {:induction false} FilterStrictlySorted(names: seq<string>)
    requires StrictlySorted(names)
    ensures StrictlySorted(Filter(names, Matched))
  {
    if names != [] {
      var last := |names| - 1;
      var before := Filter(names[..last], Matched);
      FilterStrictlySorted(names[..last]);
      forall i | 0 <= i < |before|
        ensures LexLeq(before[i], names[last]) && before[i] != names[last]
      {
        InFilter(names[..last], Matched, before[i]);
        assert before[i] in names[..last];
      }
    }
  }

  lemma SameMatchedNames(a: Directory, b: Directory)
    requires forall n :: Matched(n) ==> (n in a <==> n in b)
    ensures Filter(SortedStrings(JsonNames(a)), Matched) == Filter(SortedStrings(JsonNames(b)), Matched)
  {
    var s, t := SortedStrings(JsonNames(a)), SortedStrings(JsonNames(b));
    FilterStrictlySorted(s);
    FilterStrictlySorted(t);
    forall n
      ensures n in Filter(s, Matched) <==> n in Filter(t, Matched)
    {
      InFilter(s, Matched, n);
      InFilter(t, Matched, n);
    }
    SortedUnique(Filter(s, Matched), Filter(t, Matched));
  }

  /** Two directories that agree on every matching name load alike, in any window. */
  lemma MatchedDecide(w: Window, a: Directory, b: Directory)
    requires forall n :: Matched(n) ==> (n in a <==> n in b) && (n in a ==> a[n] == b[n])
    ensures Loaded(w, a) == Loaded(w, b)
  {
    var s, t := SortedStrings(JsonNames(a)), SortedStrings(JsonNames(b));
    OnlyMatchedRead(w, a, s);
    OnlyMatchedRead(w, b, t);
    SameMatchedNames(a, b);
    AlikeLoadAlike(w, a, b, Filter(s, Matched));
  }

  /** Writing or overwriting a market's outcomes file, in any directory, never changes what is loaded. */
  lemma OutcomesInvisible(w: Window, dir: Directory, r: MarketRecord)
    ensures Loaded(w, dir[OutcomesName(r.tokenId) := OutcomeFile(r)]) == Loaded(w, dir)
  {
    OutcomesNeverMatch(r.tokenId);
    MatchedDecide(w, dir[OutcomesName(r.tokenId) := OutcomeFile(r)], dir);
  }

  /** The replay data is the same whatever the accepted outcomes, prices and realized profits were. */
  lemma OutcomesNeverLeak(w: Window, a: seq<RawMarket>, b: seq<RawMarket>)
    requires AllSameBeforeResolution(a, b)
    ensures Loaded(w, Built(a)) == Loaded(w, Built(b))
  {
    BuiltAlike(a, b);
    OutcomesNeverMatch("");
    MatchedDecide(w, Built(a), Built(b));
  }
}
