/** The in-memory metrics store: counters and gauges keyed by serialized label sets. */
module MetricsRegistry {
  import opened Wrappers
  import opened Sequences
  import opened Sorting
  import opened Text
  import opened MetricLabels
  import opened Exposition
  import opened ExpositionParser
  import opened ExpositionRoundTrip

  /** Metric name to label key to value. */
  type Store = map<string, map<string, real>>

  const PROVIDER_FAILURES := "poly_agent_llm_provider_failures_total"
  const ACTIVE_PROVIDER := "poly_agent_llm_active_provider"
  const VERDICT_GAUGE := "poly_agent_backtest_readiness_verdict"

  /** The value under a label key; a metric or a key never written reads zero. */
  function ValueAt(store: Store, name: string, key: string): real {
    if name in store && key in store[name] then store[name][key] else 0.0
  }

  function Help(helps: map<string, string>, name: string): string {
    if name in helps then helps[name] else name
  }

  /** The labels of the zero sample that stands for a metric never recorded. */
  function ZeroLabels(kind: MetricType, name: string): Labels {
    if kind == GAUGE && name == VERDICT_GAUGE then map["verdict" := "UNKNOWN"] else map[]
  }

  /** Where a sample comes from: one label key of a metric, or a metric never recorded. */
  datatype Origin = Origin(name: string, key: Option<string>)

  predicate IsEntry(store: Store, o: Origin) {
    o.name in store && if o.key.None? then store[o.name] == map[] else o.key.value in store[o.name]
  }

  function SampleOf(store: Store, helps: map<string, string>, kind: MetricType, o: Origin): Sample
    requires IsEntry(store, o)
  {
    match o.key
    case None => Sample(o.name, Help(helps, o.name), kind, ZeroLabels(kind, o.name), 0.0)
    case Some(key) => Sample(o.name, Help(helps, o.name), kind, Deserialize(key), store[o.name][key])
  }

  /** The store accounts for this sample. */
  ghost predicate InStore(store: Store, helps: map<string, string>, kind: MetricType, s: Sample) {
    exists o: Origin :: IsEntry(store, o) && SampleOf(store, helps, kind, o) == s
  }

  /** origins lists each entry of the named metrics once, and samples[i] is the one of origins[i]. */
  ghost predicate Lists(
      store: Store, helps: map<string, string>, kind: MetricType, names: set<string>,
      origins: seq<Origin>, samples: seq<Sample>)
  {
    && |origins| == |samples| && Distinct(origins)
    && (forall o: Origin :: o in origins <==> o.name in names && IsEntry(store, o))
    && (forall i :: 0 <= i < |origins| ==> ComesFrom(store, helps, kind, origins[i], samples[i]))
  }

  predicate ComesFrom(store: Store, helps: map<string, string>, kind: MetricType, o: Origin, s: Sample) {
    IsEntry(store, o) && s == SampleOf(store, helps, kind, o)
  }

  /** One sample for each entry of the store, and nothing else. */
  ghost predicate OneEach(store: Store, helps: map<string, string>, kind: MetricType, samples: seq<Sample>) {
    exists origins :: Lists(store, helps, kind, store.Keys, origins, samples)
  }

  /** The screening of label keys and values: it makes building a sample raise. */
  type Screen = Labels -> bool

  /** Building this sample raises: no name, no help text, or labels that the screening rejects. */
  predicate Refused(s: Sample, forbidden: Screen) { s.name == "" || s.helpText == "" || forbidden(s.labels) }

  predicate NoneRefused(samples: seq<Sample>, forbidden: Screen) {
    forall i :: 0 <= i < |samples| ==> !Refused(samples[i], forbidden)
  }

  /** The sample of some entry of the named metrics cannot be built. */
  ghost predicate Rejects(
      store: Store, helps: map<string, string>, kind: MetricType, names: set<string>, forbidden: Screen)
  {
    exists o: Origin :: o.name in names && IsEntry(store, o) && Refused(SampleOf(store, helps, kind, o), forbidden)
  }

  /** The active-provider gauge reads one under this key and zero under every other. */
  ghost predicate ShowsOnly(gauges: Store, key: string) {
    && ACTIVE_PROVIDER in gauges && gauges[ACTIVE_PROVIDER].Keys == {key}
    && forall other: string :: ValueAt(gauges, ACTIVE_PROVIDER, other) == if other == key then 1.0 else 0.0
  }

  /** No other metric reads differently. */
  ghost predicate OthersAsBefore(before: Store, after: Store, name: string) {
    && after.Keys == before.Keys
    && forall other, key :: other != name ==> ValueAt(after, other, key) == ValueAt(before, other, key)
  }

  /** Nor does any other key of this metric. */
  ghost predicate OnlyChanges(before: Store, after: Store, name: string, key: string) {
    && OthersAsBefore(before, after, name)
    && forall other: string :: other != key ==> ValueAt(after, name, other) == ValueAt(before, name, other)
  }

  lemma Activated(before: Store, key: string)
    requires ACTIVE_PROVIDER in before
    ensures var after := before[ACTIVE_PROVIDER := map[key := 1.0]];
            ShowsOnly(after, key) && OthersAsBefore(before, after, ACTIVE_PROVIDER)
  {
  }

  class Registry {
    var counters: Store
    var gauges: Store
    var counterHelps: map<string, string>
    var gaugeHelps: map<string, string>

    /** Declares every metric, none of them recorded yet. */
    constructor (counterHelps: map<string, string>, gaugeHelps: map<string, string>)
      ensures this.counterHelps == counterHelps && this.gaugeHelps == gaugeHelps
      ensures counters == (map name | name in counterHelps :: map[])
      ensures gauges == (map name | name in gaugeHelps :: map[])
    {
      this.counterHelps, this.gaugeHelps := counterHelps, gaugeHelps;
      counters := map name | name in counterHelps :: map[];
      gauges := map name | name in gaugeHelps :: map[];
    }

    /** Adds one to the counter of this provider and reason. */
    method RecordProviderFailure(provider: string, reason: string)
      requires PROVIDER_FAILURES in counters
      modifies this`counters
      ensures var key := Serialize(map["provider" := provider, "reason" := reason]);
              && ValueAt(counters, PROVIDER_FAILURES, key) == old(ValueAt(counters, PROVIDER_FAILURES, key)) + 1.0
              && OnlyChanges(old(counters), counters, PROVIDER_FAILURES, key)
    {
      var key := Serialize(map["provider" := provider, "reason" := reason]);
      Increment(PROVIDER_FAILURES, key);
    }

    method Increment(name: string, key: string)
      requires name in counters
      modifies this`counters
      ensures ValueAt(counters, name, key) == old(ValueAt(counters, name, key)) + 1.0
      ensures OnlyChanges(old(counters), counters, name, key)
    {
      var counter := counters[name];
      var current := if key in counter then counter[key] else 0.0;
      counters := counters[name := counter[key := current + 1.0]];
    }

    /** Clears the gauge and marks one provider active: its label set reads one, every other zero. */
    method SetActiveProvider(provider: string)
      requires ACTIVE_PROVIDER in gauges
      modifies this`gauges
      ensures ShowsOnly(gauges, Serialize(map["provider" := provider]))
      ensures OthersAsBefore(old(gauges), gauges, ACTIVE_PROVIDER)
    {
      var key := Serialize(map["provider" := provider]);
      Activated(gauges, key);
      gauges := gauges[ACTIVE_PROVIDER := map[key := 1.0]];
    }

    /**
     * A snapshot holds one sample for each entry of the two stores, whatever order they are visited in;
     * it fails exactly when the sample of some entry cannot be built.
     */
    method Snapshot(forbidden: Screen) returns (r: Option<seq<Sample>>)
      ensures r.None? <==> Rejects(counters, counterHelps, COUNTER, counters.Keys, forbidden)
                           || Rejects(gauges, gaugeHelps, GAUGE, gauges.Keys, forbidden)
      ensures r.Some? ==> exists a, b :: r.value == a + b
                                         && OneEach(counters, counterHelps, COUNTER, a)
                                         && OneEach(gauges, gaugeHelps, GAUGE, b)
    {
      var fromCounters := StoreSamples(counters, counterHelps, COUNTER, forbidden);
      if fromCounters.None? {
        return None;
      }
      var fromGauges := StoreSamples(gauges, gaugeHelps, GAUGE, forbidden);
      if fromGauges.None? {
        return None;
      }
      r := Some(fromCounters.value + fromGauges.value);
    }

    static method StoreSamples(store: Store, helps: map<string, string>, kind: MetricType, forbidden: Screen)
      returns (r: Option<seq<Sample>>)
      ensures r.None? <==> Rejects(store, helps, kind, store.Keys, forbidden)
      ensures r.Some? ==> OneEach(store, helps, kind, r.value)
    {
      var samples: seq<Sample> := [];
      var names := store.Keys;
      ghost var done: set<string>, origins: seq<Origin> := {}, [];
      while names != {}
        invariant done + names == store.Keys && done !! names
        invariant Lists(store, helps, kind, done, origins, samples)
        invariant !Rejects(store, helps, kind, done, forbidden)
        decreases |names|
      {
        var name :| name in names;
        var found, more := MetricSamples(store, helps, kind, name, forbidden);
        RejectsEither(store, helps, kind, done, {name}, forbidden);
        if found.None? {
          RejectsMore(store, helps, kind, {name}, store.Keys, forbidden);
          return None;
        }
        ListsBoth(store, helps, kind, done, origins, samples, name, more, found.value);
        samples, names := samples + found.value, names - {name};
        origins, done := origins + more, done + {name};
      }
      assert done == store.Keys;
      r := Some(samples);
    }

    static method MetricSamples(
        store: Store, helps: map<string, string>, kind: MetricType, name: string, forbidden: Screen)
      returns (r: Option<seq<Sample>>, ghost origins: seq<Origin>)
      requires name in store
      ensures r.None? <==> Rejects(store, helps, kind, {name}, forbidden)
      ensures r.Some? ==> Lists(store, helps, kind, {name}, origins, r.value)
    {
      if store[name] == map[] {
        var s := Sample(name, Help(helps, name), kind, ZeroLabels(kind, name), 0.0);
        origins := [Origin(name, None)];
        assert forall o: Origin :: o.name == name && IsEntry(store, o) ==> o == Origin(name, None);
        assert IsEntry(store, Origin(name, None));
        return if Refused(s, forbidden) then None else Some([s]), origins;
      }
      r, origins := RecordedSamples(store, helps, kind, name, forbidden);
    }

    static method RecordedSamples(
        store: Store, helps: map<string, string>, kind: MetricType, name: string, forbidden: Screen)
      returns (r: Option<seq<Sample>>, ghost origins: seq<Origin>)
      requires name in store && store[name] != map[]
      ensures r.None? <==> Rejects(store, helps, kind, {name}, forbidden)
      ensures r.Some? ==> Lists(store, helps, kind, {name}, origins, r.value)
    {
      var samples: seq<Sample> := [];
      var keys := store[name].Keys;
      ghost var order: seq<string> := [];
      origins := [];
      while keys != {}
        invariant Visited(store, helps, kind, name, keys, order, samples)
        invariant NoneRefused(samples, forbidden)
        decreases |keys|
      {
        var key :| key in keys;
        var labels := DeserializeLabels(key);
        var s := Sample(name, Help(helps, name), kind, labels, store[name][key]);
        if Refused(s, forbidden) {
          assert IsEntry(store, Origin(name, Some(key)));
          return None, [];
        }
        VisitStep(store, helps, kind, name, keys, order, samples, key);
        samples, order, keys := samples + [s], order + [key], keys - {key};
      }
      origins := OriginsOf(name, order);
      OriginsList(store, helps, kind, name, order, samples);
      NoneRejects(store, helps, kind, name, origins, samples, forbidden);
      r := Some(samples);
    }
  }

  lemma NoneRejects(
      store: Store, helps: map<string, string>, kind: MetricType, name: string, origins: seq<Origin>,
      samples: seq<Sample>, forbidden: Screen)
    requires Lists(store, helps, kind, {name}, origins, samples) && NoneRefused(samples, forbidden)
    ensures !Rejects(store, helps, kind, {name}, forbidden)
  {
    forall o: Origin | o.name in {name} && IsEntry(store, o)
      ensures !Refused(SampleOf(store, helps, kind, o), forbidden)
    {
      assert o in origins;
      var i :| 0 <= i < |origins| && origins[i] == o;
      assert ComesFrom(store, helps, kind, origins[i], samples[i]);
    }
  }

  /** order lists the keys visited, all but those left, and samples holds their samples. */
  ghost predicate Visited(
      store: Store, helps: map<string, string>, kind: MetricType, name: string, left: set<string>,
      order: seq<string>, samples: seq<Sample>)
    requires name in store
  {
    && left <= store[name].Keys && Distinct(order) && |samples| == |order|
    && (forall key :: key in order <==> key in store[name] && key !in left)
    && (forall i :: 0 <= i < |order| ==>
          samples[i] == Sample(name, Help(helps, name), kind, Deserialize(order[i]), store[name][order[i]]))
  }

  lemma VisitStep(
      store: Store, helps: map<string, string>, kind: MetricType, name: string, left: set<string>,
      order: seq<string>, samples: seq<Sample>, key: string)
    requires name in store && key in left && Visited(store, helps, kind, name, left, order, samples)
    ensures var s := Sample(name, Help(helps, name), kind, Deserialize(key), store[name][key]);
            Visited(store, helps, kind, name, left - {key}, order + [key], samples + [s])
  {
    DistinctOneMore(order, key);
  }

  function OriginsOf(name: string, keys: seq<string>): (origins: seq<Origin>)
    ensures |origins| == |keys|
    ensures forall i :: 0 <= i < |keys| ==> origins[i] == Origin(name, Some(keys[i]))
  {
    seq(|keys|, i requires 0 <= i < |keys| => Origin(name, Some(keys[i])))
  }

  /** Visiting each key of a metric once lists its entries. */
  lemma OriginsList(
      store: Store, helps: map<string, string>, kind: MetricType, name: string, keys: seq<string>, samples: seq<Sample>)
    requires name in store && store[name] != map[] && Distinct(keys) && |samples| == |keys|
    requires forall key :: key in keys <==> key in store[name]
    requires forall i :: 0 <= i < |keys| ==>
               samples[i] == Sample(name, Help(helps, name), kind, Deserialize(keys[i]), store[name][keys[i]])
    ensures Lists(store, helps, kind, {name}, OriginsOf(name, keys), samples)
  {
    var origins := OriginsOf(name, keys);
    forall o: Origin
      ensures o in origins <==> o.name in {name} && IsEntry(store, o)
    {
      if o.name == name && IsEntry(store, o) {
        assert o.key.value in keys;
        var i :| 0 <= i < |keys| && keys[i] == o.key.value;
        assert origins[i] == o;
      }
    }
  }

  lemma RejectsMore(
      store: Store, helps: map<string, string>, kind: MetricType, few: set<string>, many: set<string>,
      forbidden: Screen)
    requires few <= many && Rejects(store, helps, kind, few, forbidden)
    ensures Rejects(store, helps, kind, many, forbidden)
  {
  }

  lemma RejectsEither(
      store: Store, helps: map<string, string>, kind: MetricType, a: set<string>, b: set<string>, forbidden: Screen)
    ensures Rejects(store, helps, kind, a + b, forbidden)
            <==> Rejects(store, helps, kind, a, forbidden) || Rejects(store, helps, kind, b, forbidden)
  {
  }

  lemma ListsBoth(
      store: Store, helps: map<string, string>, kind: MetricType, done: set<string>, origins: seq<Origin>,
      samples: seq<Sample>, name: string, more: seq<Origin>, found: seq<Sample>)
    requires Lists(store, helps, kind, done, origins, samples) && name !in done
    requires Lists(store, helps, kind, {name}, more, found)
    ensures Lists(store, helps, kind, done + {name}, origins + more, samples + found)
  {
    MembersBoth(store, done, origins, name, more);
    DistinctBoth(origins, more);
    forall i | 0 <= i < |origins + more|
      ensures ComesFrom(store, helps, kind, (origins + more)[i], (samples + found)[i])
    {
      assert i < |origins| ==> ComesFrom(store, helps, kind, origins[i], samples[i]);
      assert i >= |origins| ==> ComesFrom(store, helps, kind, more[i - |origins|], found[i - |origins|]);
    }
  }

  lemma MembersBoth(store: Store, done: set<string>, origins: seq<Origin>, name: string, more: seq<Origin>)
    requires name !in done
    requires forall o: Origin :: o in origins <==> o.name in done && IsEntry(store, o)
    requires forall o: Origin :: o in more <==> o.name in {name} && IsEntry(store, o)
    ensures forall o: Origin :: o in origins + more <==> o.name in done + {name} && IsEntry(store, o)
    ensures forall o :: o in origins ==> o !in more
  {
    forall o: Origin
      ensures o in origins + more <==> o.name in done + {name} && IsEntry(store, o)
    {
      assert o in origins + more <==> o in origins || o in more;
    }
  }

  lemma DistinctBoth<T>(a: seq<T>, b: seq<T>)
    requires Distinct(a) && Distinct(b) && forall x :: x in a ==> x !in b
    ensures Distinct(a + b)
  {
    var both := a + b;
    forall i, j | 0 <= i < j < |both|
      ensures both[i] != both[j]
    {
      if i < |a| <= j {
        assert both[i] in a && both[j] in b;
      }
    }
  }

  /** A sample is in a complete listing exactly when the store accounts for it. */
  lemma ListedIff(store: Store, helps: map<string, string>, kind: MetricType, samples: seq<Sample>, s: Sample)
    requires OneEach(store, helps, kind, samples)
    ensures s in samples <==> InStore(store, helps, kind, s)
  {
    var origins: seq<Origin> :| Lists(store, helps, kind, store.Keys, origins, samples);
    if s in samples {
      var i :| 0 <= i < |samples| && samples[i] == s;
      assert origins[i] in origins;
    }
    if InStore(store, helps, kind, s) {
      var o :| IsEntry(store, o) && SampleOf(store, helps, kind, o) == s;
      assert o in origins;
      var i :| 0 <= i < |origins| && origins[i] == o;
      assert samples[i] == s;
    }
  }

  /**
   * A metric never recorded is in the snapshot as a single zero: without labels, but for the verdict
   * gauge, which says UNKNOWN.
   */
  lemma UnrecordedShowsZero(
      store: Store, helps: map<string, string>, kind: MetricType, samples: seq<Sample>, name: string)
    requires OneEach(store, helps, kind, samples) && name in store && store[name] == map[]
    ensures forall s :: s in samples && s.name == name <==>
              s == Sample(name, if name in helps then helps[name] else name, kind,
                          if kind == GAUGE && name == "poly_agent_backtest_readiness_verdict"
                          then map["verdict" := "UNKNOWN"] else map[], 0.0)
  {
    forall s: Sample
      ensures s in samples && s.name == name <==> s == SampleOf(store, helps, kind, Origin(name, None))
    {
      ListedIff(store, helps, kind, samples, s);
      assert IsEntry(store, Origin(name, None));
    }
  }

  /** A recorded metric has a sample for each of its keys, labelled as the key reads, and no other. */
  lemma RecordedShowsValues(
      store: Store, helps: map<string, string>, kind: MetricType, samples: seq<Sample>, s: Sample)
    requires OneEach(store, helps, kind, samples) && s.name in store && store[s.name] != map[]
    ensures s in samples
            <==> exists key :: key in store[s.name] && s.value == store[s.name][key] && s.labels == Deserialize(key)
                               && s.kind == kind && s.helpText == if s.name in helps then helps[s.name] else s.name
  {
    ListedIff(store, helps, kind, samples, s);
    if s in samples {
      var o :| IsEntry(store, o) && SampleOf(store, helps, kind, o) == s;
      assert o.key.value in store[s.name];
    }
    forall key |
      key in store[s.name] && s == Sample(s.name, Help(helps, s.name), kind, Deserialize(key), store[s.name][key])
      ensures s in samples
    {
      assert SampleOf(store, helps, kind, Origin(s.name, Some(key))) == s;
    }
  }

  // ---- what a scrape of the registry shows ----

  /** A key written from a clean, printable label set, and a value that prints and reads back. */
  predicate LegalEntry(key: string, v: real, show: Printer, read: Reader) {
    var labels := Deserialize(key);
    Serialize(labels) == key && Clean(labels) && LegalLabels(labels) && LegalNumeral(v, show, read)
  }

  predicate LegalEntries(entries: map<string, real>, show: Printer, read: Reader) {
    forall key :: key in entries ==> LegalEntry(key, entries[key], show, read)
  }

  predicate Scrapable(store: Store, helps: map<string, string>, show: Printer, read: Reader) {
    && (forall name :: name in store ==>
          LegalName(name) && All(Help(helps, name), NotLineBreak) && LegalEntries(store[name], show, read))
    && LegalNumeral(0.0, show, read)
  }

  /** Writing a printable value under a clean, printable label set keeps the store scrapable. */
  lemma WriteKeepsScrapable(
      store: Store, helps: map<string, string>, name: string, labels: Labels, v: real, show: Printer, read: Reader)
    requires Scrapable(store, helps, show, read) && name in store
    requires Clean(labels) && LegalLabels(labels) && LegalNumeral(v, show, read)
    ensures Scrapable(store[name := store[name][Serialize(labels) := v]], helps, show, read)
  {
    SerializeRoundTripIff(labels);
  }

  /** What the store says about one labelled metric: its value, or the zero of a metric never recorded. */
  predicate Shows(store: Store, kind: MetricType, p: Parsed) {
    && p.name in store
    && if store[p.name] == map[] then p.labels == ZeroLabels(kind, p.name) && p.value == 0.0
       else Clean(p.labels) && Serialize(p.labels) in store[p.name] && p.value == store[p.name][Serialize(p.labels)]
  }

  lemma ShowsIffContributes(
      store: Store, helps: map<string, string>, kind: MetricType, s: Sample, show: Printer, read: Reader)
    requires Scrapable(store, helps, show, read)
    requires s.name in store && s.helpText == Help(helps, s.name) && s.kind == kind
    ensures InStore(store, helps, kind, s) <==> Shows(store, kind, Triple(s))
  {
    if InStore(store, helps, kind, s) {
      var o: Origin :| IsEntry(store, o) && SampleOf(store, helps, kind, o) == s;
      assert o.key.Some? ==> LegalEntry(o.key.value, store[s.name][o.key.value], show, read);
    }
    if Shows(store, kind, Triple(s)) {
      SerializeRoundTripIff(s.labels);
      var o := Origin(s.name, if store[s.name] == map[] then None else Some(Serialize(s.labels)));
      assert IsEntry(store, o) && SampleOf(store, helps, kind, o) == s;
    }
  }

  lemma InStoreLegal(
      store: Store, helps: map<string, string>, kind: MetricType, s: Sample, show: Printer, read: Reader)
    requires Scrapable(store, helps, show, read) && InStore(store, helps, kind, s)
    ensures Printable(s, show, read) && |s.name| <= MAX_NAME
  {
    var o: Origin :| IsEntry(store, o) && SampleOf(store, helps, kind, o) == s;
    if o.key.Some? {
      EntryIsLegal(o.key.value, store[o.name][o.key.value], show, read);
    } else {
      ZeroLabelsLegal(kind, o.name);
    }
  }

  lemma EntryIsLegal(key: string, v: real, show: Printer, read: Reader)
    requires LegalEntry(key, v, show, read)
    ensures LegalLabels(Deserialize(key)) && LegalNumeral(v, show, read)
  {
  }

  lemma ZeroLabelsLegal(kind: MetricType, name: string)
    ensures LegalLabels(ZeroLabels(kind, name))
  {
  }

  lemma KeysDiffer(a: string, b: string, v: real, w: real, show: Printer, read: Reader)
    requires LegalEntry(a, v, show, read) && LegalEntry(b, w, show, read) && a != b
    ensures Deserialize(a) != Deserialize(b)
  {
  }

  lemma EntriesDiffer(
      store: Store, helps: map<string, string>, kind: MetricType, a: Origin, b: Origin, show: Printer, read: Reader)
    requires Scrapable(store, helps, show, read) && IsEntry(store, a) && IsEntry(store, b) && a != b
    ensures var s, t := SampleOf(store, helps, kind, a), SampleOf(store, helps, kind, b);
            s.name != t.name || s.labels != t.labels
  {
    if a.name == b.name {
      KeysDiffer(a.key.value, b.key.value, store[a.name][a.key.value], store[b.name][b.key.value], show, read);
    }
  }

  lemma ShownOnceInStore(
      store: Store, helps: map<string, string>, kind: MetricType, samples: seq<Sample>, show: Printer, read: Reader,
      i: nat, j: nat)
    requires Scrapable(store, helps, show, read) && OneEach(store, helps, kind, samples) && i < j < |samples|
    ensures samples[i].name != samples[j].name || samples[i].labels != samples[j].labels
  {
    var origins: seq<Origin> :| Lists(store, helps, kind, store.Keys, origins, samples);
    assert ComesFrom(store, helps, kind, origins[i], samples[i]);
    assert ComesFrom(store, helps, kind, origins[j], samples[j]);
    EntriesDiffer(store, helps, kind, origins[i], origins[j], show, read);
  }

  lemma ListedNames(store: Store, helps: map<string, string>, kind: MetricType, samples: seq<Sample>, i: nat)
    requires OneEach(store, helps, kind, samples) && i < |samples|
    ensures samples[i].name in store
  {
    var origins: seq<Origin> :| Lists(store, helps, kind, store.Keys, origins, samples);
    assert ComesFrom(store, helps, kind, origins[i], samples[i]);
  }

  /** No labelled metric is shown twice in a snapshot, unless its name is both a counter and a gauge. */
  lemma ShownOnce(
      counters: Store, counterHelps: map<string, string>, gauges: Store, gaugeHelps: map<string, string>,
      a: seq<Sample>, b: seq<Sample>, show: Printer, read: Reader, i: nat, j: nat)
    requires Scrapable(counters, counterHelps, show, read) && Scrapable(gauges, gaugeHelps, show, read)
    requires OneEach(counters, counterHelps, COUNTER, a) && OneEach(gauges, gaugeHelps, GAUGE, b)
    requires i < j < |a + b|
    ensures var s, t := (a + b)[i], (a + b)[j];
            s.name == t.name && s.labels == t.labels ==> s.name in counters && s.name in gauges
  {
    NeverRepeats(counters, counterHelps, COUNTER, a, show, read);
    NeverRepeats(gauges, gaugeHelps, GAUGE, b, show, read);
    SameMetricAcross(a, b, i, j);
    if i < |a| <= j {
      NamesOfBoth(counters, counterHelps, gauges, gaugeHelps, a, b, i, j);
    }
  }

  lemma NamesOfBoth(
      counters: Store, counterHelps: map<string, string>, gauges: Store, gaugeHelps: map<string, string>,
      a: seq<Sample>, b: seq<Sample>, i: nat, j: nat)
    requires OneEach(counters, counterHelps, COUNTER, a) && OneEach(gauges, gaugeHelps, GAUGE, b)
    requires i < |a| <= j < |a + b|
    ensures (a + b)[i].name in counters && (a + b)[j].name in gauges
  {
    ListedNames(counters, counterHelps, COUNTER, a, i);
    ListedNames(gauges, gaugeHelps, GAUGE, b, j - |a|);
  }

  predicate SameMetric(s: Sample, t: Sample) { s.name == t.name && s.labels == t.labels }

  predicate NoRepeat(samples: seq<Sample>) {
    forall i, j :: 0 <= i < j < |samples| ==> !SameMetric(samples[i], samples[j])
  }

  lemma NeverRepeats(
      store: Store, helps: map<string, string>, kind: MetricType, samples: seq<Sample>, show: Printer, read: Reader)
    requires Scrapable(store, helps, show, read) && OneEach(store, helps, kind, samples)
    ensures NoRepeat(samples)
  {
    forall i, j | 0 <= i < j < |samples|
      ensures !SameMetric(samples[i], samples[j])
    {
      ShownOnceInStore(store, helps, kind, samples, show, read, i, j);
    }
  }

  lemma SameMetricAcross(a: seq<Sample>, b: seq<Sample>, i: nat, j: nat)
    requires NoRepeat(a) && NoRepeat(b) && i < j < |a + b|
    ensures SameMetric((a + b)[i], (a + b)[j]) ==> i < |a| <= j
  {
  }

  lemma {:induction false} InTriples(samples: seq<Sample>, p: Parsed)
    ensures p in Triples(samples) <==> exists s :: s in samples && Triple(s) == p
  {
    if samples != [] {
      var n := |samples| - 1;
      InTriples(samples[..n], p);
      assert samples == samples[..n] + [samples[n]];
    }
  }

  /**
   * From store to audit: rendering a snapshot and parsing the text shows exactly what the two stores
   * say, label set by label set, with no parse error.
   */
  lemma ScrapeShowsStores(
      counters: Store, counterHelps: map<string, string>, gauges: Store, gaugeHelps: map<string, string>,
      a: seq<Sample>, b: seq<Sample>, show: Printer, read: Reader, p: Parsed)
    requires Scrapable(counters, counterHelps, show, read) && Scrapable(gauges, gaugeHelps, show, read)
    requires OneEach(counters, counterHelps, COUNTER, a) && OneEach(gauges, gaugeHelps, GAUGE, b)
    ensures var r := ParseLines(SplitLines(Rendered(a + b, show)), read);
            && r.Success? && r.value.errors == []
            && (p in r.value.samples <==> Shows(counters, COUNTER, p) || Shows(gauges, GAUGE, p))
  {
    StorePrintable(counters, counterHelps, COUNTER, a, show, read);
    StorePrintable(gauges, gaugeHelps, GAUGE, b, show, read);
    PrintParseRoundTrip(a + b, show, read);
    SortedAlike(a + b);
    InTriples(Sort(a + b, SampleLeq), p);
    ShownIff(counters, counterHelps, COUNTER, a, show, read, p);
    ShownIff(gauges, gaugeHelps, GAUGE, b, show, read, p);
  }

  lemma StorePrintable(
      store: Store, helps: map<string, string>, kind: MetricType, samples: seq<Sample>, show: Printer, read: Reader)
    requires Scrapable(store, helps, show, read) && OneEach(store, helps, kind, samples)
    ensures AllPrintable(samples, show, read) && AllShort(samples)
  {
    forall s | s in samples
      ensures Printable(s, show, read) && |s.name| <= MAX_NAME
    {
      ListedIff(store, helps, kind, samples, s);
      InStoreLegal(store, helps, kind, s, show, read);
    }
  }

  /** A triple is that of a listed sample exactly when the store says so. */
  lemma ShownIff(
      store: Store, helps: map<string, string>, kind: MetricType, samples: seq<Sample>, show: Printer, read: Reader,
      p: Parsed)
    requires Scrapable(store, helps, show, read) && OneEach(store, helps, kind, samples)
    ensures (exists s :: s in samples && Triple(s) == p) <==> Shows(store, kind, p)
  {
    forall s | s in samples && Triple(s) == p
      ensures Shows(store, kind, p)
    {
      ListedIff(store, helps, kind, samples, s);
      ShowsIffContributes(store, helps, kind, s, show, read);
    }
    if Shows(store, kind, p) {
      var s := Sample(p.name, Help(helps, p.name), kind, p.labels, p.value);
      ShowsIffContributes(store, helps, kind, s, show, read);
      ListedIff(store, helps, kind, samples, s);
      assert s in samples && Triple(s) == p;
    }
  }

  lemma ProviderIsClean(provider: string)
    requires All(provider, NotComma)
    ensures Clean(map["provider" := provider])
  {
    assert All("provider", NotEquals) && All("provider", NotComma);
  }

  /** After a provider is made active, the gauge shows that provider at one and nothing else. */
  lemma OneActiveProvider(gauges: Store, provider: string, p: Parsed)
    requires All(provider, NotComma) && ShowsOnly(gauges, Serialize(map["provider" := provider]))
    ensures p.name == ACTIVE_PROVIDER && Shows(gauges, GAUGE, p)
            <==> p == Parsed(ACTIVE_PROVIDER, 1.0, map["provider" := provider])
  {
    var labels := map["provider" := provider];
    ProviderIsClean(provider);
    ActiveValue(gauges, labels);
    if Clean(p.labels) {
      SerializeInjective(p.labels, labels);
    }
  }

  lemma ActiveValue(gauges: Store, labels: Labels)
    requires ShowsOnly(gauges, Serialize(labels))
    ensures var entries := gauges[ACTIVE_PROVIDER];
            entries != map[] && Serialize(labels) in entries && entries[Serialize(labels)] == 1.0
  {
    var key := Serialize(labels);
    assert ValueAt(gauges, ACTIVE_PROVIDER, key) == 1.0;
    assert key in gauges[ACTIVE_PROVIDER].Keys;
  }
}
