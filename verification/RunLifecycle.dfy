/** Reconstructing runs for the daily digest: START and SHUTDOWN records paired in time order. */
module RunLifecycle {
  import opened Wrappers
  import opened Sequences
  import opened Sorting
  import opened Text

  datatype EventType =
    | START | SHUTDOWN | READY_STATE_CHANGED | MARKET_DISCOVERED | MARKET_REJECTED | MARKET_QUARANTINE | OTHER

  datatype Reason = READY | DEGRADED | NOT_READY | OTHER_REASON

  /** A ledger record; times are in microseconds, and the two payload fields are already typed. */
  datatype Record = Record(
    id: string, createdAt: int, eventType: EventType, reason: Reason, provider: Option<string>, dryRun: Option<bool>)

  datatype Status = NO_RUN | UNKNOWN | PARTIAL | COMPLETED

  datatype RunSummary = RunSummary(
    startUtc: Option<int>, stopUtc: Option<int>, uptimeSeconds: Option<int>, status: Status,
    provider: Option<string>, dryRun: Option<bool>, readiness: Option<Reason>, marketsSeen: nat, marketsRejected: nat)

  const MICROSECONDS := 1_000_000

  /** Ascending by time, then by id. */
  predicate Chronological(a: Record, b: Record) {
    a.createdAt < b.createdAt || (a.createdAt == b.createdAt && LexLeq(a.id, b.id))
  }

  ghost predicate InOrder(rs: seq<Record>) {
    forall i, j :: 0 <= i < j < |rs| ==> rs[i].createdAt <= rs[j].createdAt
  }

  /** Records of one instant are in the order of their ids. */
  ghost predicate TiesById(rs: seq<Record>) {
    forall i, j :: 0 <= i < j < |rs| && rs[i].createdAt == rs[j].createdAt ==> LexLeq(rs[i].id, rs[j].id)
  }

  lemma ChronologicalTotal()
    ensures TotalPreorder(Chronological)
  {
    forall a, b
      ensures Chronological(a, b) || Chronological(b, a)
    {
      LexTotal(a.id, b.id);
    }
    forall a, b, c | Chronological(a, b) && Chronological(b, c)
      ensures Chronological(a, c)
    {
      if a.createdAt == b.createdAt == c.createdAt {
        LexTransitive(a.id, b.id, c.id);
      }
    }
  }

  // ---- what the walk computes, read off the sorted list ----

  /** A run is open after the first n records: the last lifecycle record among them is a START. */
  function OpenAfter(rs: seq<Record>, n: nat): bool
    requires n <= |rs|
  {
    n > 0 && (rs[n - 1].eventType == START || (rs[n - 1].eventType != SHUTDOWN && OpenAfter(rs, n - 1)))
  }

  /** Time between consecutive records, counted where a run was open. */
  function OpenTime(rs: seq<Record>, n: nat): int
    requires n <= |rs|
  {
    if n < 2 then 0
    else OpenTime(rs, n - 1) + if OpenAfter(rs, n - 1) then rs[n - 1].createdAt - rs[n - 2].createdAt else 0
  }

  ghost predicate Saw(rs: seq<Record>, n: nat, t: EventType)
    requires n <= |rs|
  {
    exists i :: 0 <= i < n && rs[i].eventType == t
  }

  /** at is the earliest time of a record of this type among the first n, if there is one. */
  ghost predicate IsFirst(rs: seq<Record>, n: nat, t: EventType, at: Option<int>)
    requires n <= |rs|
  {
    && (at.Some? <==> Saw(rs, n, t))
    && (at.Some? ==> (exists i :: 0 <= i < n && rs[i].eventType == t && rs[i].createdAt == at.value)
                     && forall i :: 0 <= i < n && rs[i].eventType == t ==> at.value <= rs[i].createdAt)
  }

  ghost predicate IsLast(rs: seq<Record>, n: nat, t: EventType, at: Option<int>)
    requires n <= |rs|
  {
    && (at.Some? <==> Saw(rs, n, t))
    && (at.Some? ==> (exists i :: 0 <= i < n && rs[i].eventType == t && rs[i].createdAt == at.value)
                     && forall i :: 0 <= i < n && rs[i].eventType == t ==> rs[i].createdAt <= at.value)
  }

  /** The last value of an optional payload field among the first n records. */
  function Latest<T>(rs: seq<Record>, n: nat, field: Record -> Option<T>): Option<T>
    requires n <= |rs|
  {
    if n == 0 then None else if field(rs[n - 1]).Some? then field(rs[n - 1]) else Latest(rs, n - 1, field)
  }

  function ProviderOf(r: Record): Option<string> { r.provider }
  function DryRunOf(r: Record): Option<bool> { r.dryRun }

  /** A readiness change with an unrecognised reason leaves the reported readiness alone. */
  function ReadinessOf(r: Record): Option<Reason> {
    if r.eventType == READY_STATE_CHANGED && r.reason != OTHER_REASON then Some(r.reason) else None
  }

  predicate IsDiscovery(r: Record) { r.eventType == MARKET_DISCOVERED }
  predicate IsRejection(r: Record) { r.eventType == MARKET_REJECTED || r.eventType == MARKET_QUARANTINE }

  // ---- the walk ----

  /** Pairs each SHUTDOWN with the open START and sums the spans; an open run is missing its last one. */
  method PairSpans(rs: seq<Record>)
    returns (startUtc: Option<int>, stopUtc: Option<int>, openStart: Option<int>, total: int)
    requires InOrder(rs)
    ensures IsFirst(rs, |rs|, START, startUtc) && IsLast(rs, |rs|, SHUTDOWN, stopUtc)
    ensures openStart.Some? == OpenAfter(rs, |rs|)
    ensures openStart.None? ==> total == OpenTime(rs, |rs|)
    ensures openStart.Some? ==>
              && openStart.value <= rs[|rs| - 1].createdAt
              && total + rs[|rs| - 1].createdAt - openStart.value == OpenTime(rs, |rs|)
  {
    startUtc, stopUtc, openStart, total := None, None, None, 0;
    for n := 0 to |rs|
      invariant IsFirst(rs, n, START, startUtc) && IsLast(rs, n, SHUTDOWN, stopUtc)
      invariant openStart.Some? == OpenAfter(rs, n)
      invariant openStart.Some? ==> openStart.value <= rs[n - 1].createdAt
      invariant total + (if openStart.Some? then rs[n - 1].createdAt - openStart.value else 0) == OpenTime(rs, n)
    {
      var ts := rs[n].createdAt;
      FirstStep(rs, n, START, startUtc);
      LastStep(rs, n, SHUTDOWN, stopUtc);
      if rs[n].eventType == START {
        if startUtc.None? || ts < startUtc.value {
          startUtc := Some(ts);
        }
        if openStart.None? {
          openStart := Some(ts);
        }
      } else if rs[n].eventType == SHUTDOWN {
        if stopUtc.None? || ts > stopUtc.value {
          stopUtc := Some(ts);
        }
        if openStart.Some? && ts >= openStart.value {
          total, openStart := total + ts - openStart.value, None;
        }
      }
    }
  }

  lemma FirstStep(rs: seq<Record>, n: nat, t: EventType, at: Option<int>)
    requires n < |rs| && IsFirst(rs, n, t, at)
    ensures var ts := rs[n].createdAt;
            IsFirst(rs, n + 1, t, if rs[n].eventType == t && (at.None? || ts < at.value) then Some(ts) else at)
  {
    if at.Some? {
      var i :| 0 <= i < n && rs[i].eventType == t && rs[i].createdAt == at.value;
      assert rs[i].eventType == t;
    }
    assert rs[n].eventType == t ==> Saw(rs, n + 1, t);
  }

  lemma LastStep(rs: seq<Record>, n: nat, t: EventType, at: Option<int>)
    requires n < |rs| && IsLast(rs, n, t, at)
    ensures var ts := rs[n].createdAt;
            IsLast(rs, n + 1, t, if rs[n].eventType == t && (at.None? || ts > at.value) then Some(ts) else at)
  {
    if at.Some? {
      var i :| 0 <= i < n && rs[i].eventType == t && rs[i].createdAt == at.value;
      assert rs[i].eventType == t;
    }
    assert rs[n].eventType == t ==> Saw(rs, n + 1, t);
  }

  /** Before any START nothing is open; an open run reaches at most from the first START to the last record. */
  lemma {:induction false} OpenTimeFromFirstStart(rs: seq<Record>, n: nat, start: int)
    requires InOrder(rs) && n <= |rs|
    requires forall i :: 0 <= i < n && rs[i].eventType == START ==> start <= rs[i].createdAt
    ensures OpenTime(rs, n) >= 0
    ensures !Saw(rs, n, START) ==> !OpenAfter(rs, n) && OpenTime(rs, n) == 0
    ensures Saw(rs, n, START) ==> OpenTime(rs, n) <= rs[n - 1].createdAt - start
  {
    if n > 0 {
      OpenTimeFromFirstStart(rs, n - 1, start);
      if rs[n - 1].eventType == START {
        assert Saw(rs, n, START);
      }
      if Saw(rs, n - 1, START) {
        var i :| 0 <= i < n - 1 && rs[i].eventType == START;
        assert rs[i].eventType == START;
        assert n >= 2 && rs[n - 2].createdAt <= rs[n - 1].createdAt;
      }
    }
  }

  /** Once every run is closed, uptime fits between the first START and the last SHUTDOWN. */
  lemma {:induction false} OpenTimeWithinRun(rs: seq<Record>, n: nat, start: int, stop: int)
    requires InOrder(rs) && n <= |rs| && Saw(rs, n, START) && !OpenAfter(rs, n)
    requires forall i :: 0 <= i < n && rs[i].eventType == START ==> start <= rs[i].createdAt
    requires forall i :: 0 <= i < n && rs[i].eventType == SHUTDOWN ==> rs[i].createdAt <= stop
    ensures 0 <= OpenTime(rs, n) <= stop - start
  {
    if rs[n - 1].eventType == SHUTDOWN {
      OpenTimeFromFirstStart(rs, n, start);
    } else {
      var i :| 0 <= i < n && rs[i].eventType == START;
      assert i < n - 1;
      assert Saw(rs, n - 1, START);
      OpenTimeWithinRun(rs, n - 1, start, stop);
    }
  }

  /** The "latest wins" fields and the market counts. */
  method LatestFields(rs: seq<Record>)
    returns (provider: Option<string>, dryRun: Option<bool>, readiness: Option<Reason>, seen: nat, rejected: nat)
    requires InOrder(rs)
    ensures IsLatest(rs, provider, ProviderOf) && IsLatest(rs, dryRun, DryRunOf) && IsLatestReadiness(rs, readiness)
    ensures seen == |Discoveries(rs)| && rejected == |Rejections(rs)|
  {
    provider, dryRun, readiness, seen, rejected := None, None, None, 0, 0;
    var providerTs: Option<int>, dryRunTs: Option<int>, readinessTs: Option<int> := None, None, None;
    for n := 0 to |rs|
      invariant provider == Latest(rs, n, ProviderOf) && dryRun == Latest(rs, n, DryRunOf)
      invariant readiness == Latest(rs, n, ReadinessOf)
      invariant seen == Count(rs[..n], IsDiscovery) && rejected == Count(rs[..n], IsRejection)
      invariant NotAfter(rs, n, providerTs) && NotAfter(rs, n, dryRunTs) && NotAfter(rs, n, readinessTs)
    {
      var r := rs[n];
      var ts := r.createdAt;
      assert rs[..n + 1] == rs[..n] + [r];
      CountOneMore(rs[..n], r, IsDiscovery);
      CountOneMore(rs[..n], r, IsRejection);
      if r.eventType == READY_STATE_CHANGED && (readinessTs.None? || ts >= readinessTs.value) {
        readinessTs := Some(ts);
        if r.reason != OTHER_REASON {
          readiness := Some(r.reason);
        }
      }
      if r.provider.Some? && (providerTs.None? || ts >= providerTs.value) {
        providerTs, provider := Some(ts), r.provider;
      }
      if r.dryRun.Some? && (dryRunTs.None? || ts >= dryRunTs.value) {
        dryRunTs, dryRun := Some(ts), r.dryRun;
      }
      if IsDiscovery(r) {
        seen := seen + 1;
      }
      if IsRejection(r) {
        rejected := rejected + 1;
      }
    }
    assert rs[..|rs|] == rs;
    LatestMeans(rs, |rs|, ProviderOf);
    LatestMeans(rs, |rs|, DryRunOf);
    LatestMeans(rs, |rs|, ReadinessOf);
    LatestReadinessMeans(rs, readiness);
    CountedBySize(rs);
  }

  /** No record from n on is earlier than the stamp. */
  ghost predicate NotAfter(rs: seq<Record>, n: nat, ts: Option<int>) {
    ts.Some? ==> forall i :: n <= i < |rs| ==> ts.value <= rs[i].createdAt
  }

  /** The value of the last record that has one. */
  ghost predicate IsLatest<T>(rs: seq<Record>, value: Option<T>, field: Record -> Option<T>) {
    if value.None? then forall i :: 0 <= i < |rs| ==> field(rs[i]).None?
    else exists i :: 0 <= i < |rs| && field(rs[i]) == value && forall j :: i < j < |rs| ==> field(rs[j]).None?
  }

  predicate TellsReadiness(r: Record) { r.eventType == READY_STATE_CHANGED && r.reason in {READY, DEGRADED, NOT_READY} }

  /** The reason of the last readiness change that gives a known one. */
  ghost predicate IsLatestReadiness(rs: seq<Record>, value: Option<Reason>) {
    if value.None? then forall i :: 0 <= i < |rs| ==> !TellsReadiness(rs[i])
    else exists i :: 0 <= i < |rs| && TellsReadiness(rs[i]) && value == Some(rs[i].reason)
                     && forall j :: i < j < |rs| ==> !TellsReadiness(rs[j])
  }

  lemma {:induction false} LatestWithin<T>(rs: seq<Record>, n: nat, field: Record -> Option<T>)
    requires n <= |rs|
    ensures var value := Latest(rs, n, field);
            if value.None? then forall i :: 0 <= i < n ==> field(rs[i]).None?
            else exists i :: 0 <= i < n && field(rs[i]) == value && forall j :: i < j < n ==> field(rs[j]).None?
  {
    if n > 0 && field(rs[n - 1]).None? {
      LatestWithin(rs, n - 1, field);
    }
  }

  lemma LatestMeans<T>(rs: seq<Record>, n: nat, field: Record -> Option<T>)
    requires n == |rs|
    ensures IsLatest(rs, Latest(rs, n, field), field)
  {
    LatestWithin(rs, n, field);
  }

  lemma LatestReadinessMeans(rs: seq<Record>, value: Option<Reason>)
    requires IsLatest(rs, value, ReadinessOf)
    ensures IsLatestReadiness(rs, value)
  {
    forall i | 0 <= i < |rs|
      ensures ReadinessOf(rs[i]).Some? <==> TellsReadiness(rs[i])
    {
    }
  }

  function Discoveries(rs: seq<Record>): set<int> { set i | 0 <= i < |rs| && rs[i].eventType == MARKET_DISCOVERED }

  /** Where a market was turned away, for good or for a while. */
  function Rejections(rs: seq<Record>): set<int> {
    set i | 0 <= i < |rs| && (rs[i].eventType == MARKET_REJECTED || rs[i].eventType == MARKET_QUARANTINE)
  }

  lemma CountedBySize(rs: seq<Record>)
    ensures Count(rs, IsDiscovery) == |Discoveries(rs)| && Count(rs, IsRejection) == |Rejections(rs)|
  {
    CountIsSize(rs, IsDiscovery);
    CountIsSize(rs, IsRejection);
    assert Discoveries(rs) == Places(rs, IsDiscovery);
    assert Rejections(rs) == Places(rs, IsRejection);
  }

  // ---- what the open time is made of ----

  /** A run that starts at i and stops at j counts from the one to the other; further STARTs change nothing. */
  lemma {:induction false} SpanCounts(rs: seq<Record>, i: nat, j: nat)
    requires i < j < |rs| && !OpenAfter(rs, i) && rs[i].eventType == START
    requires forall k :: i < k < j ==> rs[k].eventType != SHUTDOWN
    ensures OpenAfter(rs, j)
    ensures OpenTime(rs, j + 1) == OpenTime(rs, i) + rs[j].createdAt - rs[i].createdAt
    ensures OpenAfter(rs, j + 1) <==> rs[j].eventType != SHUTDOWN
  {
    if i + 1 < j {
      SpanCounts(rs, i, j - 1);
    } else {
      assert OpenTime(rs, i + 1) == OpenTime(rs, i);
    }
  }

  /** While no run is open no time counts, whatever else happens. */
  lemma {:induction false} IdleCountsNothing(rs: seq<Record>, i: nat, j: nat)
    requires i <= j <= |rs| && !OpenAfter(rs, i) && forall k :: i <= k < j ==> rs[k].eventType != START
    ensures OpenTime(rs, j) == OpenTime(rs, i) && !OpenAfter(rs, j)
  {
    if i < j {
      IdleCountsNothing(rs, i, j - 1);
    }
  }

  /** A START that no SHUTDOWN follows. */
  ghost predicate HasUnmatchedStart(rs: seq<Record>) {
    exists i :: 0 <= i < |rs| && rs[i].eventType == START && forall j :: i < j < |rs| ==> rs[j].eventType != SHUTDOWN
  }

  /** Sorts the records and derives the summary of the day's runs. */
  method DeriveRunSummary(records: seq<Record>) returns (s: RunSummary)
    ensures var rs := Sort(records, Chronological);
            && InOrder(rs) && TiesById(rs) && multiset(rs) == multiset(records)
            && (s.status == PARTIAL <==> HasUnmatchedStart(rs))
            && (s.status == COMPLETED <==> !HasUnmatchedStart(rs) && Saw(rs, |rs|, START))
            && (s.status == UNKNOWN <==> records != [] && !Saw(rs, |rs|, START))
            && (s.status == NO_RUN <==> records == [])
            && (s.uptimeSeconds.Some? <==> s.status == COMPLETED)
            && (s.status == COMPLETED ==>
                  && s.startUtc.Some? && s.stopUtc.Some?
                  && 0 <= OpenTime(rs, |rs|) <= s.stopUtc.value - s.startUtc.value
                  && s.uptimeSeconds.value * 1_000_000 <= OpenTime(rs, |rs|) < (s.uptimeSeconds.value + 1) * 1_000_000)
            && IsFirst(rs, |rs|, START, s.startUtc) && IsLast(rs, |rs|, SHUTDOWN, s.stopUtc)
            && IsLatest(rs, s.provider, ProviderOf) && IsLatest(rs, s.dryRun, DryRunOf)
            && IsLatestReadiness(rs, s.readiness)
            && s.marketsSeen == |Discoveries(rs)| && s.marketsRejected == |Rejections(rs)|
  {
    var rs := Sort(records, Chronological);
    SortedInOrder(records);
    var startUtc, stopUtc, openStart, total := PairSpans(rs);
    var provider, dryRun, readiness, seen, rejected := LatestFields(rs);
    ClosedRuns(rs, startUtc, stopUtc, openStart, total);
    var sawStart, sawShutdown := startUtc.Some?, stopUtc.Some?;
    var status :=
      if openStart.Some? then PARTIAL
      else if sawStart && sawShutdown then COMPLETED
      else if sawStart then PARTIAL
      else if |rs| > 0 then UNKNOWN
      else NO_RUN;
    var uptime := if sawStart && sawShutdown && openStart.None? then Some(total / MICROSECONDS) else None;
    s := RunSummary(startUtc, stopUtc, uptime, status, provider, dryRun, readiness, seen, rejected);
  }

  /** What the paired spans say about the day: an unmatched START, or a total that fits between first and last. */
  lemma ClosedRuns(rs: seq<Record>, startUtc: Option<int>, stopUtc: Option<int>, openStart: Option<int>, total: int)
    requires InOrder(rs) && IsFirst(rs, |rs|, START, startUtc) && IsLast(rs, |rs|, SHUTDOWN, stopUtc)
    requires openStart.Some? == OpenAfter(rs, |rs|) && (openStart.None? ==> total == OpenTime(rs, |rs|))
    ensures openStart.Some? <==> HasUnmatchedStart(rs)
    ensures openStart.Some? ==> startUtc.Some?
    ensures startUtc.Some? && openStart.None? ==> stopUtc.Some? && 0 <= total <= stopUtc.value - startUtc.value
  {
    OpenIffUnmatched(rs, |rs|);
    ClosedMeansShutdown(rs, |rs|);
    if startUtc.Some? && openStart.None? {
      OpenTimeWithinRun(rs, |rs|, startUtc.value, stopUtc.value);
    }
    if openStart.Some? {
      var i :| 0 <= i < |rs| && rs[i].eventType == START && forall j :: i < j < |rs| ==> rs[j].eventType != SHUTDOWN;
    }
  }

  lemma SortedInOrder(records: seq<Record>)
    ensures var rs := Sort(records, Chronological);
            InOrder(rs) && TiesById(rs) && multiset(rs) == multiset(records) && |rs| == |records|
  {
    ChronologicalTotal();
    SortCorrect(records, Chronological);
    var rs := Sort(records, Chronological);
    forall i, j | 0 <= i < j < |rs|
      ensures rs[i].createdAt <= rs[j].createdAt
      ensures rs[i].createdAt == rs[j].createdAt ==> LexLeq(rs[i].id, rs[j].id)
    {
      assert Chronological(rs[i], rs[j]);
    }
  }

  ghost predicate UnmatchedWithin(rs: seq<Record>, n: nat)
    requires n <= |rs|
  {
    exists i :: 0 <= i < n && rs[i].eventType == START && forall j :: i < j < n ==> rs[j].eventType != SHUTDOWN
  }

  lemma {:induction false} OpenIffUnmatched(rs: seq<Record>, n: nat)
    requires n <= |rs|
    ensures OpenAfter(rs, n) <==> UnmatchedWithin(rs, n)
    ensures n == |rs| ==> (UnmatchedWithin(rs, n) <==> HasUnmatchedStart(rs))
  {
    if n > 0 {
      OpenIffUnmatched(rs, n - 1);
      if rs[n - 1].eventType == START {
        assert UnmatchedWithin(rs, n);
      } else if OpenAfter(rs, n) {
        var i :|
          0 <= i < n - 1 && rs[i].eventType == START && forall j :: i < j < n - 1 ==> rs[j].eventType != SHUTDOWN;
        assert UnmatchedWithin(rs, n);
      }
    }
  }

  /** When no run is open, every START has been followed by a SHUTDOWN. */
  lemma {:induction false} ClosedMeansShutdown(rs: seq<Record>, n: nat)
    requires n <= |rs|
    ensures !OpenAfter(rs, n) && Saw(rs, n, START) ==> Saw(rs, n, SHUTDOWN)
  {
    if n > 0 {
      ClosedMeansShutdown(rs, n - 1);
      if rs[n - 1].eventType == SHUTDOWN {
        assert Saw(rs, n, SHUTDOWN);
      } else if Saw(rs, n - 1, SHUTDOWN) {
        var i :| 0 <= i < n - 1 && rs[i].eventType == SHUTDOWN;
        assert rs[i].eventType == SHUTDOWN;
      }
    }
  }
}
