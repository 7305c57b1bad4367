/**
 * Whole runs of the bus: any interleaving of publishes, batch takes and batch
 * completions (several batches may be in flight, and each may end in any way).
 */
module EventBusRuns {
  import opened Wrappers
  import opened Sequences
  import opened Schemas
  import opened EventBus

  datatype Action = Offer(e: Event) | Take | Finish(i: nat, how: Persist)

  /** A batch whose flush is over. */
  datatype Flush = Flush(batch: seq<Event>, how: Persist)

  /** The bus together with the log of everything that happened to each event. */
  datatype Run = Run(
    bus: State,
    inFlight: seq<seq<Event>>,
    offered: seq<Event>,
    accepted: seq<Event>,
    taken: seq<Event>,
    evicted: seq<Event>,
    refused: seq<Event>,
    uncounted: nat,
    flushed: seq<Flush>)

  const INITIAL_RUN := Run(State([], 0, 0, false, 0), [], [], [], [], [], [], 0, [])

  predicate AllCritical(queue: seq<Event>) { forall i :: 0 <= i < |queue| ==> IsCritical(queue[i]) }

  /** An event that may evict meets a full queue with nothing in it to evict. */
  predicate HitsWall(c: Config, s: State, e: Event) {
    Full(c, s.queue) && EvictsOldest(c, e) && AllCritical(s.queue)
  }

  function EvictedBy(c: Config, s: State, e: Event): seq<Event> {
    if !Full(c, s.queue) then []
    else match Victim(c, s, e)
      case Some(i) => [s.queue[i]]
      case None => []
  }

  function Step(c: Config, r: Run, a: Action): Run {
    match a
    case Offer(e) =>
      var ok := Accepts(c, r.bus, e);
      r.(bus := Offered(c, r.bus, e),
         offered := r.offered + [e],
         accepted := if ok then r.accepted + [e] else r.accepted,
         evicted := r.evicted + EvictedBy(c, r.bus, e),
         refused := if ok then r.refused else r.refused + [e],
         uncounted := if HitsWall(c, r.bus, e) then r.uncounted + 1 else r.uncounted)
    case Take =>
      var batch := r.bus.queue[..BatchLength(c, r.bus)];
      if batch == [] then r
      else r.(bus := Taken(c, r.bus), inFlight := r.inFlight + [batch], taken := r.taken + batch)
    case Finish(i, how) =>
      if i >= |r.inFlight| then r
      else r.(bus := Finished(c, r.bus, r.inFlight[i], how),
              inFlight := RemoveAt(r.inFlight, i),
              flushed := r.flushed + [Flush(r.inFlight[i], how)])
  }

  function Exec(c: Config, actions: seq<Action>): Run {
    if actions == [] then INITIAL_RUN
    else Step(c, Exec(c, actions[..|actions| - 1]), actions[|actions| - 1])
  }

  /** Everything the bus still answers for, oldest first. */
  function Kept(r: Run): seq<Event> { r.taken + r.bus.queue }

  function Infos(batches: seq<seq<Event>>): nat {
    if batches == [] then 0 else Infos(batches[..|batches| - 1]) + InfoCount(batches[|batches| - 1])
  }

  /** The events of the batches whose persist raised or was cancelled before it was over. */
  function Lost(flushed: seq<Flush>): seq<Event> {
    if flushed == [] then [] else
      var f := flushed[|flushed| - 1];
      Lost(flushed[..|flushed| - 1]) + if f.how.Raised? || f.how.Cancelled? then f.batch else []
  }

  // ---- order, safety of critical events, conservation ----

  ghost predicate Ordered(r: Run) {
    Subsequence(Kept(r), r.accepted) && Subsequence(r.accepted, r.offered)
  }

  ghost predicate CriticalSafe(r: Run) {
    && Filter(Kept(r), IsCritical) == Filter(r.accepted, IsCritical)
    && forall i :: 0 <= i < |r.evicted| ==> !IsCritical(r.evicted[i])
  }

  ghost predicate Accounted(r: Run) {
    && multiset(r.offered) == multiset(r.accepted) + multiset(r.refused)
    && multiset(r.accepted) == multiset(Kept(r)) + multiset(r.evicted)
    && r.bus.droppedTotal == |r.evicted| + |r.refused| - r.uncounted
    && r.uncounted <= |r.refused|
  }

  ghost predicate WithinCapacity(c: Config, r: Run) { 0 < c.queueSize ==> |r.bus.queue| <= c.queueSize }

  /** The diagnostic counter never exceeds the INFO events queued, in flight or lost with a failed flush. */
  ghost predicate CounterBounded(r: Run) {
    r.bus.diagnosticCount <= InfoCount(r.bus.queue) + Infos(r.inFlight) + InfoCount(Lost(r.flushed))
  }

  // The four shapes a step can have, as far as the logs are concerned.

  ghost predicate Appends(r: Run, s: Run, e: Event) {
    && Kept(s) == Kept(r) + [e] && s.accepted == r.accepted + [e] && s.offered == r.offered + [e]
    && s.evicted == r.evicted && s.refused == r.refused && s.uncounted == r.uncounted
    && s.bus.droppedTotal == r.bus.droppedTotal
  }

  ghost predicate Replaces(r: Run, s: Run, e: Event, at: nat) {
    && at < |Kept(r)| && !IsCritical(Kept(r)[at])
    && Kept(s) == RemoveAt(Kept(r), at) + [e] && s.accepted == r.accepted + [e] && s.offered == r.offered + [e]
    && s.evicted == r.evicted + [Kept(r)[at]] && s.refused == r.refused && s.uncounted == r.uncounted
    && s.bus.droppedTotal == r.bus.droppedTotal + 1
  }

  ghost predicate Refuses(r: Run, s: Run, e: Event) {
    && Kept(s) == Kept(r) && s.accepted == r.accepted && s.offered == r.offered + [e]
    && s.evicted == r.evicted && s.refused == r.refused + [e] && r.uncounted <= s.uncounted <= r.uncounted + 1
    && s.bus.droppedTotal == r.bus.droppedTotal + 1 - (s.uncounted - r.uncounted)
  }

  ghost predicate LeavesLogs(r: Run, s: Run) {
    && Kept(s) == Kept(r) && s.accepted == r.accepted && s.offered == r.offered
    && s.evicted == r.evicted && s.refused == r.refused && s.uncounted == r.uncounted
    && s.bus.droppedTotal == r.bus.droppedTotal
  }

  lemma OfferShape(c: Config, r: Run, e: Event) returns (at: nat)
    ensures var s := Step(c, r, Offer(e)); Appends(r, s, e) || Replaces(r, s, e, at) || Refuses(r, s, e)
  {
    at := 0;
    if !Full(c, r.bus.queue) {
      assert Kept(r) + [e] == r.taken + (r.bus.queue + [e]);
    } else if Victim(c, r.bus, e).Some? {
      at := |r.taken| + Victim(c, r.bus, e).value;
      RemoveBehind(r.taken, r.bus.queue, Victim(c, r.bus, e).value, e);
    }
  }

  /** Removing from the queue is removing from everything kept. */
  lemma RemoveBehind(taken: seq<Event>, queue: seq<Event>, i: nat, e: Event)
    requires i < |queue|
    ensures (taken + queue)[|taken| + i] == queue[i]
    ensures RemoveAt(taken + queue, |taken| + i) + [e] == taken + (RemoveAt(queue, i) + [e])
  {
  }

  lemma FlushShape(c: Config, r: Run, a: Action)
    requires !a.Offer?
    ensures LeavesLogs(r, Step(c, r, a))
  {
    if a.Take? {
      var n := BatchLength(c, r.bus);
      assert (r.taken + r.bus.queue[..n]) + r.bus.queue[n..] == Kept(r);
    }
  }

  lemma AppendKeeps(r: Run, s: Run, e: Event)
    requires Appends(r, s, e)
    ensures Ordered(r) ==> Ordered(s)
    ensures CriticalSafe(r) ==> CriticalSafe(s)
    ensures Accounted(r) ==> Accounted(s)
  {
    if Ordered(r) {
      SubsequenceExtend(Kept(r), r.accepted, e);
      SubsequenceExtend(r.accepted, r.offered, e);
    }
    FilterConcat(r.accepted, [e], IsCritical);
    FilterConcat(Kept(r), [e], IsCritical);
  }

  lemma ReplaceKeepsOrder(r: Run, s: Run, e: Event, at: nat)
    requires Replaces(r, s, e, at) && Ordered(r)
    ensures Ordered(s)
  {
    SubsequenceRemoveAt(Kept(r), r.accepted, at);
    SubsequenceExtend(RemoveAt(Kept(r), at), r.accepted, e);
    SubsequenceExtend(r.accepted, r.offered, e);
  }

  lemma ReplaceKeepsCritical(r: Run, s: Run, e: Event, at: nat)
    requires Replaces(r, s, e, at) && CriticalSafe(r)
    ensures CriticalSafe(s)
  {
    FilterConcat(r.accepted, [e], IsCritical);
    FilterRemoveAt(Kept(r), at, IsCritical);
    FilterConcat(RemoveAt(Kept(r), at), [e], IsCritical);
  }

  lemma ReplaceKeepsAccount(r: Run, s: Run, e: Event, at: nat)
    requires Replaces(r, s, e, at) && Accounted(r)
    ensures Accounted(s)
  {
    MultisetRemoveAt(Kept(r), at);
  }

  lemma RefuseKeeps(r: Run, s: Run, e: Event)
    requires Refuses(r, s, e)
    ensures Ordered(r) ==> Ordered(s)
    ensures CriticalSafe(r) ==> CriticalSafe(s)
    ensures Accounted(r) ==> Accounted(s)
  {
    if Ordered(r) {
      SubsequenceExtend(r.accepted, r.offered, e);
    }
  }

  lemma LogStep(c: Config, r: Run, a: Action)
    requires Ordered(r) && CriticalSafe(r) && Accounted(r)
    ensures var s := Step(c, r, a); Ordered(s) && CriticalSafe(s) && Accounted(s)
  {
    var s := Step(c, r, a);
    if a.Offer? {
      var at := OfferShape(c, r, a.e);
      if Appends(r, s, a.e) {
        AppendKeeps(r, s, a.e);
      } else if Replaces(r, s, a.e, at) {
        ReplaceKeepsOrder(r, s, a.e, at);
        ReplaceKeepsCritical(r, s, a.e, at);
        ReplaceKeepsAccount(r, s, a.e, at);
      } else {
        RefuseKeeps(r, s, a.e);
      }
    } else {
      FlushShape(c, r, a);
    }
  }

  lemma InfoCountConcat(a: seq<Event>, b: seq<Event>)
    ensures InfoCount(a + b) == InfoCount(a) + InfoCount(b)
  {
    FilterConcat(a, b, IsDiagnostic);
  }

  lemma InfoCountRemoveAt(q: seq<Event>, i: nat)
    requires i < |q|
    ensures InfoCount(RemoveAt(q, i)) == InfoCount(q) - InfoWeight(q[i])
  {
    assert q == q[..i] + ([q[i]] + q[i + 1..]);
    InfoCountConcat(q[..i], [q[i]] + q[i + 1..]);
    InfoCountConcat([q[i]], q[i + 1..]);
    InfoCountConcat(q[..i], q[i + 1..]);
    assert Filter([q[i]], IsDiagnostic) == if IsDiagnostic(q[i]) then [q[i]] else [];
  }

  lemma {:induction false} InfosRemoveAt(batches: seq<seq<Event>>, i: nat)
    requires i < |batches|
    ensures Infos(RemoveAt(batches, i)) == Infos(batches) - InfoCount(batches[i])
  {
    var n := |batches| - 1;
    if i == n {
      assert RemoveAt(batches, i) == batches[..n];
    } else {
      InfosRemoveAt(batches[..n], i);
      assert RemoveAt(batches, i)[..n - 1] == RemoveAt(batches[..n], i);
    }
  }

  lemma FlushedExtend(flushed: seq<Flush>, f: Flush)
    ensures Lost(flushed + [f]) == Lost(flushed) + if f.how.Raised? || f.how.Cancelled? then f.batch else []
  {
    assert (flushed + [f])[..|flushed|] == flushed;
  }

  /** A batch that is lost goes from the INFO events in flight to those lost. */
  lemma FinishMoves(r: Run, i: nat, f: Flush)
    requires i < |r.inFlight| && f.batch == r.inFlight[i]
    ensures Infos(RemoveAt(r.inFlight, i)) == Infos(r.inFlight) - InfoCount(f.batch)
    ensures InfoCount(Lost(r.flushed + [f]))
         == InfoCount(Lost(r.flushed)) + if f.how.Raised? || f.how.Cancelled? then InfoCount(f.batch) else 0
  {
    InfosRemoveAt(r.inFlight, i);
    FlushedExtend(r.flushed, f);
    InfoCountConcat(Lost(r.flushed), f.batch);
    assert Lost(r.flushed) + [] == Lost(r.flushed);
  }

  // ---- the diagnostic counter, against the INFO events there are ----

  /** An INFO event takes the place of an INFO event that the diagnostic scan popped: it is stored uncounted. */
  predicate IsSwap(c: Config, s: State, e: Event) { Full(c, s.queue) && FindsDiagnostic(s) && IsDiagnostic(e) }

  function Swaps(c: Config, actions: seq<Action>): nat {
    if actions == [] then 0 else
      var before, a := actions[..|actions| - 1], actions[|actions| - 1];
      Swaps(c, before) + if a.Offer? && IsSwap(c, Exec(c, before).bus, a.e) then 1 else 0
  }

  /** INFO events queued, in flight or lost with a failed flush that the counter does not account for. */
  function Uncovered(r: Run): int {
    InfoCount(r.bus.queue) + Infos(r.inFlight) + InfoCount(Lost(r.flushed)) - r.bus.diagnosticCount
  }

  lemma OfferUncovers(c: Config, r: Run, e: Event)
    ensures Uncovered(Step(c, r, Offer(e))) == Uncovered(r) + if IsSwap(c, r.bus, e) then 1 else 0
  {
    FilterOneMore(r.bus.queue, e, IsDiagnostic);
    if Full(c, r.bus.queue) && Victim(c, r.bus, e).Some? {
      var i := Victim(c, r.bus, e).value;
      InfoCountRemoveAt(r.bus.queue, i);
      FilterOneMore(RemoveAt(r.bus.queue, i), e, IsDiagnostic);
    }
  }

  lemma TakeUncovers(c: Config, r: Run)
    ensures Uncovered(Step(c, r, Take)) == Uncovered(r)
  {
    var n := BatchLength(c, r.bus);
    var batch := r.bus.queue[..n];
    assert r.bus.queue == batch + r.bus.queue[n..];
    InfoCountConcat(batch, r.bus.queue[n..]);
    assert (r.inFlight + [batch])[..|r.inFlight|] == r.inFlight;
  }

  /** What a flush takes off the counter: nothing when the batch is lost, else what there is of its INFO events. */
  lemma FinishedCounter(c: Config, s: State, batch: seq<Event>, how: Persist)
    ensures var t, n, lost := Finished(c, s, batch, how), InfoCount(batch), how.Raised? || how.Cancelled?;
            && t.queue == s.queue
            && t.diagnosticCount
               == if lost then s.diagnosticCount else if s.diagnosticCount < n then 0 else s.diagnosticCount - n
  {
  }

  lemma FinishUncovers(c: Config, r: Run, i: nat, how: Persist)
    requires i < |r.inFlight|
    ensures var u := Uncovered(Step(c, r, Finish(i, how)));
            u <= Uncovered(r) && (Uncovered(r) >= 0 ==> u >= 0)
  {
    var f, s := Flush(r.inFlight[i], how), Step(c, r, Finish(i, how));
    FinishedCounter(c, r.bus, f.batch, how);
    FinishMoves(r, i, f);
    assert s.bus == Finished(c, r.bus, f.batch, how);
    assert s.inFlight == RemoveAt(r.inFlight, i) && s.flushed == r.flushed + [f];
  }

  lemma CounterStep(c: Config, r: Run, a: Action)
    requires CounterBounded(r)
    ensures CounterBounded(Step(c, r, a))
  {
    match a {
      case Offer(e) => OfferUncovers(c, r, e);
      case Take => TakeUncovers(c, r);
      case Finish(i, how) =>
        if i < |r.inFlight| {
          FinishUncovers(c, r, i, how);
        }
    }
  }

  /** The counter covers every INFO event queued, in flight or lost with a failed flush, apart from the swaps. */
  lemma {:induction false} CounterFloor(c: Config, actions: seq<Action>)
    ensures var r := Exec(c, actions);
            InfoCount(r.bus.queue) + Infos(r.inFlight) + InfoCount(Lost(r.flushed))
            <= r.bus.diagnosticCount + Swaps(c, actions)
  {
    if actions != [] {
      var before, a := actions[..|actions| - 1], actions[|actions| - 1];
      CounterFloor(c, before);
      match a {
        case Offer(e) => OfferUncovers(c, Exec(c, before), e);
        case Take => TakeUncovers(c, Exec(c, before));
        case Finish(i, how) =>
          if i < |Exec(c, before).inFlight| {
            FinishUncovers(c, Exec(c, before), i, how);
          }
      }
    }
  }

  lemma CapacityStep(c: Config, r: Run, a: Action)
    requires WithinCapacity(c, r)
    ensures WithinCapacity(c, Step(c, r, a))
  {
  }

  /** What holds after every run: order, safety of critical events, accounting, capacity, counter bound. */
  lemma {:induction false} EveryRun(c: Config, actions: seq<Action>)
    ensures var r := Exec(c, actions);
            Ordered(r) && CriticalSafe(r) && Accounted(r) && WithinCapacity(c, r) && CounterBounded(r)
  {
    if actions == [] {
      assert Embeds([], Kept(INITIAL_RUN), INITIAL_RUN.accepted);
      assert Embeds([], INITIAL_RUN.accepted, INITIAL_RUN.offered);
    } else {
      var before, a := actions[..|actions| - 1], actions[|actions| - 1];
      EveryRun(c, before);
      LogStep(c, Exec(c, before), a);
      CounterStep(c, Exec(c, before), a);
      CapacityStep(c, Exec(c, before), a);
    }
  }

  /** Batches handed to the ledger, then the queue, are the offered events in order with some left out. */
  lemma TakenThenQueuedInOrder(c: Config, actions: seq<Action>)
    ensures var r := Exec(c, actions); Subsequence(r.taken + r.bus.queue, r.offered)
  {
    var r := Exec(c, actions);
    EveryRun(c, actions);
    SubsequenceTransitive(Kept(r), r.accepted, r.offered);
  }

  /** An offer adds to droppedTotal what it loses, except when it hits the wall: then the refusal goes uncounted. */
  lemma OfferCountedIff(c: Config, s: State, e: Event)
    ensures var losses := |EvictedBy(c, s, e)| + if Accepts(c, s, e) then 0 else 1;
            Offered(c, s, e).droppedTotal == s.droppedTotal + losses <==> !HitsWall(c, s, e)
    ensures HitsWall(c, s, e) ==> !Accepts(c, s, e)
  {
    NothingToEvictIff(s.queue);
  }

  lemma NothingToEvictIff(queue: seq<Event>)
    ensures AllCritical(queue) <==> FirstIndex(queue, IsDroppable) == |queue|
    ensures AllCritical(queue) ==> FirstIndex(queue, IsDiagnostic) == |queue|
  {
    if FirstIndex(queue, IsDroppable) == |queue| {
      assert forall i :: 0 <= i < |queue| ==> !IsDroppable(queue[i]);
    }
  }

  predicate WallAt(c: Config, actions: seq<Action>, n: nat)
    requires n < |actions|
  {
    actions[n].Offer? && HitsWall(c, Exec(c, actions[..n]).bus, actions[n].e)
  }

  /** No offer of the run hits the wall. */
  ghost predicate NeverHitsWall(c: Config, actions: seq<Action>) {
    forall n :: 0 <= n < |actions| ==> !WallAt(c, actions, n)
  }

  lemma WallAtPrefix(c: Config, actions: seq<Action>, n: nat, m: nat)
    requires n < m <= |actions|
    ensures WallAt(c, actions[..m], n) == WallAt(c, actions, n)
  {
    assert actions[..m][..n] == actions[..n];
  }

  lemma {:induction false} UncountedIff(c: Config, actions: seq<Action>)
    ensures Exec(c, actions).uncounted == 0 <==> NeverHitsWall(c, actions)
  {
    if actions != [] {
      var last := |actions| - 1;
      UncountedIff(c, actions[..last]);
      forall n | 0 <= n < last
        ensures WallAt(c, actions[..last], n) == WallAt(c, actions, n)
      {
        WallAtPrefix(c, actions, n, last);
      }
      UncountedStep(c, actions);
    }
  }

  lemma UncountedStep(c: Config, actions: seq<Action>)
    requires actions != []
    ensures var last := |actions| - 1;
            Exec(c, actions).uncounted == Exec(c, actions[..last]).uncounted + if WallAt(c, actions, last) then 1 else 0
  {
  }

  /**
   * Every event offered is queued, taken, evicted or refused, and droppedTotal counts all that were
   * evicted or refused exactly when no offer of the run hit the wall.
   */
  lemma DroppedTotalExact(c: Config, actions: seq<Action>)
    ensures var r := Exec(c, actions);
            && |r.offered| == |r.bus.queue| + |r.taken| + |r.evicted| + |r.refused|
            && r.bus.droppedTotal <= |r.evicted| + |r.refused|
            && (r.bus.droppedTotal == |r.evicted| + |r.refused| <==> NeverHitsWall(c, actions))
  {
    var r := Exec(c, actions);
    EveryRun(c, actions);
    UncountedIff(c, actions);
    assert |multiset(r.offered)| == |multiset(r.accepted)| + |multiset(r.refused)|;
  }

  function Offers(es: seq<Event>): (actions: seq<Action>)
    ensures |actions| == |es|
    ensures forall i :: 0 <= i < |es| ==> actions[i] == Offer(es[i])
  {
    seq(|es|, i requires 0 <= i < |es| => Offer(es[i]))
  }

  lemma ExecOneMore(c: Config, actions: seq<Action>, a: Action)
    ensures Exec(c, actions + [a]) == Step(c, Exec(c, actions), a)
  {
    assert (actions + [a])[..|actions|] == actions;
  }

  /** What is left after some events were queued and nothing else happened. */
  function Filled(es: seq<Event>): Run { Run(State(es, 0, 0, false, 0), [], es, es, [], [], [], 0, []) }

  lemma FilledStep(c: Config, es: seq<Event>, e: Event)
    requires |es| < c.queueSize && !IsDiagnostic(e)
    ensures Step(c, Filled(es), Offer(e)) == Filled(es + [e])
  {
  }

  /** Events that fit and are not INFO are queued in order, and nothing else happens. */
  lemma {:induction false} FillQueue(c: Config, es: seq<Event>)
    requires |es| <= c.queueSize && forall i :: 0 <= i < |es| ==> !IsDiagnostic(es[i])
    ensures Exec(c, Offers(es)) == Filled(es)
  {
    if es != [] {
      var n := |es| - 1;
      FillQueue(c, es[..n]);
      assert Offers(es) == Offers(es[..n]) + [Offer(es[n])];
      ExecOneMore(c, Offers(es[..n]), Offer(es[n]));
      FilledStep(c, es[..n], es[n]);
      assert es == es[..n] + [es[n]];
    }
  }

  /** At any queue size, a queue filled with critical events refuses one more without counting it. */
  lemma RefusalGoesUncounted(c: Config, es: seq<Event>, e: Event)
    requires |es| == c.queueSize >= 1 && AllCritical(es) && IsCritical(e)
    ensures var r := Exec(c, Offers(es) + [Offer(e)]); r.refused == [e] && r.bus.droppedTotal == 0
  {
    FillQueue(c, es);
    ExecOneMore(c, Offers(es), Offer(e));
    NothingToEvictIff(es);
  }

  // ---- the failure callback ----

  predicate AlarmingFlush(f: Flush) { Alarms(f.batch, f.how) }

  ghost predicate SignalsCounted(c: Config, r: Run) {
    r.bus.failureSignals
    == if c.hasCallback then |Filter(r.refused, IsCritical)| + |Filter(r.flushed, AlarmingFlush)| else 0
  }

  lemma OfferSignals(c: Config, r: Run, e: Event)
    requires SignalsCounted(c, r)
    ensures SignalsCounted(c, Step(c, r, Offer(e)))
  {
    FilterOneMore(r.refused, e, IsCritical);
  }

  lemma FinishSignals(c: Config, r: Run, i: nat, how: Persist)
    requires SignalsCounted(c, r) && i < |r.inFlight|
    ensures SignalsCounted(c, Step(c, r, Finish(i, how)))
  {
    FilterOneMore(r.flushed, Flush(r.inFlight[i], how), AlarmingFlush);
  }

  /** The callback fires once for every refused critical event and once for every failed flush that carried one. */
  lemma {:induction false} SignalsExact(c: Config, actions: seq<Action>)
    ensures SignalsCounted(c, Exec(c, actions))
  {
    if actions != [] {
      var r, a := Exec(c, actions[..|actions| - 1]), actions[|actions| - 1];
      SignalsExact(c, actions[..|actions| - 1]);
      match a {
        case Offer(e) => OfferSignals(c, r, e);
        case Take =>
        case Finish(i, how) =>
          if i < |r.inFlight| {
            FinishSignals(c, r, i, how);
          }
      }
    }
  }

  lemma {:induction false} InLost(flushed: seq<Flush>, e: Event)
    ensures e in Lost(flushed) <==> exists f :: f in flushed && (f.how.Raised? || f.how.Cancelled?) && e in f.batch
  {
    if flushed != [] {
      var n := |flushed| - 1;
      InLost(flushed[..n], e);
      assert flushed == flushed[..n] + [flushed[n]];
    }
  }

  /**
   * With a callback installed, the run is silent exactly when no critical event was refused and every
   * flush that carried one either succeeded in full or was cancelled.
   */
  lemma SilentIff(c: Config, actions: seq<Action>)
    requires c.hasCallback
    ensures var r := Exec(c, actions);
            r.bus.failureSignals == 0 <==>
              && (forall i :: 0 <= i < |r.refused| ==> !IsCritical(r.refused[i]))
              && (forall i :: 0 <= i < |r.flushed| && HasCritical(r.flushed[i].batch) ==>
                    r.flushed[i].how == Persisted(0) || IsCancelled(r.flushed[i].how))
  {
    var r := Exec(c, actions);
    SignalsExact(c, actions);
    FilterLength(r.refused, IsCritical);
    FilterLength(r.flushed, AlarmingFlush);
    assert forall i :: 0 <= i < |r.flushed| ==>
        (AlarmingFlush(r.flushed[i]) <==>
          HasCritical(r.flushed[i].batch) && r.flushed[i].how != Persisted(0) && !IsCancelled(r.flushed[i].how));
  }

  /** A critical event on board a flush that failed, wholly or in part, never goes unnoticed. */
  lemma LossIsSignalled(c: Config, actions: seq<Action>, i: nat, e: Event)
    requires c.hasCallback && IsCritical(e)
    ensures var r := Exec(c, actions);
            i < |r.flushed| && e in r.flushed[i].batch
            && r.flushed[i].how != Persisted(0) && !IsCancelled(r.flushed[i].how)
            ==> r.bus.failureSignals > 0
  {
    var r := Exec(c, actions);
    SilentIff(c, actions);
    if i < |r.flushed| && e in r.flushed[i].batch {
      HasCriticalOf(r.flushed[i].batch, e);
    }
  }

  lemma HasCriticalOf(batch: seq<Event>, e: Event)
    requires e in batch && IsCritical(e)
    ensures HasCritical(batch)
  {
    var j :| 0 <= j < |batch| && batch[j] == e;
    assert IsCritical(batch[j]);
  }

  /** A critical event lost in a silent run went down with a cancelled flush. */
  lemma SilentLossIsCancelled(c: Config, actions: seq<Action>, e: Event)
    requires c.hasCallback && IsCritical(e) && e in Lost(Exec(c, actions).flushed)
    requires Exec(c, actions).bus.failureSignals == 0
    ensures exists f :: f in Exec(c, actions).flushed && e in f.batch && f.how.Cancelled?
  {
    var r := Exec(c, actions);
    InLost(r.flushed, e);
    var f :| f in r.flushed && (f.how.Raised? || f.how.Cancelled?) && e in f.batch;
    var i :| 0 <= i < |r.flushed| && r.flushed[i] == f;
    LossIsSignalled(c, actions, i, e);
  }

  /** A cancelled flush does lose a critical event without a signal. */
  lemma CancelledLossIsSilent(c: Config, e: Event)
    requires c.queueSize >= 1 && c.batchSize >= 1 && IsCritical(e)
    ensures var r := Exec(c, Offers([e]) + [Take] + [Finish(0, Cancelled)]);
            Lost(r.flushed) == [e] && r.bus.failureSignals == 0
  {
    FillQueue(c, [e]);
    ExecOneMore(c, Offers([e]), Take);
    TakeOnly(c, e);
    ExecOneMore(c, Offers([e]) + [Take], Finish(0, Cancelled));
    CancelOnly(c, e);
  }

  /** What is left once the only event was taken. */
  function AllTaken(e: Event): Run { Filled([e]).(bus := INITIAL_RUN.bus, inFlight := [[e]], taken := [e]) }

  lemma TakeOnly(c: Config, e: Event)
    requires c.batchSize >= 1
    ensures Step(c, Filled([e]), Take) == AllTaken(e)
  {
    assert [e][..1] == [e];
  }

  lemma CancelOnly(c: Config, e: Event)
    ensures var r := Step(c, AllTaken(e), Finish(0, Cancelled));
            Lost(r.flushed) == [e] && r.bus.failureSignals == 0
  {
    FlushedExtend([], Flush([e], Cancelled));
    assert [] + [Flush([e], Cancelled)] == [Flush([e], Cancelled)];
  }

  /** Once nothing is queued or in flight and no batch was lost, a successful flush leaves the counter at zero. */
  lemma QuietCounterIsZero(c: Config, actions: seq<Action>, i: nat, failed: nat)
    ensures var r := Exec(c, actions + [Finish(i, Persisted(failed))]);
            i < |Exec(c, actions).inFlight| && r.bus.queue == [] && r.inFlight == [] && Lost(r.flushed) == []
            ==> r.bus.diagnosticCount == 0
  {
    ExecOneMore(c, actions, Finish(i, Persisted(failed)));
    EveryRun(c, actions + [Finish(i, Persisted(failed))]);
  }

  // ---- refusals ----

  /** Under every policy a CRITICAL or ERROR event is refused exactly when the queue is full of them. */
  lemma CriticalRefusedIff(c: Config, s: State, e: Event)
    requires IsCritical(e)
    ensures !Accepts(c, s, e) <==> Full(c, s.queue) && AllCritical(s.queue)
    ensures !Accepts(c, s, e) && c.hasCallback ==> Offered(c, s, e).failureSignals == s.failureSignals + 1
    ensures Accepts(c, s, e) ==> Offered(c, s, e).failureSignals == s.failureSignals
  {
    NothingToEvictIff(s.queue);
  }

  /** The oldest event that is neither CRITICAL nor ERROR. */
  function OldestDroppable(s: State): Event
    requires InfoCount(s.queue) > 0
  {
    FilterLength(s.queue, IsDiagnostic);
    assert exists i :: 0 <= i < |s.queue| && IsDroppable(s.queue[i]);
    s.queue[FirstIndex(s.queue, IsDroppable)]
  }

  /** A full queue that holds an INFO event loses something else, or refuses, exactly when the counter hides it. */
  lemma DiagnosticSparedIff(c: Config, s: State, e: Event)
    requires Full(c, s.queue) && InfoCount(s.queue) > 0
    ensures (EvictedBy(c, s, e) == [] || !IsDiagnostic(EvictedBy(c, s, e)[0]))
            <==>
            && s.diagnosticCount <= 0
            && (EvictsOldest(c, e) ==> OldestDroppable(s).severity == WARNING)
  {
    FilterLength(s.queue, IsDiagnostic);
    var d := FirstIndex(s.queue, IsDiagnostic);
    assert d < |s.queue| && IsDroppable(s.queue[d]);
    assert FirstIndex(s.queue, IsDroppable) <= d;
  }

  /**
   * The counter can lose track at any queue size: after warnings fill all places but one, the first of
   * three INFO events is given up for the second, which is stored uncounted, so the third is refused
   * although a diagnostic event is queued.
   */
  lemma CounterCanHideDiagnostic(c: Config, ws: seq<Event>, a: Event, b: Event, e: Event)
    requires c.policy == DropDiagnostic && |ws| + 1 == c.queueSize
    requires forall i :: 0 <= i < |ws| ==> ws[i].severity == WARNING
    requires IsDiagnostic(a) && IsDiagnostic(b) && IsDiagnostic(e)
    ensures var r := Exec(c, Offers(ws) + [Offer(a)] + [Offer(b)] + [Offer(e)]);
            r.bus.queue == ws + [b] && r.bus.diagnosticCount == 0 && r.evicted == [a] && r.refused == [e]
  {
    FillQueue(c, ws);
    ExecOneMore(c, Offers(ws), Offer(a));
    CountFirst(c, ws, a);
    ExecOneMore(c, Offers(ws) + [Offer(a)], Offer(b));
    SwapUncounted(c, ws, a, b);
    ExecOneMore(c, Offers(ws) + [Offer(a)] + [Offer(b)], Offer(e));
    RejectThird(c, Step(c, Counted(ws, a), Offer(b)), e);
  }

  /** With the counter at zero a full queue refuses it. */
  lemma RejectThird(c: Config, r: Run, e: Event)
    requires c.policy == DropDiagnostic && Full(c, r.bus.queue) && r.bus.diagnosticCount == 0 && IsDiagnostic(e)
    ensures var s := Step(c, r, Offer(e));
            && s.bus.queue == r.bus.queue && s.bus.diagnosticCount == 0
            && s.evicted == r.evicted && s.refused == r.refused + [e]
  {
  }

  /** The first INFO event still fits, and is counted. */
  function Counted(ws: seq<Event>, a: Event): Run {
    Filled(ws + [a]).(bus := State(ws + [a], 0, 1, false, 0))
  }

  lemma CountFirst(c: Config, ws: seq<Event>, a: Event)
    requires |ws| + 1 == c.queueSize && IsDiagnostic(a)
    ensures Step(c, Filled(ws), Offer(a)) == Counted(ws, a)
  {
  }

  /** The second takes its place without being counted. */
  lemma SwapUncounted(c: Config, ws: seq<Event>, a: Event, b: Event)
    requires |ws| + 1 == c.queueSize && IsDiagnostic(a) && forall i :: 0 <= i < |ws| ==> !IsDiagnostic(ws[i])
    ensures var r := Step(c, Counted(ws, a), Offer(b));
            r.bus == State(ws + [b], 1, 0, true, 0) && r.evicted == [a] && r.refused == []
  {
    LastIsFirstDiagnostic(ws, a);
  }

  lemma LastIsFirstDiagnostic(ws: seq<Event>, a: Event)
    requires IsDiagnostic(a) && forall i :: 0 <= i < |ws| ==> !IsDiagnostic(ws[i])
    ensures FirstIndex(ws + [a], IsDiagnostic) == |ws| && RemoveAt(ws + [a], |ws|) == ws
  {
    assert (ws + [a])[|ws|] == a;
    assert forall i :: 0 <= i < |ws| ==> (ws + [a])[i] == ws[i];
  }

  /** Without a swap the counter is exactly the INFO events queued, in flight or lost with a failed flush. */
  lemma CounterExact(c: Config, actions: seq<Action>)
    requires Swaps(c, actions) == 0
    ensures var r := Exec(c, actions);
            r.bus.diagnosticCount == InfoCount(r.bus.queue) + Infos(r.inFlight) + InfoCount(Lost(r.flushed))
  {
    CounterFloor(c, actions);
    EveryRun(c, actions);
  }

  /** As long as no swap has happened, a full queue that holds an INFO event gives up its oldest one, whoever comes. */
  lemma DiagnosticFirst(c: Config, actions: seq<Action>, e: Event)
    requires Swaps(c, actions) == 0
    requires var q := Exec(c, actions).bus.queue; Full(c, q) && exists i :: 0 <= i < |q| && q[i].severity == INFO
    ensures var q := Exec(c, actions).bus.queue;
            exists i :: 0 <= i < |q| && q[i].severity == INFO && (forall j :: 0 <= j < i ==> q[j].severity != INFO)
                        && EvictedBy(c, Exec(c, actions).bus, e) == [q[i]]
  {
    var bus := Exec(c, actions).bus;
    var k :| 0 <= k < |bus.queue| && bus.queue[k].severity == INFO;
    assert IsDiagnostic(bus.queue[k]);
    CounterFloor(c, actions);
    FilterLength(bus.queue, IsDiagnostic);
    OldestDiagnosticGoes(c, bus, e);
  }

  lemma OldestDiagnosticGoes(c: Config, s: State, e: Event)
    requires Full(c, s.queue) && FindsDiagnostic(s)
    ensures exists i :: 0 <= i < |s.queue| && s.queue[i].severity == INFO
                        && (forall j :: 0 <= j < i ==> s.queue[j].severity != INFO)
                        && EvictedBy(c, s, e) == [s.queue[i]]
  {
    var i := FirstIndex(s.queue, IsDiagnostic);
    assert IsDiagnostic(s.queue[i]);
    assert forall j :: 0 <= j < i ==> !IsDiagnostic(s.queue[j]);
  }

  /** What each policy does with an INFO or WARNING event when the queue is full and the scan finds nothing. */
  lemma PolicyDecides(c: Config, s: State, e: Event)
    requires Full(c, s.queue) && !FindsDiagnostic(s) && (e.severity == INFO || e.severity == WARNING)
    ensures Accepts(c, s, e) <==>
              c.policy == DropOldest && exists i :: 0 <= i < |s.queue| && s.queue[i].severity in {INFO, WARNING}
  {
    var k := FirstIndex(s.queue, IsDroppable);
    if i :| 0 <= i < |s.queue| && s.queue[i].severity in {INFO, WARNING} {
      assert IsDroppable(s.queue[i]);
    }
    if k < |s.queue| {
      assert s.queue[k].severity in {INFO, WARNING};
    }
  }

  /** Otherwise it is the oldest INFO or WARNING event that makes way, and the new event goes to the end. */
  lemma OldestMakesWay(c: Config, s: State, e: Event)
    requires Full(c, s.queue) && !FindsDiagnostic(s) && Accepts(c, s, e)
    ensures exists i :: 0 <= i < |s.queue| && s.queue[i].severity in {INFO, WARNING}
                        && (forall j :: 0 <= j < i ==> s.queue[j].severity in {CRITICAL, ERROR})
                        && Offered(c, s, e).queue == s.queue[..i] + s.queue[i + 1..] + [e]
  {
    var k := FirstIndex(s.queue, IsDroppable);
    assert forall j :: 0 <= j < k ==> !IsDroppable(s.queue[j]);
    assert s.queue[k].severity in {INFO, WARNING};
  }

  /** Every CRITICAL or ERROR event is kept, in the queue or in a batch taken, exactly as often as it was accepted. */
  lemma CriticalKept(c: Config, actions: seq<Action>, e: Event)
    requires e.severity == CRITICAL || e.severity == ERROR
    ensures var r := Exec(c, actions); multiset(r.taken + r.bus.queue)[e] == multiset(r.accepted)[e]
  {
    var r := Exec(c, actions);
    EveryRun(c, actions);
    assert e !in r.evicted;
    assert e !in multiset(r.evicted);
  }

  /** The overflow flag is up exactly when some event of the run was evicted or refused. */
  lemma {:induction false} OverflowedIff(c: Config, actions: seq<Action>)
    ensures var r := Exec(c, actions); r.bus.overflowed <==> r.evicted != [] || r.refused != []
  {
    if actions != [] {
      OverflowedIff(c, actions[..|actions| - 1]);
    }
  }

  /** With nothing in flight and no batch lost, a positive counter really does find an INFO event. */
  lemma PositiveCounterFinds(c: Config, actions: seq<Action>)
    requires var r := Exec(c, actions); r.inFlight == [] && Lost(r.flushed) == [] && r.bus.diagnosticCount > 0
    ensures FindsDiagnostic(Exec(c, actions).bus)
  {
    var r := Exec(c, actions);
    EveryRun(c, actions);
    FilterLength(r.bus.queue, IsDiagnostic);
  }
}
