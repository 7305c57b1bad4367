/**
 * The bounded operational event bus: one FIFO queue, three overflow policies,
 * drain-and-re-enqueue eviction, batched flushing.  The class keeps the queue
 * the way the program does; `Offered` and `Finished` say in one step what its
 * loops amount to.
 */
module EventBus {
  import opened Wrappers
  import opened Sequences
  import opened Schemas

  datatype Event = Event(eventType: string, severity: Severity, payload: string)

  datatype Policy = DropOldest | DropNewest | DropDiagnostic

  datatype Config = Config(queueSize: int, batchSize: int, policy: Policy, hasCallback: bool)

  datatype AppendResult = AppendResult(accepted: bool, reason: Option<string>, queueDepth: nat)

  /**
   * How the awaited part of a flush ended.  A cancellation may arrive before the counter is
   * lowered, or in the metric updates after it; either way it is not caught.
   */
  datatype Persist = Persisted(failed: nat) | Raised | Cancelled | CancelledLate

  predicate IsCancelled(how: Persist) { how.Cancelled? || how.CancelledLate? }

  /** The mutable fields of the bus; failureSignals counts calls of the failure callback. */
  datatype State = State(
    queue: seq<Event>, droppedTotal: int, diagnosticCount: int, overflowed: bool, failureSignals: nat)

  predicate IsCritical(e: Event) { e.severity == CRITICAL || e.severity == ERROR }

  predicate IsDroppable(e: Event) { !IsCritical(e) }

  predicate IsDiagnostic(e: Event) { e.severity == INFO }

  function InfoWeight(e: Event): nat { if IsDiagnostic(e) then 1 else 0 }

  /** A queue built with a size of zero or less has no bound. */
  predicate Full(c: Config, queue: seq<Event>) { 0 < c.queueSize <= |queue| }

  predicate HasCritical(batch: seq<Event>) { exists i :: 0 <= i < |batch| && IsCritical(batch[i]) }

  /** True when the counter lets the diagnostic scan run and an INFO event is there to be found. */
  predicate FindsDiagnostic(s: State) {
    s.diagnosticCount > 0 && FirstIndex(s.queue, IsDiagnostic) < |s.queue|
  }

  /** True when the policy, or the severity of e, allows a non-critical event to make way. */
  predicate EvictsOldest(c: Config, e: Event) { c.policy == DropOldest || IsCritical(e) }

  /** The position that a full queue gives up for e, if it gives one up. */
  function Victim(c: Config, s: State, e: Event): (v: Option<nat>)
    ensures v.Some? ==> v.value < |s.queue| && IsDroppable(s.queue[v.value])
  {
    if FindsDiagnostic(s) then Some(FirstIndex(s.queue, IsDiagnostic))
    else if EvictsOldest(c, e) && FirstIndex(s.queue, IsDroppable) < |s.queue|
    then Some(FirstIndex(s.queue, IsDroppable))
    else None
  }

  predicate Accepts(c: Config, s: State, e: Event) { !Full(c, s.queue) || Victim(c, s, e).Some? }

  /** The state after e is offered. */
  function Offered(c: Config, s: State, e: Event): State {
    if !Full(c, s.queue) then
      s.(queue := s.queue + [e], diagnosticCount := s.diagnosticCount + InfoWeight(e))
    else match Victim(c, s, e)
      case Some(i) =>
        State(RemoveAt(s.queue, i) + [e], s.droppedTotal + 1,
              s.diagnosticCount - InfoWeight(s.queue[i]) + (if FindsDiagnostic(s) then 0 else InfoWeight(e)),
              true, s.failureSignals)
      case None =>
        State(s.queue, s.droppedTotal + (if EvictsOldest(c, e) then 0 else 1), s.diagnosticCount, true,
              s.failureSignals + (if IsCritical(e) && c.hasCallback then 1 else 0))
  }

  function BatchLength(c: Config, s: State): nat {
    if c.batchSize <= 0 then 0 else if c.batchSize <= |s.queue| then c.batchSize else |s.queue|
  }

  function Taken(c: Config, s: State): State { s.(queue := s.queue[BatchLength(c, s)..]) }

  function InfoCount(batch: seq<Event>): nat { |Filter(batch, IsDiagnostic)| }

  /** A flush that fails, wholly or in part, with a critical event on board. */
  predicate Alarms(batch: seq<Event>, how: Persist) {
    HasCritical(batch) && (how.Raised? || (how.Persisted? && how.failed > 0))
  }

  /** The state after the awaited part of a flush of a non-empty batch ends. */
  function Finished(c: Config, s: State, batch: seq<Event>, how: Persist): State {
    var left := s.diagnosticCount - InfoCount(batch);
    s.(diagnosticCount := if !how.Persisted? && !how.CancelledLate? then s.diagnosticCount
                          else if left < 0 then 0 else left,
       failureSignals := s.failureSignals + if Alarms(batch, how) && c.hasCallback then 1 else 0)
  }

  /** What a drain has set aside after i elements, leaving out the one at k. */
  function Drained(q: seq<Event>, i: nat, k: nat): seq<Event>
    requires i <= |q|
  {
    if k < i then RemoveAt(q[..i], k) else q[..i]
  }

  lemma DrainStep(q: seq<Event>, i: nat, k: nat)
    requires i < |q|
    ensures q[i..] != [] && q[i..][0] == q[i] && q[i..][1..] == q[i + 1..]
    ensures Drained(q, i + 1, k) == if i == k then Drained(q, i, k) else Drained(q, i, k) + [q[i]]
  {
    assert q[..i + 1] == q[..i] + [q[i]];
  }

  class OperationalEventBus {
    const config: Config
    var queue: seq<Event>
    var droppedTotal: int
    var diagnosticCount: int
    var overflowed: bool
    var failureSignals: nat

    function View(): State
      reads this
    {
      State(queue, droppedTotal, diagnosticCount, overflowed, failureSignals)
    }

    predicate Bounded()
      reads this
    {
      0 < config.queueSize ==> |queue| <= config.queueSize
    }

    constructor (config: Config)
      ensures this.config == config && Bounded()
      ensures View() == State([], 0, 0, false, 0)
    {
      this.config := config;
      queue, droppedTotal, diagnosticCount, overflowed, failureSignals := [], 0, 0, false, 0;
    }

    /** put_nowait: reports a full queue instead of raising. */
    method PutNowait(e: Event) returns (ok: bool)
      requires Bounded()
      modifies this`queue
      ensures Bounded()
      ensures ok == !old(Full(config, queue))
      ensures queue == if ok then old(queue) + [e] else old(queue)
    {
      ok := !Full(config, queue);
      if ok {
        queue := queue + [e];
      }
    }

    method SignalCriticalFailure()
      modifies this`failureSignals
      ensures failureSignals == old(failureSignals) + if config.hasCallback then 1 else 0
    {
      if config.hasCallback {
        failureSignals := failureSignals + 1;
      }
    }

    method Publish(e: Event) returns (r: AppendResult)
      requires Bounded()
      modifies this
      ensures Bounded()
      ensures View() == Offered(config, old(View()), e)
      ensures r.accepted == Accepts(config, old(View()), e)
      ensures r.reason == if r.accepted then None else Some("queue_full")
      ensures r.queueDepth == |queue|
    {
      var ok := PutNowait(e);
      if ok {
        if IsDiagnostic(e) {
          diagnosticCount := diagnosticCount + 1;
        }
        return AppendResult(true, None, |queue|);
      }
      r := HandleOverflow(e);
    }

    method HandleOverflow(e: Event) returns (r: AppendResult)
      requires Bounded() && Full(config, queue)
      modifies this
      ensures Bounded()
      ensures View() == Offered(config, old(View()), e)
      ensures r.accepted == Accepts(config, old(View()), e)
      ensures r.reason == if r.accepted then None else Some("queue_full")
      ensures r.queueDepth == |queue|
    {
      var popped := PopDiagnostic();
      if popped {
        var ok := PutNowait(e);
        overflowed := true;
        assert ok;
        return AppendResult(true, None, |queue|);
      }
      match config.policy {
        case DropOldest => r := OverflowDropOldestSafe(e);
        case DropNewest => r := OverflowDropNewest(e);
        case DropDiagnostic =>
          if IsCritical(e) {
            r := OverflowDropOldestSafe(e);
          } else {
            r := OverflowReject(e);
          }
      }
    }

    /** Drains the queue, setting aside everything but the first INFO event, and puts the rest back. */
    method PopDiagnostic() returns (removed: bool)
      requires Bounded() && Full(config, queue)
      modifies this`queue, this`droppedTotal, this`diagnosticCount
      ensures Bounded()
      ensures removed == old(FindsDiagnostic(View()))
      ensures !removed ==> View() == old(View())
      ensures removed ==>
                && queue == RemoveAt(old(queue), FirstIndex(old(queue), IsDiagnostic))
                && droppedTotal == old(droppedTotal) + 1
                && diagnosticCount == old(diagnosticCount) - 1
    {
      if diagnosticCount <= 0 {
        return false;
      }
      removed := DrainDiagnostic();
    }

    method DrainDiagnostic() returns (removed: bool)
      requires Bounded()
      modifies this`queue, this`droppedTotal, this`diagnosticCount
      ensures Bounded()
      ensures removed == (FirstIndex(old(queue), IsDiagnostic) < |old(queue)|)
      ensures queue == if removed then RemoveAt(old(queue), FirstIndex(old(queue), IsDiagnostic)) else old(queue)
      ensures droppedTotal == old(droppedTotal) + if removed then 1 else 0
      ensures diagnosticCount == old(diagnosticCount) - if removed then 1 else 0
    {
      ghost var q, k := queue, FirstIndex(queue, IsDiagnostic);
      var buffer: seq<Event> := [];
      removed := false;
      ghost var i := 0;
      while |queue| > 0
        invariant i <= |q| && queue == q[i..] && removed == (k < i)
        invariant buffer == Drained(q, i, k)
        invariant droppedTotal == old(droppedTotal) + if removed then 1 else 0
        invariant diagnosticCount == old(diagnosticCount) - if removed then 1 else 0
        decreases |queue|
      {
        var item := queue[0];
        DrainStep(q, i, k);
        queue, i := queue[1..], i + 1;
        if !removed && IsDiagnostic(item) {
          droppedTotal := droppedTotal + 1;
          diagnosticCount := diagnosticCount - 1;
          removed := true;
        } else {
          buffer := buffer + [item];
        }
      }
      assert q[..|q|] == q;
      Requeue(buffer);
    }

    /** The re-enqueue loop: its queue-full branch is never taken. */
    method Requeue(items: seq<Event>)
      requires queue == [] && (0 < config.queueSize ==> |items| <= config.queueSize)
      modifies this`queue
      ensures Bounded() && queue == items
    {
      for i := 0 to |items|
        invariant queue == items[..i]
      {
        var ok := PutNowait(items[i]);
        if !ok {
          assert false;
        }
      }
    }

    /** The drain of drop-oldest: the first non-critical event goes, the rest is put back in order. */
    method DropOldestNonCritical() returns (removed: bool)
      requires Bounded()
      modifies this`queue, this`droppedTotal, this`diagnosticCount
      ensures Bounded()
      ensures removed == (FirstIndex(old(queue), IsDroppable) < |old(queue)|)
      ensures queue == if removed then RemoveAt(old(queue), FirstIndex(old(queue), IsDroppable)) else old(queue)
      ensures droppedTotal == old(droppedTotal) + if removed then 1 else 0
      ensures diagnosticCount
           == old(diagnosticCount) - if removed then InfoWeight(old(queue)[FirstIndex(old(queue), IsDroppable)]) else 0
    {
      ghost var q, k := queue, FirstIndex(queue, IsDroppable);
      ghost var weight := if k < |q| then InfoWeight(q[k]) else 0;
      var drained: seq<Event> := [];
      removed := false;
      ghost var i := 0;
      while |queue| > 0
        invariant i <= |q| && queue == q[i..] && removed == (k < i)
        invariant drained == Drained(q, i, k)
        invariant droppedTotal == old(droppedTotal) + if removed then 1 else 0
        invariant diagnosticCount == old(diagnosticCount) - if removed then weight else 0
        decreases |queue|
      {
        var oldest := queue[0];
        DrainStep(q, i, k);
        queue, i := queue[1..], i + 1;
        if !removed && !IsCritical(oldest) {
          droppedTotal := droppedTotal + 1;
          if IsDiagnostic(oldest) {
            diagnosticCount := diagnosticCount - 1;
          }
          removed := true;
        } else {
          drained := drained + [oldest];
        }
      }
      assert q[..|q|] == q;
      Requeue(drained);
    }

    method OverflowDropOldestSafe(e: Event) returns (r: AppendResult)
      requires Bounded() && Full(config, queue) && EvictsOldest(config, e) && !FindsDiagnostic(View())
      modifies this
      ensures Bounded()
      ensures View() == Offered(config, old(View()), e)
      ensures r.accepted == Accepts(config, old(View()), e)
      ensures r.reason == if r.accepted then None else Some("queue_full")
      ensures r.queueDepth == |queue|
    {
      var removed := DropOldestNonCritical();
      overflowed := true;
      if !removed {
        if IsCritical(e) {
          SignalCriticalFailure();
        }
        return AppendResult(false, Some("queue_full"), |queue|);
      }
      var ok := PutNowait(e);
      if !ok {
        assert false;
      }
      if IsDiagnostic(e) {
        diagnosticCount := diagnosticCount + 1;
      }
      r := AppendResult(true, None, |queue|);
    }

    method OverflowDropNewest(e: Event) returns (r: AppendResult)
      requires Bounded() && Full(config, queue) && config.policy == DropNewest && !FindsDiagnostic(View())
      modifies this
      ensures Bounded()
      ensures View() == Offered(config, old(View()), e)
      ensures r.accepted == Accepts(config, old(View()), e)
      ensures r.reason == if r.accepted then None else Some("queue_full")
      ensures r.queueDepth == |queue|
    {
      if IsCritical(e) {
        r := OverflowDropOldestSafe(e);
      } else {
        droppedTotal := droppedTotal + 1;
        overflowed := true;
        r := AppendResult(false, Some("queue_full"), |queue|);
      }
    }

    method OverflowReject(e: Event) returns (r: AppendResult)
      requires Bounded() && Full(config, queue) && !EvictsOldest(config, e) && !FindsDiagnostic(View())
      modifies this
      ensures Bounded()
      ensures View() == Offered(config, old(View()), e)
      ensures r.accepted == Accepts(config, old(View()), e)
      ensures r.reason == if r.accepted then None else Some("queue_full")
      ensures r.queueDepth == |queue|
    {
      droppedTotal := droppedTotal + 1;
      overflowed := true;
      if IsCritical(e) {
        assert false;
      }
      r := AppendResult(false, Some("queue_full"), |queue|);
    }

    /** The part of a flush before the first await: move the oldest events into a batch. */
    method TakeBatch() returns (batch: seq<Event>)
      requires Bounded()
      modifies this`queue
      ensures Bounded()
      ensures View() == Taken(config, old(View()))
      ensures batch + queue == old(queue) && |batch| == BatchLength(config, old(View()))
    {
      batch := [];
      while |batch| < config.batchSize && |queue| > 0
        invariant batch + queue == old(queue)
        invariant |batch| <= BatchLength(config, old(View()))
        decreases |queue|
      {
        batch, queue := batch + [queue[0]], queue[1..];
      }
    }

    method LowerDiagnosticCount(gone: nat)
      modifies this`diagnosticCount
      ensures diagnosticCount == if old(diagnosticCount) < gone then 0 else old(diagnosticCount) - gone
    {
      diagnosticCount := diagnosticCount - gone;
      if diagnosticCount < 0 {
        diagnosticCount := 0;
      }
    }

    /** The part of a flush after its awaits. */
    method FinishBatch(batch: seq<Event>, how: Persist)
      requires batch != []
      modifies this`diagnosticCount, this`failureSignals
      ensures View() == Finished(config, old(View()), batch, how)
      ensures how.Persisted? || how.CancelledLate? ==> diagnosticCount >= 0
      ensures failureSignals > old(failureSignals) ==> HasCritical(batch) && !IsCancelled(how)
    {
      match how {
        case Cancelled =>
        case Raised =>
          if HasCritical(batch) {
            SignalCriticalFailure();
          }
        case CancelledLate =>
          LowerDiagnosticCount(InfoCount(batch));
        case Persisted(failed) =>
          LowerDiagnosticCount(InfoCount(batch));
          if failed > 0 && HasCritical(batch) {
            SignalCriticalFailure();
          }
      }
    }

    /**
     * Shutdown drain with no concurrent publisher.  A cancelled persist ends it; otherwise it
     * empties the queue in ceil(size / batch size) rounds, whether or not any persist succeeds.
     */
    method FlushPending(outcomes: nat -> Persist) returns (rounds: nat, batches: seq<Event>, cancelled: bool)
      requires Bounded() && config.batchSize >= 1
      modifies this`queue, this`diagnosticCount, this`failureSignals
      ensures batches + queue == old(queue)
      ensures cancelled <==> rounds > 0 && IsCancelled(outcomes(rounds - 1))
      ensures forall i: nat :: i + 1 < rounds ==> !IsCancelled(outcomes(i))
      ensures !cancelled ==> queue == [] && rounds == Rounds(|old(queue)|, config.batchSize)
    {
      rounds, batches, cancelled := 0, [], false;
      while |queue| > 0 && !cancelled
        invariant Bounded()
        invariant batches + queue == old(queue)
        invariant cancelled <==> rounds > 0 && IsCancelled(outcomes(rounds - 1))
        invariant forall i: nat :: i + 1 < rounds ==> !IsCancelled(outcomes(i))
        invariant rounds + Rounds(|queue|, config.batchSize) == Rounds(|old(queue)|, config.batchSize)
        decreases |queue|
      {
        ghost var before := queue;
        var batch := TakeBatch();
        RoundsStep(|before|, config.batchSize);
        BatchesThenQueue(batches, batch, queue);
        FinishBatch(batch, outcomes(rounds));
        cancelled := IsCancelled(outcomes(rounds));
        rounds, batches := rounds + 1, batches + batch;
      }
    }
  }

  /** How many batches empty a queue. */
  function Rounds(size: nat, batch: int): nat
    requires batch >= 1
  {
    if size == 0 then 0 else if size <= batch then 1 else 1 + Rounds(size - batch, batch)
  }

  lemma RoundsStep(size: nat, batch: int)
    requires batch >= 1 && size > 0
    ensures Rounds(size, batch) == 1 + Rounds(size - if batch <= size then batch else size, batch)
  {
  }

  lemma BatchesThenQueue(a: seq<Event>, b: seq<Event>, c: seq<Event>)
    ensures (a + b) + c == a + (b + c)
  {
  }

  /** It is size / batch rounded up. */
  lemma {:induction false} RoundsCeiling(size: nat, batch: int)
    requires batch >= 1
    ensures size <= Rounds(size, batch) * batch < size + batch
  {
    if size > batch {
      RoundsCeiling(size - batch, batch);
      assert (Rounds(size - batch, batch) + 1) * batch == Rounds(size - batch, batch) * batch + batch;
    }
  }
}
