/**
 * Sustained-condition alerts: a condition must stay bad for a while before an
 * alert is attempted, and alerts of one type keep a cooldown apart.
 */
module OperationalAlerts {
  import opened Wrappers

  /** How the transport answered a send; NoNotifier means there is no transport. */
  datatype Send = NoNotifier | Sent | ReturnedFalse | RaisedError

  datatype Status = SUPPRESSED_DISABLED | SUPPRESSED_COOLDOWN | DISPATCHED | FAILED

  datatype Alert = Alert(firstSeen: int, duration: int, reason: string)

  datatype DispatchResult = DispatchResult(status: Status, alert: Option<Alert>)

  /** One evaluation: what was observed, when, and how a send would end. */
  datatype Evaluation = Evaluation(healthy: bool, now: int, send: Send)

  datatype Limits = Limits(threshold: int, cooldown: int)

  // ---- specification over the history of evaluations ----

  /** The first evaluation of the unhealthy streak that reaches n. */
  function StreakStart(h: seq<Evaluation>, n: nat): (s: nat)
    requires n < |h| && !h[n].healthy
    ensures s <= n && forall i :: s <= i <= n ==> !h[i].healthy
    ensures s > 0 ==> h[s - 1].healthy
  {
    if n == 0 || h[n - 1].healthy then n else StreakStart(h, n - 1)
  }

  /** Unhealthy, not for the first time in the streak, and for at least the threshold. */
  predicate Sustained(l: Limits, h: seq<Evaluation>, n: nat)
    requires n < |h|
  {
    && !h[n].healthy
    && StreakStart(h, n) < n
    && h[n].now - h[StreakStart(h, n)].now >= l.threshold
  }

  /** An evaluation at this time falls within the cooldown of the given last dispatch. */
  predicate CoolingAfter(l: Limits, h: seq<Evaluation>, last: Option<nat>, now: int)
    requires last.Some? ==> last.value < |h|
  {
    last.Some? && now - h[last.value].now < l.cooldown
  }

  /** The last successful dispatch among the first n evaluations. */
  function LastDispatch(l: Limits, h: seq<Evaluation>, n: nat): (r: Option<nat>)
    requires n <= |h|
    ensures r.Some? ==> r.value < n
  {
    if n == 0 then None else
      var last := LastDispatch(l, h, n - 1);
      if Sustained(l, h, n - 1) && !CoolingAfter(l, h, last, h[n - 1].now) && h[n - 1].send == Sent then Some(n - 1)
      else last
  }

  predicate Cooling(l: Limits, h: seq<Evaluation>, n: nat)
    requires n < |h|
  {
    CoolingAfter(l, h, LastDispatch(l, h, n), h[n].now)
  }

  /** Evaluation n gets as far as trying to send. */
  predicate Attempted(l: Limits, h: seq<Evaluation>, n: nat)
    requires n < |h|
  {
    Sustained(l, h, n) && !Cooling(l, h, n)
  }

  predicate Dispatched(l: Limits, h: seq<Evaluation>, n: nat)
    requires n < |h|
  {
    Attempted(l, h, n) && h[n].send == Sent
  }

  /** The recorded last dispatch is one, and none comes after it. */
  lemma {:induction false} LastDispatchIsLast(l: Limits, h: seq<Evaluation>, n: nat)
    requires n <= |h|
    ensures var last := LastDispatch(l, h, n);
            && (last.Some? ==> Dispatched(l, h, last.value))
            && (forall i :: 0 <= i < n && Dispatched(l, h, i) ==> last.Some? && i <= last.value)
  {
    if n > 0 {
      LastDispatchIsLast(l, h, n - 1);
    }
  }

  function SendStatus(send: Send): Status {
    match send
    case NoNotifier => SUPPRESSED_DISABLED
    case Sent => DISPATCHED
    case ReturnedFalse => FAILED
    case RaisedError => FAILED
  }

  function StatusOf(l: Limits, h: seq<Evaluation>, n: nat): Status
    requires n < |h|
  {
    if !Sustained(l, h, n) then SUPPRESSED_DISABLED
    else if Cooling(l, h, n) then SUPPRESSED_COOLDOWN
    else SendStatus(h[n].send)
  }

  /** An alert is attached exactly to the attempts, with the time the streak began. */
  predicate AlertOf(l: Limits, h: seq<Evaluation>, n: nat, a: Option<Alert>)
    requires n < |h|
  {
    && (a.Some? <==> Attempted(l, h, n))
    && (a.Some? ==> var first := h[StreakStart(h, n)].now;
                    a.value.firstSeen == first && a.value.duration == h[n].now - first)
  }

  // ---- the bridge ----

  /** The fields of a tracked state agree with a history. */
  ghost predicate Tracked(l: Limits, h: seq<Evaluation>, isActive: bool, firstSeen: int, lastDispatched: Option<int>) {
    var n := |h|;
    && (isActive <==> n > 0 && !h[n - 1].healthy)
    && (isActive ==> firstSeen == h[StreakStart(h, n - 1)].now)
    && IsLastDispatch(l, h, lastDispatched)
  }

  /** The recorded time is that of the last successful dispatch. */
  ghost predicate IsLastDispatch(l: Limits, h: seq<Evaluation>, lastDispatched: Option<int>) {
    var last := LastDispatch(l, h, |h|);
    lastDispatched == if last.Some? then Some(h[last.value].now) else None
  }

  /** d is the latest successful dispatch of the history. */
  ghost predicate DispatchedLast(l: Limits, h: seq<Evaluation>, d: nat)
    requires d < |h|
  {
    Dispatched(l, h, d) && forall e :: d < e < |h| ==> !Dispatched(l, h, e)
  }

  /** The latest successful dispatch of the history is less than the cooldown ago. */
  ghost predicate RecentlyDispatched(l: Limits, h: seq<Evaluation>, now: int) {
    exists d: nat :: d < |h| && DispatchedLast(l, h, d) && now - h[d].now < l.cooldown
  }

  lemma RecentIff(l: Limits, h: seq<Evaluation>, lastDispatched: Option<int>, now: int)
    requires IsLastDispatch(l, h, lastDispatched)
    ensures RecentlyDispatched(l, h, now) <==> lastDispatched.Some? && now - lastDispatched.value < l.cooldown
  {
    LastDispatchIsLast(l, h, |h|);
    var last := LastDispatch(l, h, |h|);
    if last.Some? {
      assert DispatchedLast(l, h, last.value);
    }
  }

  /** What a tracked state says about the next evaluation. */
  lemma NextEvaluation(
      l: Limits, h: seq<Evaluation>, isActive: bool, firstSeen: int, lastDispatched: Option<int>, e: Evaluation)
    requires Tracked(l, h, isActive, firstSeen, lastDispatched)
    ensures var longer, n := h + [e], |h|;
            && (Sustained(l, longer, n) <==> !e.healthy && isActive && e.now - firstSeen >= l.threshold)
            && (Cooling(l, longer, n) <==> RecentlyDispatched(l, h, e.now))
            && (!e.healthy ==> longer[StreakStart(longer, n)].now == if isActive then firstSeen else e.now)
            && Tracked(l, longer, !e.healthy, if isActive then firstSeen else e.now,
                       if Dispatched(l, longer, n) then Some(e.now) else lastDispatched)
  {
    var longer, n := h + [e], |h|;
    HistoryStable(l, h, longer);
    RecentIff(l, h, lastDispatched, e.now);
    assert LastDispatch(l, longer, n + 1) == if Dispatched(l, longer, n) then Some(n) else LastDispatch(l, longer, n);
    if isActive && !e.healthy {
      assert StreakStart(longer, n) == StreakStart(longer, n - 1);
    }
  }

  /** A healthy evaluation ends the streak and alerts nobody. */
  lemma HealthyNext(
      l: Limits, h: seq<Evaluation>, isActive: bool, firstSeen: int, lastDispatched: Option<int>, e: Evaluation)
    requires Tracked(l, h, isActive, firstSeen, lastDispatched) && e.healthy
    ensures forall start: int :: Tracked(l, h + [e], false, start, lastDispatched)
    ensures StatusOf(l, h + [e], |h|) == SUPPRESSED_DISABLED && AlertOf(l, h + [e], |h|, None)
  {
    NextEvaluation(l, h, isActive, firstSeen, lastDispatched, e);
  }

  /** The first unhealthy evaluation starts a streak and alerts nobody. */
  lemma FirstUnhealthyNext(
      l: Limits, h: seq<Evaluation>, firstSeen: int, lastDispatched: Option<int>, e: Evaluation)
    requires Tracked(l, h, false, firstSeen, lastDispatched) && !e.healthy
    ensures Tracked(l, h + [e], true, e.now, lastDispatched)
    ensures StatusOf(l, h + [e], |h|) == SUPPRESSED_DISABLED && AlertOf(l, h + [e], |h|, None)
  {
    NextEvaluation(l, h, false, firstSeen, lastDispatched, e);
  }

  /** The tracked state of one alert type. */
  class AlertState {
    var isActive: bool
    var firstSeen: int
    var lastDispatched: Option<int>
    ghost var history: seq<Evaluation>

    constructor ()
      ensures !isActive && lastDispatched.None? && history == []
    {
      isActive, firstSeen, lastDispatched, history := false, 0, None, [];
    }

    /** The fields are what the history of evaluations says. */
    ghost predicate Tracks(l: Limits)
      reads this
    {
      Tracked(l, history, isActive, firstSeen, lastDispatched)
    }

    /** Whether the latest successful dispatch of the history is less than the cooldown ago. */
    method IsWithinCooldown(l: Limits, now: int, ghost h: seq<Evaluation>) returns (within: bool)
      requires IsLastDispatch(l, h, lastDispatched)
      ensures within <==> RecentlyDispatched(l, h, now)
    {
      RecentIff(l, h, lastDispatched, now);
      if lastDispatched.None? {
        return false;
      }
      within := now - lastDispatched.value < l.cooldown;
    }
  }

  class AlertBridge {
    const readinessLimits: Limits
    const websocketLimits: Limits
    const readiness: AlertState
    const websocket: AlertState

    constructor (readinessLimits: Limits, websocketLimits: Limits)
      ensures this.readinessLimits == readinessLimits && this.websocketLimits == websocketLimits
      ensures fresh(readiness) && fresh(websocket) && readiness != websocket
      ensures readiness.Tracks(readinessLimits) && websocket.Tracks(websocketLimits)
    {
      this.readinessLimits, this.websocketLimits := readinessLimits, websocketLimits;
      readiness := new AlertState();
      websocket := new AlertState();
    }

    method EvaluateReadinessDegraded(ready: bool, now: int, send: Send) returns (r: DispatchResult)
      requires readiness.Tracks(readinessLimits)
      modifies readiness
      ensures readiness.Tracks(readinessLimits)
      ensures readiness.history == old(readiness.history) + [Evaluation(ready, now, send)]
      ensures r.status == StatusOf(readinessLimits, readiness.history, |readiness.history| - 1)
      ensures AlertOf(readinessLimits, readiness.history, |readiness.history| - 1, r.alert)
      ensures r.alert.Some? ==> r.alert.value.reason == "readiness_degraded"
    {
      var l, state := readinessLimits, readiness;
      ghost var before := state.history;
      state.history := state.history + [Evaluation(ready, now, send)];
      if ready {
        HealthyNext(l, before, state.isActive, state.firstSeen, state.lastDispatched, Evaluation(ready, now, send));
        if state.isActive {
          state.isActive := false;
        }
        return DispatchResult(SUPPRESSED_DISABLED, None);
      }
      if !state.isActive {
        FirstUnhealthyNext(l, before, state.firstSeen, state.lastDispatched, Evaluation(ready, now, send));
        state.isActive, state.firstSeen := true, now;
        return DispatchResult(SUPPRESSED_DISABLED, None);
      }
      r := AlertIfDue(state, l, before, "readiness_degraded", now, send);
    }

    method EvaluateWebsocketStale(connected: bool, pongStale: bool, now: int, send: Send) returns (r: DispatchResult)
      requires websocket.Tracks(websocketLimits)
      modifies websocket
      ensures websocket.Tracks(websocketLimits)
      ensures websocket.history == old(websocket.history) + [Evaluation(connected && !pongStale, now, send)]
      ensures r.status == StatusOf(websocketLimits, websocket.history, |websocket.history| - 1)
      ensures AlertOf(websocketLimits, websocket.history, |websocket.history| - 1, r.alert)
      ensures r.alert.Some? ==> r.alert.value.reason == if pongStale then "ws_pong_stale" else "ws_disconnected"
    {
      var l, state := websocketLimits, websocket;
      var isStale := !connected || pongStale;
      ghost var e := Evaluation(!isStale, now, send);
      ghost var before := state.history;
      state.history := state.history + [e];
      if !isStale {
        HealthyNext(l, before, state.isActive, state.firstSeen, state.lastDispatched, e);
        if state.isActive {
          state.isActive := false;
        }
        return DispatchResult(SUPPRESSED_DISABLED, None);
      }
      if !state.isActive {
        FirstUnhealthyNext(l, before, state.firstSeen, state.lastDispatched, e);
        state.isActive, state.firstSeen := true, now;
        return DispatchResult(SUPPRESSED_DISABLED, None);
      }
      var reason := if pongStale then "ws_pong_stale" else "ws_disconnected";
      r := AlertIfDue(state, l, before, reason, now, send);
    }

    /** The end of both evaluations: a condition already active must have lasted, and the cooldown be over. */
    method AlertIfDue(state: AlertState, l: Limits, ghost before: seq<Evaluation>, reason: string, now: int, send: Send)
      returns (r: DispatchResult)
      requires state.isActive && Tracked(l, before, true, state.firstSeen, state.lastDispatched)
      requires state.history == before + [Evaluation(false, now, send)]
      modifies state`lastDispatched
      ensures state.Tracks(l)
      ensures r.status == StatusOf(l, state.history, |before|) && AlertOf(l, state.history, |before|, r.alert)
      ensures r.alert.Some? ==> r.alert.value.reason == reason
    {
      NextEvaluation(l, before, true, state.firstSeen, state.lastDispatched, Evaluation(false, now, send));
      var duration := now - state.firstSeen;
      if duration < l.threshold {
        return DispatchResult(SUPPRESSED_DISABLED, None);
      }
      var cooling := state.IsWithinCooldown(l, now, before);
      if cooling {
        return DispatchResult(SUPPRESSED_COOLDOWN, None);
      }
      r := Dispatch(state, Alert(state.firstSeen, duration, reason), now, send);
    }

    /** Only a send that succeeds starts a new cooldown. */
    method Dispatch(state: AlertState, alert: Alert, now: int, send: Send) returns (r: DispatchResult)
      modifies state`lastDispatched
      ensures state.lastDispatched == if send == Sent then Some(now) else old(state.lastDispatched)
      ensures r == DispatchResult(SendStatus(send), Some(alert))
    {
      if send == NoNotifier {
        return DispatchResult(SUPPRESSED_DISABLED, Some(alert));
      }
      if send == RaisedError {
        return DispatchResult(FAILED, Some(alert));
      }
      if send == Sent {
        state.lastDispatched := Some(now);
        return DispatchResult(DISPATCHED, Some(alert));
      }
      r := DispatchResult(FAILED, Some(alert));
    }
  }

  lemma {:induction false} StreakStable(h: seq<Evaluation>, longer: seq<Evaluation>, n: nat)
    requires h <= longer && n < |h| && !h[n].healthy
    ensures StreakStart(longer, n) == StreakStart(h, n)
  {
    if n > 0 && !h[n - 1].healthy {
      StreakStable(h, longer, n - 1);
    }
  }

  lemma {:induction false} DispatchStable(l: Limits, h: seq<Evaluation>, longer: seq<Evaluation>, n: nat)
    requires h <= longer && n <= |h|
    ensures LastDispatch(l, longer, n) == LastDispatch(l, h, n)
  {
    if n > 0 {
      DispatchStable(l, h, longer, n - 1);
      if !h[n - 1].healthy {
        StreakStable(h, longer, n - 1);
      }
    }
  }

  lemma HistoryStable(l: Limits, h: seq<Evaluation>, longer: seq<Evaluation>)
    requires h <= longer
    ensures LastDispatch(l, longer, |h|) == LastDispatch(l, h, |h|)
    ensures |h| > 0 && !h[|h| - 1].healthy ==> StreakStart(longer, |h| - 1) == StreakStart(h, |h| - 1)
  {
    DispatchStable(l, h, longer, |h|);
    if |h| > 0 && !h[|h| - 1].healthy {
      StreakStable(h, longer, |h| - 1);
    }
  }

  // ---- what the alerts promise over any history ----

  /** s starts the unhealthy streak that reaches n. */
  ghost predicate StreakFrom(h: seq<Evaluation>, s: nat, n: nat)
    requires n < |h|
  {
    s <= n && (forall i :: s <= i <= n ==> !h[i].healthy) && (s > 0 ==> h[s - 1].healthy)
  }

  lemma StreakUnique(h: seq<Evaluation>, s: nat, n: nat)
    requires n < |h| && StreakFrom(h, s, n)
    ensures StreakStart(h, n) == s
  {
  }

  /** Some earlier evaluation began an unbroken unhealthy streak at least the threshold ago. */
  ghost predicate LongUnhealthy(l: Limits, h: seq<Evaluation>, n: nat)
    requires n < |h|
  {
    exists s :: 0 <= s < n && StreakFrom(h, s, n) && h[n].now - h[s].now >= l.threshold
  }

  /** The reported start is the one evaluation that begins the streak, just after the last healthy one. */
  lemma SustainedIff(l: Limits, h: seq<Evaluation>, n: nat)
    requires n < |h|
    ensures Sustained(l, h, n) <==> LongUnhealthy(l, h, n)
    ensures !h[n].healthy ==> forall s: nat :: StreakFrom(h, s, n) <==> s == StreakStart(h, n)
  {
    forall s: nat | !h[n].healthy && StreakFrom(h, s, n)
      ensures s == StreakStart(h, n)
    {
      StreakUnique(h, s, n);
    }
    if LongUnhealthy(l, h, n) {
      var s :| 0 <= s < n && StreakFrom(h, s, n) && h[n].now - h[s].now >= l.threshold;
      StreakUnique(h, s, n);
    }
    if Sustained(l, h, n) {
      assert StreakFrom(h, StreakStart(h, n), n);
    }
  }

  /** d is the latest successful dispatch before n. */
  ghost predicate LatestDispatch(l: Limits, h: seq<Evaluation>, d: nat, n: nat)
    requires n < |h|
  {
    d < n && Dispatched(l, h, d) && forall e :: d < e < n ==> !Dispatched(l, h, e)
  }

  /**
   * An attempt at n happens exactly when an unbroken unhealthy streak began at least the
   * threshold ago, before n, and the latest successful dispatch is at least the cooldown ago.
   */
  lemma AttemptIff(l: Limits, h: seq<Evaluation>, n: nat)
    requires n < |h|
    ensures Attempted(l, h, n) <==>
              && LongUnhealthy(l, h, n)
              && forall d: nat :: LatestDispatch(l, h, d, n) ==> h[n].now - h[d].now >= l.cooldown
  {
    SustainedIff(l, h, n);
    LastDispatchIsLast(l, h, n);
    var last := LastDispatch(l, h, n);
    if last.Some? {
      assert LatestDispatch(l, h, last.value, n);
    }
    forall d: nat | LatestDispatch(l, h, d, n)
      ensures last == Some(d)
    {
      LatestIsLast(l, h, d, n);
    }
  }

  /** Which status each evaluation ends with: how an attempt was answered, or why there was none. */
  lemma StatusMeans(l: Limits, h: seq<Evaluation>, n: nat)
    requires n < |h|
    ensures var long := LongUnhealthy(l, h, n);
            var early := exists d: nat :: LatestDispatch(l, h, d, n) && h[n].now - h[d].now < l.cooldown;
            && (StatusOf(l, h, n) == DISPATCHED <==> long && !early && h[n].send == Sent)
            && (StatusOf(l, h, n) == FAILED <==> long && !early && h[n].send in {ReturnedFalse, RaisedError})
            && (StatusOf(l, h, n) == SUPPRESSED_COOLDOWN <==> long && early)
            && (StatusOf(l, h, n) == SUPPRESSED_DISABLED <==> !long || (!early && h[n].send == NoNotifier))
  {
    AttemptIff(l, h, n);
    SustainedIff(l, h, n);
  }

  lemma LatestIsLast(l: Limits, h: seq<Evaluation>, d: nat, n: nat)
    requires n < |h| && LatestDispatch(l, h, d, n)
    ensures LastDispatch(l, h, n) == Some(d)
  {
    LastDispatchIsLast(l, h, n);
    assert LastDispatch(l, h, n).value >= d;
  }

  /** Successful dispatches next to each other are at least the cooldown apart. */
  lemma ConsecutiveDispatchesSpaced(l: Limits, h: seq<Evaluation>, i: nat, j: nat)
    requires j < |h| && Dispatched(l, h, j) && LatestDispatch(l, h, i, j)
    ensures h[j].now - h[i].now >= l.cooldown
  {
    LatestIsLast(l, h, i, j);
  }

  /** With a clock that never runs backwards, any two successful dispatches are. */
  lemma {:induction false} DispatchesSpaced(l: Limits, h: seq<Evaluation>, i: nat, j: nat)
    requires i < j < |h| && Dispatched(l, h, i) && Dispatched(l, h, j)
    requires forall a, b :: 0 <= a <= b < |h| ==> h[a].now <= h[b].now
    ensures h[j].now - h[i].now >= l.cooldown
  {
    LastDispatchIsLast(l, h, j);
    var last := LastDispatch(l, h, j).value;
    if last > i {
      DispatchesSpaced(l, h, i, last);
    }
  }
}
