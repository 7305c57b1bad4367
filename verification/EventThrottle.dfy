/**
 * The throttle in front of the durable event ledger.  The class decides from two
 * small dictionaries; what it decides is specified by the whole history of calls.
 */
module EventThrottle {
  import opened Wrappers
  import opened Schemas

  datatype Event = Event(eventType: string, reason: string, severity: Severity)

  type Key = (string, string)

  datatype Call = Call(event: Event, now: int)

  /** Event types that are throttled at all, and the minimum distance in time between two of one key. */
  datatype Config = Config(throttled: set<string>, interval: int)

  function KeyOf(e: Event): Key { (e.eventType, e.reason) }

  predicate Applies(c: Config, e: Event) {
    e.eventType in c.throttled && e.severity != CRITICAL && e.severity != ERROR && c.interval > 0
  }

  /** A call at this time is let through after the given last emit of its key. */
  predicate Due(c: Config, h: seq<Call>, last: Option<nat>, now: int)
    requires last.Some? ==> last.value < |h|
  {
    last.None? || now - h[last.value].now >= c.interval
  }

  /** The last of the first n calls that was throttleable, had this key and was let through. */
  function LastEmit(c: Config, h: seq<Call>, n: nat, k: Key): (r: Option<nat>)
    requires n <= |h|
    ensures r.Some? ==> r.value < n
  {
    if n == 0 then None else
      var last := LastEmit(c, h, n - 1, k);
      if Applies(c, h[n - 1].event) && KeyOf(h[n - 1].event) == k && Due(c, h, last, h[n - 1].now) then Some(n - 1)
      else last
  }

  /** Call n is suppressed: it is throttleable and less than the interval after the last emit of its key. */
  predicate Suppressed(c: Config, h: seq<Call>, n: nat)
    requires n < |h|
  {
    Applies(c, h[n].event) && !Due(c, h, LastEmit(c, h, n, KeyOf(h[n].event)), h[n].now)
  }

  /** How many calls of this key were suppressed since its last emit. */
  function SuppressedSince(c: Config, h: seq<Call>, n: nat, k: Key): nat
    requires n <= |h|
  {
    if n == 0 || !Applies(c, h[n - 1].event) || KeyOf(h[n - 1].event) != k
    then if n == 0 then 0 else SuppressedSince(c, h, n - 1, k)
    else if Suppressed(c, h, n - 1) then SuppressedSince(c, h, n - 1, k) + 1
    else 0
  }

  /** The two dictionaries hold what the history says about one key. */
  ghost predicate TracksKey(c: Config, h: seq<Call>, lastEmit: map<Key, int>, suppressed: map<Key, nat>, k: Key) {
    var last := LastEmit(c, h, |h|, k);
    && (k in lastEmit <==> last.Some?)
    && (last.Some? ==> lastEmit[k] == h[last.value].now)
    && CountFor(suppressed, k) == SuppressedSince(c, h, |h|, k)
  }

  function CountFor(suppressed: map<Key, nat>, k: Key): nat { if k in suppressed then suppressed[k] else 0 }

  ghost predicate Tracks(c: Config, h: seq<Call>, lastEmit: map<Key, int>, suppressed: map<Key, nat>) {
    forall k :: TracksKey(c, h, lastEmit, suppressed, k)
  }

  /** Whether the dictionaries let a throttleable call of this key through at this time. */
  predicate LetsThrough(c: Config, lastEmit: map<Key, int>, k: Key, now: int) {
    k !in lastEmit || now - lastEmit[k] >= c.interval
  }

  /** What one more call does to the history's account of one key. */
  lemma OneMoreCall(c: Config, h: seq<Call>, call: Call, x: Key)
    ensures var longer, last := h + [call], LastEmit(c, h, |h|, x);
            var mine := Applies(c, call.event) && KeyOf(call.event) == x;
            && LastEmit(c, longer, |h|, x) == last
            && LastEmit(c, longer, |h| + 1, x) == (if mine && Due(c, longer, last, call.now) then Some(|h|) else last)
            && SuppressedSince(c, longer, |h| + 1, x)
               == if !mine then SuppressedSince(c, h, |h|, x)
                  else if Due(c, longer, last, call.now) then 0 else SuppressedSince(c, h, |h|, x) + 1
  {
    PrefixStable(c, h, h + [call], |h|, x);
    assert (h + [call])[|h|] == call;
  }

  /** The dictionaries after a call has been decided. */
  function EmitAfter(c: Config, lastEmit: map<Key, int>, call: Call): map<Key, int> {
    if Applies(c, call.event) && LetsThrough(c, lastEmit, KeyOf(call.event), call.now)
    then lastEmit[KeyOf(call.event) := call.now] else lastEmit
  }

  function CountAfter(c: Config, lastEmit: map<Key, int>, suppressed: map<Key, nat>, call: Call): map<Key, nat> {
    var k := KeyOf(call.event);
    if !Applies(c, call.event) then suppressed
    else if LetsThrough(c, lastEmit, k, call.now) then suppressed - {k}
    else suppressed[k := CountFor(suppressed, k) + 1]
  }

  lemma NextForKey(c: Config, h: seq<Call>, lastEmit: map<Key, int>, suppressed: map<Key, nat>, call: Call, x: Key)
    requires TracksKey(c, h, lastEmit, suppressed, x)
    ensures TracksKey(c, h + [call], EmitAfter(c, lastEmit, call), CountAfter(c, lastEmit, suppressed, call), x)
  {
    OneMoreCall(c, h, call, x);
    var last := LastEmit(c, h, |h|, x);
    if last.Some? {
      assert (h + [call])[last.value] == h[last.value];
    }
  }

  /** What the dictionaries say about the next call, and what they must become. */
  lemma NextCall(c: Config, h: seq<Call>, lastEmit: map<Key, int>, suppressed: map<Key, nat>, call: Call)
    requires Tracks(c, h, lastEmit, suppressed)
    ensures Suppressed(c, h + [call], |h|)
            <==> Applies(c, call.event) && !LetsThrough(c, lastEmit, KeyOf(call.event), call.now)
    ensures Tracks(c, h + [call], EmitAfter(c, lastEmit, call), CountAfter(c, lastEmit, suppressed, call))
  {
    var longer, emit, count := h + [call], EmitAfter(c, lastEmit, call), CountAfter(c, lastEmit, suppressed, call);
    forall x
      ensures TracksKey(c, longer, emit, count, x)
    {
      assert TracksKey(c, h, lastEmit, suppressed, x);
      NextForKey(c, h, lastEmit, suppressed, call, x);
    }
    var k := KeyOf(call.event);
    assert TracksKey(c, h, lastEmit, suppressed, k);
    OneMoreCall(c, h, call, k);
  }

  class DurableEventThrottle {
    const config: Config
    var lastEmit: map<Key, int>
    var suppressed: map<Key, nat>
    ghost var history: seq<Call>

    ghost predicate Valid()
      reads this
    {
      Tracks(config, history, lastEmit, suppressed)
    }

    constructor (config: Config)
      ensures Valid() && this.config == config && history == []
    {
      this.config := config;
      lastEmit, suppressed, history := map[], map[], [];
    }

    /** The decision is the one the history calls for, and the dictionaries go on tracking it. */
    method ShouldThrottle(event: Event, now: int) returns (throttle: bool)
      requires Valid()
      modifies this
      ensures Valid() && history == old(history) + [Call(event, now)]
      ensures throttle == Suppressed(config, history, |history| - 1)
      ensures !Applies(config, event) ==> lastEmit == old(lastEmit) && suppressed == old(suppressed)
    {
      NextCall(config, history, lastEmit, suppressed, Call(event, now));
      history := history + [Call(event, now)];
      if event.eventType !in config.throttled {
        return false;
      }
      if event.severity == CRITICAL || event.severity == ERROR {
        return false;
      }
      if config.interval <= 0 {
        return false;
      }
      var key := KeyOf(event);
      if key !in lastEmit || now - lastEmit[key] >= config.interval {
        suppressed := suppressed - {key};
        lastEmit := lastEmit[key := now];
        return false;
      }
      suppressed := suppressed[key := CountFor(suppressed, key) + 1];
      throttle := true;
    }
  }

  /** What the history says about its first calls does not change when it grows. */
  lemma {:induction false} PrefixStable(c: Config, h: seq<Call>, longer: seq<Call>, n: nat, k: Key)
    requires h <= longer && n <= |h|
    ensures LastEmit(c, longer, n, k) == LastEmit(c, h, n, k)
    ensures SuppressedSince(c, longer, n, k) == SuppressedSince(c, h, n, k)
  {
    if n > 0 {
      PrefixStable(c, h, longer, n - 1, k);
      assert KeyOf(h[n - 1].event) == k ==> Suppressed(c, longer, n - 1) == Suppressed(c, h, n - 1);
    }
  }

  // ---- what the throttle promises over a whole run ----

  predicate Emitted(c: Config, h: seq<Call>, n: nat, k: Key)
    requires n < |h|
  {
    Applies(c, h[n].event) && KeyOf(h[n].event) == k && !Suppressed(c, h, n)
  }

  /** The recorded last emit is an emit, and none of that key comes between it and n. */
  lemma {:induction false} LastEmitIsLast(c: Config, h: seq<Call>, n: nat, k: Key)
    requires n <= |h|
    ensures var last := LastEmit(c, h, n, k);
            && (last.Some? ==> Emitted(c, h, last.value, k))
            && (forall i :: 0 <= i < n && Emitted(c, h, i, k) ==> last.Some? && i <= last.value)
  {
    if n > 0 {
      LastEmitIsLast(c, h, n - 1, k);
    }
  }

  /** Two emits of one key with no emit of that key in between are at least the interval apart. */
  lemma ConsecutiveEmitsSpaced(c: Config, h: seq<Call>, i: nat, j: nat, k: Key)
    requires i < j < |h| && Emitted(c, h, i, k) && Emitted(c, h, j, k)
    requires forall m :: i < m < j ==> !Emitted(c, h, m, k)
    ensures h[j].now - h[i].now >= c.interval
  {
    LastEmitIsLast(c, h, j, k);
    assert LastEmit(c, h, j, k) == Some(i);
  }

  /** With a clock that never runs backwards, any two emits of one key are that far apart. */
  lemma {:induction false} EmitsSpaced(c: Config, h: seq<Call>, i: nat, j: nat, k: Key)
    requires i < j < |h| && Emitted(c, h, i, k) && Emitted(c, h, j, k)
    requires forall a, b :: 0 <= a <= b < |h| ==> h[a].now <= h[b].now
    ensures h[j].now - h[i].now >= c.interval
  {
    LastEmitIsLast(c, h, j, k);
    var last := LastEmit(c, h, j, k).value;
    if last > i {
      EmitsSpaced(c, h, i, last, k);
    }
  }

  /** A suppressed call is never CRITICAL or ERROR, and is less than the interval after the last emit of its key. */
  lemma SuppressedIsRecent(c: Config, h: seq<Call>, n: nat)
    requires n < |h| && Suppressed(c, h, n)
    ensures h[n].event.severity != CRITICAL && h[n].event.severity != ERROR
    ensures exists i :: 0 <= i < n && Emitted(c, h, i, KeyOf(h[n].event)) && h[n].now - h[i].now < c.interval
                        && forall m :: i < m < n ==> !Emitted(c, h, m, KeyOf(h[n].event))
  {
    LastEmitIsLast(c, h, n, KeyOf(h[n].event));
    var last := LastEmit(c, h, n, KeyOf(h[n].event)).value;
    assert Emitted(c, h, last, KeyOf(h[n].event));
  }

  /** Call i let through an event of the type and reason of call n. */
  predicate LetThroughLike(c: Config, h: seq<Call>, i: nat, n: nat)
    requires i < |h| && n < |h|
  {
    && h[i].event.severity in {INFO, WARNING} && !Suppressed(c, h, i)
    && h[i].event.eventType == h[n].event.eventType && h[i].event.reason == h[n].event.reason
  }

  /**
   * With a positive interval, a call is suppressed exactly when its event is an INFO or WARNING of a
   * throttled type and the last call that let such an event of its own type and reason through is less
   * than the interval ago; other types and reasons do not matter.
   */
  lemma SuppressedIff(c: Config, h: seq<Call>, n: nat)
    requires n < |h|
    ensures Suppressed(c, h, n)
            <==> && c.interval > 0 && h[n].event.eventType in c.throttled && h[n].event.severity in {INFO, WARNING}
                 && exists i: nat :: i < n && LetThroughLike(c, h, i, n) && h[n].now - h[i].now < c.interval
                                     && forall m: nat :: i < m < n ==> !LetThroughLike(c, h, m, n)
  {
    if c.interval > 0 && h[n].event.eventType in c.throttled {
      var k := KeyOf(h[n].event);
      LastEmitIsLast(c, h, n, k);
      forall i: nat | i < n
        ensures LetThroughLike(c, h, i, n) <==> Emitted(c, h, i, k)
      {
      }
      var last := LastEmit(c, h, n, k);
      if last.Some? {
        assert LetThroughLike(c, h, last.value, n);
      }
    }
  }

  function CountSuppressed(c: Config, h: seq<Call>, from: nat, n: nat, k: Key): nat
    requires from <= n <= |h|
    decreases n - from
  {
    if from == n then 0
    else CountSuppressed(c, h, from, n - 1, k) + if Suppressed(c, h, n - 1) && KeyOf(h[n - 1].event) == k then 1 else 0
  }

  /** The counter of a key is the number of its calls suppressed after its last emit. */
  lemma {:induction false} CounterIsExact(c: Config, h: seq<Call>, n: nat, k: Key)
    requires n <= |h|
    ensures var last := LastEmit(c, h, n, k);
            SuppressedSince(c, h, n, k) == CountSuppressed(c, h, if last.Some? then last.value + 1 else 0, n, k)
  {
    if n > 0 {
      CounterIsExact(c, h, n - 1, k);
    }
  }
}
