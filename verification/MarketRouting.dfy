/** Activating discovered markets: de-duplication, collision check, routing tables. */
module MarketRouting {
  import opened Wrappers
  import opened Sequences
  import opened Text

  datatype Market = Market(conditionId: string, tokens: seq<string>)

  type TokenPair = (Option<string>, Option<string>)

  predicate SeenBefore(ms: seq<Market>, i: nat)
    requires i < |ms|
  {
    exists j :: 0 <= j < i && ms[j].conditionId == ms[i].conditionId
  }

  /** The markets with each condition id kept at its first occurrence. */
  function Deduped(ms: seq<Market>): seq<Market> {
    if ms == [] then [] else
      var n := |ms| - 1;
      Deduped(ms[..n]) + if SeenBefore(ms, n) then [] else [ms[n]]
  }

  predicate DistinctIds(ds: seq<Market>) { forall a, b :: 0 <= a < b < |ds| ==> ds[a].conditionId != ds[b].conditionId }

  function TokensOf(m: Market): set<string> { set i | 0 <= i < |m.tokens| :: m.tokens[i] }

  predicate SharesToken(a: Market, b: Market) { exists t :: t in a.tokens && t in b.tokens }

  /** A market is accepted when it shares no token with an earlier accepted one. */
  predicate Accepted(ds: seq<Market>, i: nat)
    requires i < |ds|
    decreases i
  {
    forall j :: 0 <= j < i && Accepted(ds, j) ==> !SharesToken(ds[j], ds[i])
  }

  /** Routed markets are the accepted ones whose first token is a non-empty id. */
  predicate Routed(ds: seq<Market>, i: nat)
    requires i < |ds|
  {
    Accepted(ds, i) && ds[i].tokens != [] && ds[i].tokens[0] != ""
  }

  predicate Claims(m: Market, x: string) { x in m.tokens || x == m.conditionId }

  /** The last routed market among the first n that claims x. */
  function LastClaim(ds: seq<Market>, n: nat, x: string): (r: Option<nat>)
    requires n <= |ds|
    ensures r.Some? ==> r.value < n && Routed(ds, r.value) && Claims(ds[r.value], x)
    ensures forall i :: 0 <= i < n && Routed(ds, i) && Claims(ds[i], x) ==> r.Some? && i <= r.value
  {
    if n == 0 then None
    else if Routed(ds, n - 1) && Claims(ds[n - 1], x) then Some(n - 1)
    else LastClaim(ds, n - 1, x)
  }

  /** Every token of an accepted market among the first n. */
  function AcceptedTokens(ds: seq<Market>, n: nat): set<string>
    requires n <= |ds|
  {
    if n == 0 then {}
    else AcceptedTokens(ds, n - 1) + if Accepted(ds, n - 1) then TokensOf(ds[n - 1]) else {}
  }

  function PairOf(m: Market): TokenPair {
    (if m.tokens != [] then Some(m.tokens[0]) else None, if |m.tokens| > 1 then Some(m.tokens[1]) else None)
  }

  /** The two maps send every claimed key to its last claimant: its condition id, and its first token. */
  ghost predicate RoutesTo(byToken: map<string, string>, yesByToken: map<string, string>, ds: seq<Market>, n: nat)
    requires n <= |ds|
  {
    forall x :: RoutesKey(byToken, yesByToken, ds, n, x)
  }

  predicate RoutesKey(byToken: map<string, string>, yesByToken: map<string, string>, ds: seq<Market>, n: nat, x: string)
    requires n <= |ds|
  {
    var i := LastClaim(ds, n, x);
    && (x in byToken <==> i.Some?) && (x in yesByToken <==> i.Some?)
    && (i.Some? ==> byToken[x] == ds[i.value].conditionId && yesByToken[x] == ds[i.value].tokens[0])
  }

  /** The token pairs of the accepted markets among the first n, and of no others. */
  function PairsOf(ds: seq<Market>, n: nat): map<string, TokenPair>
    requires n <= |ds|
  {
    if n == 0 then map[]
    else if Accepted(ds, n - 1) then PairsOf(ds, n - 1)[ds[n - 1].conditionId := PairOf(ds[n - 1])]
    else PairsOf(ds, n - 1)
  }

  class Orchestrator {
    var activeMarkets: seq<Market>
    var activeConditionId: Option<string>
    var conditionByToken: map<string, string>
    var yesTokenByToken: map<string, string>
    var pairsByCondition: map<string, TokenPair>
    var subscription: seq<string>

    /** An empty discovery leaves everything as it was. */
    method ActivateMarkets(markets: seq<Market>)
      modifies this
      ensures markets == [] ==>
                && activeMarkets == old(activeMarkets) && activeConditionId == old(activeConditionId)
                && conditionByToken == old(conditionByToken) && yesTokenByToken == old(yesTokenByToken)
                && pairsByCondition == old(pairsByCondition) && subscription == old(subscription)
      ensures markets != [] ==>
                var ds := Deduped(markets);
                && ds != [] && activeMarkets == ds && activeConditionId == Some(ds[0].conditionId)
                && RoutesTo(conditionByToken, yesTokenByToken, ds, |ds|)
                && subscription == SortedStrings(AcceptedTokens(ds, |ds|))
                && pairsByCondition == PairsOf(ds, |ds|)
    {
      if markets == [] {
        return;
      }
      var deduped := Dedupe(markets);
      DedupedNonEmpty(markets);
      Install(deduped);
    }

    /** The assignments at the end of an activation. */
    method Install(deduped: seq<Market>)
      requires deduped != []
      modifies this
      ensures activeMarkets == deduped && activeConditionId == Some(deduped[0].conditionId)
      ensures RoutesTo(conditionByToken, yesTokenByToken, deduped, |deduped|)
      ensures subscription == SortedStrings(AcceptedTokens(deduped, |deduped|))
      ensures pairsByCondition == PairsOf(deduped, |deduped|)
    {
      var byToken, yesByToken, pairs, tokens := BuildRoutes(deduped);
      activeMarkets, activeConditionId := deduped, Some(deduped[0].conditionId);
      conditionByToken, yesTokenByToken, pairsByCondition := byToken, yesByToken, pairs;
      subscription := SortedStrings(tokens);
    }
  }

  method Dedupe(markets: seq<Market>) returns (deduped: seq<Market>)
    ensures deduped == Deduped(markets)
  {
    deduped := [];
    var seen: set<string> := {};
    for i := 0 to |markets|
      invariant deduped == Deduped(markets[..i])
      invariant forall c :: c in seen <==> exists j :: 0 <= j < i && markets[j].conditionId == c
    {
      var m := markets[i];
      assert markets[..i + 1][..i] == markets[..i];
      assert SeenBefore(markets[..i + 1], i) <==> m.conditionId in seen;
      if m.conditionId !in seen {
        seen, deduped := seen + {m.conditionId}, deduped + [m];
      }
    }
    assert markets[..|markets|] == markets;
  }

  method BuildRoutes(ds: seq<Market>)
    returns (
      byToken: map<string, string>, yesByToken: map<string, string>, pairs: map<string, TokenPair>, tokens: set<string>)
    ensures RoutesTo(byToken, yesByToken, ds, |ds|)
    ensures tokens == AcceptedTokens(ds, |ds|)
    ensures pairs == PairsOf(ds, |ds|)
  {
    byToken, yesByToken, pairs, tokens := map[], map[], map[], {};
    for n := 0 to |ds|
      invariant RoutesTo(byToken, yesByToken, ds, n)
      invariant tokens == AcceptedTokens(ds, n)
      invariant pairs == PairsOf(ds, n)
    {
      var m := ds[n];
      CollisionMeansRejected(ds, n);
      var own := TokensOf(m);
      if tokens * own != {} {
        SkipStep(byToken, yesByToken, ds, n);
        continue;
      }
      tokens := tokens + own;
      pairs := pairs[m.conditionId := PairOf(m)];
      if m.tokens != [] && m.tokens[0] != "" {
        ghost var before, yesBefore := byToken, yesByToken;
        byToken, yesByToken := AddRoutes(byToken, yesByToken, m);
        ClaimStep(before, yesBefore, byToken, yesByToken, ds, n);
      } else {
        SkipStep(byToken, yesByToken, ds, n);
      }
    }
  }

  /** Writes the routes of one market over whatever was there. */
  method AddRoutes(byToken0: map<string, string>, yesByToken0: map<string, string>, m: Market)
    returns (byToken: map<string, string>, yesByToken: map<string, string>)
    requires m.tokens != []
    ensures forall x :: Overwritten(byToken0, byToken, m, m.conditionId, x)
    ensures forall x :: Overwritten(yesByToken0, yesByToken, m, m.tokens[0], x)
  {
    byToken, yesByToken := byToken0, yesByToken0;
    for k := 0 to |m.tokens|
      invariant Written(byToken0, byToken, m.tokens[..k], m.conditionId)
      invariant Written(yesByToken0, yesByToken, m.tokens[..k], m.tokens[0])
    {
      assert m.tokens[..k + 1] == m.tokens[..k] + [m.tokens[k]];
      WriteStep(byToken0, byToken, m.tokens[..k], m.conditionId, m.tokens[k]);
      WriteStep(yesByToken0, yesByToken, m.tokens[..k], m.tokens[0], m.tokens[k]);
      byToken := byToken[m.tokens[k] := m.conditionId];
      yesByToken := yesByToken[m.tokens[k] := m.tokens[0]];
    }
    assert m.tokens[..|m.tokens|] == m.tokens;
    WriteStep(byToken0, byToken, m.tokens, m.conditionId, m.conditionId);
    WriteStep(yesByToken0, yesByToken, m.tokens, m.tokens[0], m.conditionId);
    byToken := byToken[m.conditionId := m.conditionId];
    yesByToken := yesByToken[m.conditionId := m.tokens[0]];
    AllWritten(byToken0, byToken, m, m.conditionId);
    AllWritten(yesByToken0, yesByToken, m, m.tokens[0]);
  }

  /** What writing one value under some keys does to the key x. */
  predicate WrittenAt(
      before: map<string, string>, after: map<string, string>, keys: seq<string>, value: string, x: string)
  {
    if x in keys then x in after && after[x] == value
    else (x in after <==> x in before) && (x in before ==> after[x] == before[x])
  }

  ghost predicate Written(before: map<string, string>, after: map<string, string>, keys: seq<string>, value: string) {
    forall x :: WrittenAt(before, after, keys, value, x)
  }

  lemma WriteStep(
      before: map<string, string>, after: map<string, string>, keys: seq<string>, value: string, key: string)
    requires Written(before, after, keys, value)
    ensures Written(before, after[key := value], keys + [key], value)
  {
    var next, more := after[key := value], keys + [key];
    forall x
      ensures WrittenAt(before, next, more, value, x)
    {
      assert WrittenAt(before, after, keys, value, x);
    }
  }

  lemma AllWritten(before: map<string, string>, after: map<string, string>, m: Market, value: string)
    requires Written(before, after, m.tokens + [m.conditionId], value)
    ensures forall x :: Overwritten(before, after, m, value, x)
  {
    var keys := m.tokens + [m.conditionId];
    forall x
      ensures Overwritten(before, after, m, value, x)
    {
      assert WrittenAt(before, after, keys, value, x);
    }
  }

  /** What writing one market's routes does to one key. */
  predicate Overwritten(before: map<string, string>, after: map<string, string>, m: Market, value: string, x: string) {
    if Claims(m, x) then x in after && after[x] == value
    else (x in after <==> x in before) && (x in before ==> after[x] == before[x])
  }

  // ---- proofs about the loops ----

  lemma DedupedNonEmpty(ms: seq<Market>)
    requires ms != []
    ensures Deduped(ms) != []
  {
    if |ms| > 1 {
      DedupedNonEmpty(ms[..|ms| - 1]);
    }
  }

  lemma {:induction false} DedupedCovers(ms: seq<Market>, m: Market)
    requires m in Deduped(ms)
    ensures exists i :: 0 <= i < |ms| && ms[i] == m && !SeenBefore(ms, i)
  {
    var n := |ms| - 1;
    if m in Deduped(ms[..n]) {
      DedupedCovers(ms[..n], m);
      var i :| 0 <= i < n && ms[..n][i] == m && !SeenBefore(ms[..n], i);
      assert ms[i] == m && !SeenBefore(ms, i);
    }
  }

  lemma {:induction false} DedupedDistinct(ms: seq<Market>)
    ensures DistinctIds(Deduped(ms))
  {
    if ms != [] {
      var n := |ms| - 1;
      DedupedDistinct(ms[..n]);
      forall m | m in Deduped(ms[..n]) && !SeenBefore(ms, n)
        ensures m.conditionId != ms[n].conditionId
      {
        DedupedCovers(ms[..n], m);
        var i :| 0 <= i < n && ms[..n][i] == m && !SeenBefore(ms[..n], i);
        assert ms[i] == m;
      }
    }
  }

  /** De-duplication keeps the order of discovery. */
  lemma {:induction false} DedupedInOrder(ms: seq<Market>)
    ensures Subsequence(Deduped(ms), ms)
  {
    if ms == [] {
      assert Embeds([], Deduped(ms), ms);
    } else {
      var n := |ms| - 1;
      DedupedInOrder(ms[..n]);
      SubsequenceExtend(Deduped(ms[..n]), ms[..n], ms[n]);
      assert ms == ms[..n] + [ms[n]];
      assert Deduped(ms[..n]) + [] == Deduped(ms[..n]);
    }
  }

  /** De-duplication keeps exactly the first market of each condition id. */
  lemma {:induction false} DedupedKeepsFirsts(ms: seq<Market>, i: nat)
    requires i < |ms| && !SeenBefore(ms, i)
    ensures ms[i] in Deduped(ms)
  {
    var n := |ms| - 1;
    if i < n {
      assert !SeenBefore(ms[..n], i);
      DedupedKeepsFirsts(ms[..n], i);
    }
  }

  lemma {:induction false} InAcceptedTokens(ds: seq<Market>, n: nat, t: string)
    requires n <= |ds|
    ensures t in AcceptedTokens(ds, n) <==> exists i :: 0 <= i < n && Accepted(ds, i) && t in ds[i].tokens
  {
    if n > 0 {
      InAcceptedTokens(ds, n - 1, t);
    }
  }

  lemma CollisionMeansRejected(ds: seq<Market>, n: nat)
    requires n < |ds|
    ensures AcceptedTokens(ds, n) * TokensOf(ds[n]) != {} <==> !Accepted(ds, n)
  {
    if !Accepted(ds, n) {
      var j :| 0 <= j < n && Accepted(ds, j) && SharesToken(ds[j], ds[n]);
      var t :| t in ds[j].tokens && t in ds[n].tokens;
      InAcceptedTokens(ds, n, t);
      assert t in AcceptedTokens(ds, n) * TokensOf(ds[n]);
    }
    if exists t :: t in AcceptedTokens(ds, n) && t in ds[n].tokens {
      var t :| t in AcceptedTokens(ds, n) && t in ds[n].tokens;
      InAcceptedTokens(ds, n, t);
      var j :| 0 <= j < n && Accepted(ds, j) && t in ds[j].tokens;
      assert SharesToken(ds[j], ds[n]);
    }
  }

  /** Only condition ids of accepted markets have a pair. */
  lemma {:induction false} InPairs(ds: seq<Market>, n: nat, c: string) returns (i: nat)
    requires n <= |ds| && c in PairsOf(ds, n)
    ensures i < n && Accepted(ds, i) && ds[i].conditionId == c
  {
    if Accepted(ds, n - 1) && ds[n - 1].conditionId == c {
      i := n - 1;
    } else {
      i := InPairs(ds, n - 1, c);
    }
  }

  lemma {:induction false} AcceptedHasPair(ds: seq<Market>, n: nat, i: nat)
    requires i < n <= |ds| && Accepted(ds, i) && DistinctIds(ds)
    ensures ds[i].conditionId in PairsOf(ds, n) && PairsOf(ds, n)[ds[i].conditionId] == PairOf(ds[i])
  {
    if i < n - 1 {
      AcceptedHasPair(ds, n - 1, i);
    }
  }

  /** A market has a pair exactly when it is accepted, and then its own. */
  lemma PairIffAccepted(ds: seq<Market>, i: nat)
    requires i < |ds| && DistinctIds(ds)
    ensures ds[i].conditionId in PairsOf(ds, |ds|) <==> Accepted(ds, i)
    ensures Accepted(ds, i) ==> PairsOf(ds, |ds|)[ds[i].conditionId] == PairOf(ds[i])
  {
    if Accepted(ds, i) {
      AcceptedHasPair(ds, |ds|, i);
    }
    if ds[i].conditionId in PairsOf(ds, |ds|) {
      var j := InPairs(ds, |ds|, ds[i].conditionId);
      assert !(i < j) && !(j < i);
    }
  }

  /** The pair is the market's first two token ids, in that order, as far as it has them. */
  lemma PairInOrder(ds: seq<Market>, i: nat)
    requires i < |ds| && DistinctIds(ds) && Accepted(ds, i)
    ensures ds[i].conditionId in PairsOf(ds, |ds|)
    ensures var pair, tokens := PairsOf(ds, |ds|)[ds[i].conditionId], ds[i].tokens;
            && (|tokens| == 0 ==> pair == (None, None))
            && (|tokens| == 1 ==> pair == (Some(tokens[0]), None))
            && (|tokens| >= 2 ==> pair == (Some(tokens[0]), Some(tokens[1])))
  {
    PairIffAccepted(ds, i);
  }

  /** A market that was skipped does not stand in the way of a later one that shares a token only with it. */
  lemma SkippedBlocksNothing(a: string, b: string, c: string, t: string, u: string)
    requires t != u
    ensures var ds := [Market(a, [t]), Market(b, [t, u]), Market(c, [u])];
            Accepted(ds, 0) && !Accepted(ds, 1) && Accepted(ds, 2)
  {
    var ds := [Market(a, [t]), Market(b, [t, u]), Market(c, [u])];
    assert t in ds[0].tokens && t in ds[1].tokens;
    assert SharesToken(ds[0], ds[1]);
    assert Accepted(ds, 0);
    assert !Accepted(ds, 1);
    assert !SharesToken(ds[0], ds[2]);
  }

  lemma SkipStep(byToken: map<string, string>, yesByToken: map<string, string>, ds: seq<Market>, n: nat)
    requires n < |ds| && RoutesTo(byToken, yesByToken, ds, n) && !Routed(ds, n)
    ensures RoutesTo(byToken, yesByToken, ds, n + 1)
  {
    var next := n + 1;
    forall x
      ensures RoutesKey(byToken, yesByToken, ds, next, x)
    {
      assert RoutesKey(byToken, yesByToken, ds, n, x);
    }
  }

  lemma ClaimStep(
      before: map<string, string>, yesBefore: map<string, string>,
      after: map<string, string>, yesAfter: map<string, string>, ds: seq<Market>, n: nat)
    requires n < |ds| && RoutesTo(before, yesBefore, ds, n) && Routed(ds, n)
    requires forall x :: Overwritten(before, after, ds[n], ds[n].conditionId, x)
    requires forall x :: Overwritten(yesBefore, yesAfter, ds[n], ds[n].tokens[0], x)
    ensures RoutesTo(after, yesAfter, ds, n + 1)
  {
    var next := n + 1;
    forall x
      ensures RoutesKey(after, yesAfter, ds, next, x)
    {
      assert RoutesKey(before, yesBefore, ds, n, x);
      assert Overwritten(before, after, ds[n], ds[n].conditionId, x);
      assert Overwritten(yesBefore, yesAfter, ds[n], ds[n].tokens[0], x);
    }
  }

  // ---- what the tables promise ----

  /** A market accepted later took t as its condition id. */
  predicate Shadowed(ds: seq<Market>, i: nat, t: string)
    requires i < |ds|
  {
    exists j :: i < j < |ds| && Routed(ds, j) && ds[j].conditionId == t
  }

  lemma AcceptedAreDisjoint(ds: seq<Market>, i: nat, j: nat, t: string)
    requires i < |ds| && j < |ds| && i != j && Accepted(ds, i) && Accepted(ds, j) && t in ds[i].tokens
    ensures t !in ds[j].tokens
  {
  }

  /**
   * A token of an accepted market is sent to that market and to its first token exactly when that first
   * token is not the empty string and no later routed market has the same string for its condition id.
   */
  lemma TokenRoutedIff(
      byToken: map<string, string>, yesByToken: map<string, string>, ds: seq<Market>, i: nat, t: string)
    requires RoutesTo(byToken, yesByToken, ds, |ds|) && DistinctIds(ds)
    requires i < |ds| && Accepted(ds, i) && t in ds[i].tokens
    ensures Reaches(byToken, yesByToken, t, ds[i]) <==> ds[i].tokens[0] != "" && !Shadowed(ds, i, t)
  {
    assert RoutesKey(byToken, yesByToken, ds, |ds|, t);
    if Routed(ds, i) {
      RoutedTokenIff(byToken, yesByToken, ds, i, t);
    } else if t in byToken {
      var last := LastClaim(ds, |ds|, t).value;
      assert last != i;
      assert ds[last].conditionId != ds[i].conditionId;
    }
  }

  /** The string x is routed to m and to m's first token. */
  predicate Reaches(byToken: map<string, string>, yesByToken: map<string, string>, x: string, m: Market)
    requires m.tokens != []
  {
    x in byToken && x in yesByToken && byToken[x] == m.conditionId && yesByToken[x] == m.tokens[0]
  }

  lemma RoutedTokenIff(
      byToken: map<string, string>, yesByToken: map<string, string>, ds: seq<Market>, i: nat, t: string)
    requires RoutesTo(byToken, yesByToken, ds, |ds|) && DistinctIds(ds)
    requires i < |ds| && Routed(ds, i) && t in ds[i].tokens
    ensures Reaches(byToken, yesByToken, t, ds[i]) <==> !Shadowed(ds, i, t)
  {
    assert RoutesKey(byToken, yesByToken, ds, |ds|, t);
    var last := LastClaim(ds, |ds|, t).value;
    if last != i {
      AcceptedAreDisjoint(ds, i, last, t);
      assert ds[last].conditionId == t;
      assert Shadowed(ds, i, t);
    }
    if Shadowed(ds, i, t) {
      var j :| i < j < |ds| && Routed(ds, j) && ds[j].conditionId == t;
      assert j <= last;
    }
  }

  /** A later routed market has this market's condition id among its tokens. */
  predicate TakenOver(ds: seq<Market>, i: nat)
    requires i < |ds|
  {
    exists j :: i < j < |ds| && Routed(ds, j) && ds[i].conditionId in ds[j].tokens
  }

  /** A condition id is sent to its own market exactly when that is routed and no later one has it for a token. */
  lemma ConditionRoutedIff(byToken: map<string, string>, yesByToken: map<string, string>, ds: seq<Market>, i: nat)
    requires RoutesTo(byToken, yesByToken, ds, |ds|) && DistinctIds(ds) && i < |ds|
    ensures var c := ds[i].conditionId; c in byToken && byToken[c] == c <==> Routed(ds, i) && !TakenOver(ds, i)
  {
    var c := ds[i].conditionId;
    assert RoutesKey(byToken, yesByToken, ds, |ds|, c);
    var last := LastClaim(ds, |ds|, c);
    if last.Some? && last.value != i {
      assert ds[last.value].conditionId != c;
    }
    if TakenOver(ds, i) {
      var j :| i < j < |ds| && Routed(ds, j) && c in ds[j].tokens;
      assert Claims(ds[j], c) && j <= last.value;
    }
  }

  /** With token ids non-empty and no condition ids, every token of every accepted market finds its market. */
  lemma AllTokensRouted(byToken: map<string, string>, yesByToken: map<string, string>, ds: seq<Market>)
    requires RoutesTo(byToken, yesByToken, ds, |ds|) && DistinctIds(ds)
    requires forall i, j :: 0 <= i < |ds| && 0 <= j < |ds| ==> ds[j].conditionId !in ds[i].tokens
    requires forall i :: 0 <= i < |ds| ==> "" !in ds[i].tokens
    ensures forall i, t :: 0 <= i < |ds| && Accepted(ds, i) && t in ds[i].tokens ==>
              Reaches(byToken, yesByToken, t, ds[i])
    ensures forall x :: x in byToken ==> exists i :: 0 <= i < |ds| && Routed(ds, i) && Claims(ds[i], x)
  {
    forall i, t | 0 <= i < |ds| && Accepted(ds, i) && t in ds[i].tokens
      ensures Reaches(byToken, yesByToken, t, ds[i])
    {
      TokenRoutedIff(byToken, yesByToken, ds, i, t);
      assert ds[i].tokens[0] in ds[i].tokens && !Shadowed(ds, i, t);
    }
    forall x | x in byToken
      ensures exists i :: 0 <= i < |ds| && Routed(ds, i) && Claims(ds[i], x)
    {
      assert RoutesKey(byToken, yesByToken, ds, |ds|, x);
    }
  }

  /**
   * The list of active markets also holds the markets skipped for a collision: every first market of a
   * condition id is listed, it has its token pair exactly when it was accepted, and without one nothing
   * is routed to it.
   */
  lemma SkippedStayActive(markets: seq<Market>, byToken: map<string, string>, yesByToken: map<string, string>, k: nat)
    returns (i: nat)
    requires k < |markets| && !SeenBefore(markets, k)
    requires RoutesTo(byToken, yesByToken, Deduped(markets), |Deduped(markets)|)
    ensures var ds := Deduped(markets);
            && i < |ds| && ds[i] == markets[k]
            && (markets[k].conditionId in PairsOf(ds, |ds|) <==> Accepted(ds, i))
            && (!Accepted(ds, i) ==> forall t :: t in byToken ==> byToken[t] != markets[k].conditionId)
  {
    var ds := Deduped(markets);
    DedupedKeepsFirsts(markets, k);
    DedupedDistinct(markets);
    i :| 0 <= i < |ds| && ds[i] == markets[k];
    PairIffAccepted(ds, i);
    forall t | t in byToken && !Accepted(ds, i)
      ensures byToken[t] != markets[k].conditionId
    {
      RoutedHasPair(byToken, yesByToken, ds, t);
    }
  }

  /** Whatever a token is routed to has a token pair. */
  lemma RoutedHasPair(byToken: map<string, string>, yesByToken: map<string, string>, ds: seq<Market>, t: string)
    requires RoutesTo(byToken, yesByToken, ds, |ds|) && DistinctIds(ds) && t in byToken
    ensures byToken[t] in PairsOf(ds, |ds|)
  {
    assert RoutesKey(byToken, yesByToken, ds, |ds|, t);
    var last := LastClaim(ds, |ds|, t).value;
    AcceptedHasPair(ds, |ds|, last);
  }

  /** Two markets sharing a token: both stay listed, and only the first has a pair. */
  lemma CollisionKeepsBothListed(a: string, b: string, t: string)
    requires a != b
    ensures var ds := [Market(a, [t]), Market(b, [t])];
            Deduped(ds) == ds && a in PairsOf(ds, 2) && b !in PairsOf(ds, 2)
  {
    var ds := [Market(a, [t]), Market(b, [t])];
    DedupedTwo(ds[0], ds[1]);
    assert t in ds[0].tokens && t in ds[1].tokens;
    assert SharesToken(ds[0], ds[1]);
    assert Accepted(ds, 0) && !Accepted(ds, 1);
    PairIffAccepted(ds, 0);
    PairIffAccepted(ds, 1);
  }

  lemma DedupedTwo(first: Market, second: Market)
    requires first.conditionId != second.conditionId
    ensures Deduped([first, second]) == [first, second]
  {
    assert [first][..0] == [] && [first, second][..1] == [first];
    assert Deduped([first]) == [first];
    assert !SeenBefore([first, second], 1);
  }

  /** A market whose first token is the empty string: the other is subscribed, and routed nowhere. */
  lemma EmptyFirstTokenUnrouted(
      c: string, t: string, byToken: map<string, string>, yesByToken: map<string, string>)
    requires RoutesTo(byToken, yesByToken, [Market(c, ["", t])], 1)
    ensures t in AcceptedTokens([Market(c, ["", t])], 1) && t !in byToken && c !in byToken
  {
    var ds := [Market(c, ["", t])];
    assert ds[0].tokens[1] == t;
    assert Accepted(ds, 0) && !Routed(ds, 0);
    InAcceptedTokens(ds, 1, t);
    assert RoutesKey(byToken, yesByToken, ds, 1, t) && RoutesKey(byToken, yesByToken, ds, 1, c);
  }

  /** A later market whose condition id is the string of an earlier market's token takes that token's frames. */
  lemma LaterConditionTakesToken(
      a: string, t: string, u: string, byToken: map<string, string>, yesByToken: map<string, string>)
    requires a != t && t != u && t != "" && u != ""
    requires RoutesTo(byToken, yesByToken, [Market(a, [t]), Market(t, [u])], 2)
    ensures t in byToken && byToken[t] == t != a
    ensures t in yesByToken && yesByToken[t] == u
  {
    var ds := [Market(a, [t]), Market(t, [u])];
    assert t in ds[0].tokens && u in ds[1].tokens;
    assert !SharesToken(ds[0], ds[1]);
    assert Routed(ds, 0) && Routed(ds, 1);
    assert Claims(ds[1], t);
    assert RoutesKey(byToken, yesByToken, ds, 2, t);
  }
}
