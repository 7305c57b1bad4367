/**
 * The replay loop: one pass over the snapshots in time order, keeping equity,
 * its running peak, the worst drawdown and one accumulator per market.
 */
module BacktestRunner {
  import opened Sequences
  import opened Schemas
  import opened Reals
  import opened Sorting
  import opened BacktestData

  /** What evaluating and routing one snapshot gave; pnl is what routing reported. */
  datatype Replay = Replay(
    decision: bool, action: Action, positionSizePct: real, ev: real, confidence: real, pnl: real)

  /** Evaluation and routing are outside the runner and may depend on how many calls came before. */
  type Evaluator = (Snapshot, nat) -> Replay

  datatype Decision = Decision(
    tokenId: string, timestampUtc: int, decision: bool, action: Action, positionSizeUsdc: real,
    ev: real, confidence: real, realizedPnl: real, outcomeResolved: bool)

  datatype MarketStats = MarketStats(totalDecisions: nat, tradesExecuted: nat, winRate: real, netPnl: real)

  datatype Report = Report(
    totalTrades: nat, winRate: real, netPnl: real, maxDrawdown: real, sharpe: real,
    perMarket: map<string, MarketStats>, decisions: seq<Decision>, bankroll: real)

  // ---- one snapshot ----

  function DecisionFor(bankroll: real, s: Snapshot, r: Replay): Decision {
    Decision(s.tokenId, s.timestampUtc, r.decision, if r.decision then r.action else HOLD,
             r.positionSizePct * bankroll, r.ev, r.confidence, if r.decision then r.pnl else 0.0,
             r.decision || s.outcomeResolved)
  }

  function Decisions(bankroll: real, snapshots: seq<Snapshot>, evaluate: Evaluator): seq<Decision> {
    seq(|snapshots|, i requires 0 <= i < |snapshots| => DecisionFor(bankroll, snapshots[i], evaluate(snapshots[i], i)))
  }

  // ---- what the totals mean ----

  function Trades(ds: seq<Decision>): seq<real> {
    if ds == [] then [] else
      var d := ds[|ds| - 1];
      Trades(ds[..|ds| - 1]) + if d.decision then [d.realizedPnl] else []
  }

  /** The decisions about one market. */
  function Of(ds: seq<Decision>, token: string): seq<Decision> { Filter(ds, About(token)) }

  function About(token: string): Decision -> bool { (d: Decision) => d.tokenId == token }

  function Itself(x: real): real { x }
  predicate IsGain(x: real) { x > 0.0 }

  function Sum(xs: seq<real>): real { Total(xs, Itself) }

  function Wins(xs: seq<real>): nat { Count(xs, IsGain) }

  function Ratio(numerator: nat, denominator: nat): real {
    if denominator == 0 then 0.0 else numerator as real / denominator as real
  }

  function StatsOf(ds: seq<Decision>): MarketStats {
    var trades := Trades(ds);
    MarketStats(|ds|, |trades|, Ratio(Wins(trades), |trades|), Sum(trades))
  }

  /** Cumulative profit after the first i trades; zero before the first. */
  function Equity(pnls: seq<real>, i: nat): real
    requires i <= |pnls|
  {
    Sum(pnls[..i])
  }

  /** d is the largest fall of cumulative profit from any point to any later point. */
  ghost predicate IsMaxDrawdown(pnls: seq<real>, d: real) {
    && (forall i: nat, j: nat :: i <= j <= |pnls| ==> Equity(pnls, i) - Equity(pnls, j) <= d)
    && (exists i: nat, j: nat :: i <= j <= |pnls| && Equity(pnls, i) - Equity(pnls, j) == d)
  }

  ghost predicate IsPeak(pnls: seq<real>, peak: real) {
    && (forall i: nat :: i <= |pnls| ==> Equity(pnls, i) <= peak)
    && (exists i: nat :: i <= |pnls| && Equity(pnls, i) == peak)
  }

  lemma EquityPrefix(pnls: seq<real>, x: real, i: nat)
    requires i <= |pnls|
    ensures Equity(pnls + [x], i) == Equity(pnls, i)
  {
    assert (pnls + [x])[..i] == pnls[..i];
  }

  lemma EquityExtend(pnls: seq<real>, x: real)
    ensures Equity(pnls + [x], |pnls| + 1) == Equity(pnls, |pnls|) + x
  {
    assert (pnls + [x])[..|pnls| + 1] == pnls + [x];
    assert pnls[..|pnls|] == pnls;
  }

  lemma PeakStep(pnls: seq<real>, peak: real, x: real)
    requires IsPeak(pnls, peak)
    ensures var e := Equity(pnls, |pnls|) + x; IsPeak(pnls + [x], if e > peak then e else peak)
  {
    var e, all := Equity(pnls, |pnls|) + x, pnls + [x];
    EquityExtend(pnls, x);
    forall i: nat | i <= |all|
      ensures Equity(all, i) <= if e > peak then e else peak
    {
      if i <= |pnls| {
        EquityPrefix(pnls, x, i);
      }
    }
    var at: nat :| at <= |pnls| && Equity(pnls, at) == peak;
    EquityPrefix(pnls, x, at);
    assert Equity(all, if e > peak then |all| else at) == if e > peak then e else peak;
  }

  lemma DrawdownStep(pnls: seq<real>, worst: real, peak: real, x: real)
    requires IsMaxDrawdown(pnls, worst) && IsPeak(pnls + [x], peak)
    ensures var fall := peak - Equity(pnls + [x], |pnls| + 1);
            IsMaxDrawdown(pnls + [x], if fall > worst then fall else worst)
  {
    var all := pnls + [x];
    var fall := peak - Equity(all, |all|);
    forall i: nat, j: nat | i <= j <= |all|
      ensures Equity(all, i) - Equity(all, j) <= if fall > worst then fall else worst
    {
      if j <= |pnls| {
        EquityPrefix(pnls, x, i);
        EquityPrefix(pnls, x, j);
        assert Equity(pnls, i) - Equity(pnls, j) <= worst;
      }
    }
    var p: nat :| p <= |all| && Equity(all, p) == peak;
    var i: nat, j: nat :| i <= j <= |pnls| && Equity(pnls, i) - Equity(pnls, j) == worst;
    EquityPrefix(pnls, x, i);
    EquityPrefix(pnls, x, j);
    if fall > worst {
      assert Equity(all, p) - Equity(all, |all|) == fall;
    } else {
      assert Equity(all, i) - Equity(all, j) == worst;
    }
  }

  // ---- the loop ----

  datatype Accumulator = Accumulator(totalDecisions: nat, tradesExecuted: nat, wins: nat, netPnl: real)

  function AccumulatorOf(ds: seq<Decision>): Accumulator {
    var trades := Trades(ds);
    Accumulator(|ds|, |trades|, Wins(trades), Sum(trades))
  }

  function Tokens(ds: seq<Decision>): set<string> { set i | 0 <= i < |ds| :: ds[i].tokenId }

  ghost predicate Accumulated(accumulators: map<string, Accumulator>, ds: seq<Decision>) {
    forall t :: AccumulatedFor(accumulators, ds, t)
  }

  predicate AccumulatedFor(accumulators: map<string, Accumulator>, ds: seq<Decision>, t: string) {
    && (t in accumulators <==> t in Tokens(ds))
    && (t in accumulators ==> accumulators[t] == AccumulatorOf(Of(ds, t)))
  }

  function Bump(a: Accumulator, d: Decision): Accumulator {
    if d.decision then Accumulator(a.totalDecisions + 1, a.tradesExecuted + 1,
                                   a.wins + (if d.realizedPnl > 0.0 then 1 else 0), a.netPnl + d.realizedPnl)
    else a.(totalDecisions := a.totalDecisions + 1)
  }

  lemma TradesExtend(ds: seq<Decision>, d: Decision)
    ensures Trades(ds + [d]) == if d.decision then Trades(ds) + [d.realizedPnl] else Trades(ds)
  {
    assert (ds + [d])[..|ds|] == ds;
  }

  lemma AccumulatorExtend(ds: seq<Decision>, d: Decision)
    ensures AccumulatorOf(ds + [d]) == Bump(AccumulatorOf(ds), d)
  {
    assert (ds + [d])[..|ds|] == ds;
    TradesExtend(ds, d);
    if d.decision {
      assert (Trades(ds) + [d.realizedPnl])[..|Trades(ds)|] == Trades(ds);
    }
  }

  lemma {:induction false} OfNone(ds: seq<Decision>, t: string)
    requires t !in Tokens(ds)
    ensures Of(ds, t) == []
  {
    if ds != [] {
      var n := |ds| - 1;
      assert ds[n].tokenId in Tokens(ds);
      assert Tokens(ds[..n]) <= Tokens(ds) by {
        forall u | u in Tokens(ds[..n])
          ensures u in Tokens(ds)
        {
          var i :| 0 <= i < n && ds[..n][i].tokenId == u;
          assert ds[i].tokenId == u;
        }
      }
      OfNone(ds[..n], t);
    }
  }

  lemma TokensExtend(ds: seq<Decision>, d: Decision)
    ensures Tokens(ds + [d]) == Tokens(ds) + {d.tokenId}
  {
    var all := ds + [d];
    assert all[|ds|] == d;
    forall t | t in Tokens(ds)
      ensures t in Tokens(all)
    {
      var i :| 0 <= i < |ds| && ds[i].tokenId == t;
      assert all[i] == ds[i];
    }
  }

  lemma AccumulateStep(accumulators: map<string, Accumulator>, ds: seq<Decision>, d: Decision)
    requires Accumulated(accumulators, ds)
    ensures var t := d.tokenId;
            var a := if t in accumulators then accumulators[t] else Accumulator(0, 0, 0, 0.0);
            Accumulated(accumulators[t := Bump(a, d)], ds + [d])
  {
    var a := if d.tokenId in accumulators then accumulators[d.tokenId] else Accumulator(0, 0, 0, 0.0);
    var next, all := accumulators[d.tokenId := Bump(a, d)], ds + [d];
    forall t
      ensures AccumulatedFor(next, all, t)
    {
      AccumulateFor(accumulators, ds, d, a, t);
    }
  }

  lemma AccumulateFor(accumulators: map<string, Accumulator>, ds: seq<Decision>, d: Decision, a: Accumulator, t: string)
    requires AccumulatedFor(accumulators, ds, t)
    requires t == d.tokenId ==> a == if t in accumulators then accumulators[t] else Accumulator(0, 0, 0, 0.0)
    ensures AccumulatedFor(accumulators[d.tokenId := Bump(a, d)], ds + [d], t)
  {
    TokensExtend(ds, d);
    OfExtend(ds, d, t);
    if t == d.tokenId {
      if t !in accumulators {
        OfNone(ds, t);
        NoTrades(Of(ds, t));
      }
      AccumulatorExtend(Of(ds, t), d);
    }
  }

  lemma NoTrades(ds: seq<Decision>)
    requires ds == []
    ensures AccumulatorOf(ds) == Accumulator(0, 0, 0, 0.0)
  {
  }

  lemma OfExtend(ds: seq<Decision>, d: Decision, t: string)
    ensures Of(ds + [d], t) == if d.tokenId == t then Of(ds, t) + [d] else Of(ds, t)
  {
    assert (ds + [d])[..|ds|] == ds;
  }

  /** A market has statistics exactly when a decision is about it, and they are those of its decisions. */
  predicate StatsFor(perMarket: map<string, MarketStats>, ds: seq<Decision>, t: string) {
    && (t in perMarket <==> t in Tokens(ds))
    && (t in perMarket ==> perMarket[t] == StatsOf(Of(ds, t)))
  }

  /** The report of a replay: every figure is what its name says about the decisions, and they are in time order. */
  ghost predicate IsReport(r: Report, ds: seq<Decision>, bankroll: real, sqrt: real -> real) {
    var pnls := Trades(ds);
    && r.decisions == ds && r.bankroll == bankroll
    && r.totalTrades == |pnls| && r.netPnl == Sum(pnls) && r.winRate == Ratio(Wins(pnls), |pnls|)
    && IsMaxDrawdown(pnls, r.maxDrawdown)
    && r.sharpe == Sharpe(pnls, sqrt)
    && forall t :: StatsFor(r.perMarket, ds, t)
  }

  /** Cumulative profit, its peak and the worst drawdown so far. */
  ghost predicate OnCurve(pnls: seq<real>, equity: real, peak: real, worst: real) {
    equity == Equity(pnls, |pnls|) && IsPeak(pnls, peak) && IsMaxDrawdown(pnls, worst)
  }

  lemma CurveStep(pnls: seq<real>, equity: real, peak: real, worst: real, x: real)
    requires OnCurve(pnls, equity, peak, worst)
    ensures var e := equity + x;
            var p := if e > peak then e else peak;
            OnCurve(pnls + [x], e, p, if p - e > worst then p - e else worst)
  {
    EquityExtend(pnls, x);
    PeakStep(pnls, peak, x);
    DrawdownStep(pnls, worst, if equity + x > peak then equity + x else peak, x);
  }

  /** One executed trade. */
  method Settle(ghost pnls: seq<real>, equity0: real, peak0: real, worst0: real, x: real)
    returns (equity: real, peak: real, worst: real)
    requires OnCurve(pnls, equity0, peak0, worst0)
    ensures OnCurve(pnls + [x], equity, peak, worst)
  {
    CurveStep(pnls, equity0, peak0, worst0, x);
    equity, peak, worst := equity0 + x, peak0, worst0;
    if equity > peak {
      peak := equity;
    }
    var drawdown := peak - equity;
    if drawdown > worst {
      worst := drawdown;
    }
  }

  /** The loop of a replay. */
  method Replayed(snapshots: seq<Snapshot>, evaluate: Evaluator, bankroll: real)
    returns (rows: seq<Decision>, accumulators: map<string, Accumulator>, pnls: seq<real>, worst: real)
    ensures rows == Decisions(bankroll, snapshots, evaluate) && pnls == Trades(rows)
    ensures Accumulated(accumulators, rows)
    ensures IsMaxDrawdown(pnls, worst)
  {
    ghost var all := Decisions(bankroll, snapshots, evaluate);
    rows, accumulators, pnls, worst := [], map[], [], 0.0;
    var equity, peak := 0.0, 0.0;
    NoTradesYet();
    for n := 0 to |snapshots|
      invariant rows == all[..n] && pnls == Trades(rows)
      invariant OnCurve(pnls, equity, peak, worst)
      invariant Accumulated(accumulators, rows)
    {
      var d := DecisionFor(bankroll, snapshots[n], evaluate(snapshots[n], n));
      AccumulateStep(accumulators, rows, d);
      TradesExtend(rows, d);
      assert all[..n + 1] == rows + [d];
      var a := if d.tokenId in accumulators then accumulators[d.tokenId] else Accumulator(0, 0, 0, 0.0);
      accumulators := accumulators[d.tokenId := Bump(a, d)];
      rows := rows + [d];
      if d.decision {
        equity, peak, worst := Settle(pnls, equity, peak, worst, d.realizedPnl);
        pnls := pnls + [d.realizedPnl];
      }
    }
    assert all[..|snapshots|] == all;
  }

  method Run(loaded: seq<Snapshot>, evaluate: Evaluator, bankroll: real, sqrt: real -> real) returns (r: Report)
    ensures IsReport(r, Decisions(bankroll, Sort(loaded, Earlier), evaluate), bankroll, sqrt)
    ensures InTime(Sort(loaded, Earlier)) && multiset(Sort(loaded, Earlier)) == multiset(loaded)
    ensures |r.decisions| == |Sort(loaded, Earlier)|
    ensures forall i :: 0 <= i < |r.decisions| ==>
              var s := Sort(loaded, Earlier)[i]; Recounts(r.decisions[i], s, evaluate(s, i), bankroll)
    ensures Accounts(r.decisions, r.totalTrades, r.winRate, r.netPnl)
    ensures forall t :: t in r.perMarket ==> AccountsFor(r.decisions, r.perMarket[t], t)
  {
    var rows, accumulators, pnls, worst := Replayed(Sort(loaded, Earlier), evaluate, bankroll);
    var perMarket := map t | t in accumulators :: Closed(accumulators[t]);
    ClosedStats(accumulators, rows);
    r := Report(|pnls|, Ratio(Wins(pnls), |pnls|), Sum(pnls), worst, Sharpe(pnls, sqrt), perMarket, rows, bankroll);
    SortedInTime(loaded);
    SortPermutes(loaded);
    RecountedAll(bankroll, Sort(loaded, Earlier), evaluate);
    HoldsEarnNothing(bankroll, Sort(loaded, Earlier), evaluate);
    TradesAccount(rows);
    forall t | t in perMarket
      ensures AccountsFor(rows, perMarket[t], t)
    {
      assert StatsFor(perMarket, rows, t);
      MarketAccounts(rows, t);
    }
  }

  lemma SortPermutes(loaded: seq<Snapshot>)
    ensures multiset(Sort(loaded, Earlier)) == multiset(loaded)
  {
    assert TotalPreorder(Earlier);
    SortCorrect(loaded, Earlier);
  }

  // ---- the decisions and the totals, said field by field ----

  /** The row says what was evaluated; without a decision it holds, and no profit is booked. */
  predicate Recounts(d: Decision, s: Snapshot, r: Replay, bankroll: real) {
    && d.tokenId == s.tokenId && d.timestampUtc == s.timestampUtc && d.decision == r.decision
    && (r.decision ==> d.action == r.action && d.realizedPnl == r.pnl && d.outcomeResolved)
    && (!r.decision ==> d.action == HOLD && d.realizedPnl == 0.0 && d.outcomeResolved == s.outcomeResolved)
    && d.positionSizeUsdc == bankroll * r.positionSizePct && d.ev == r.ev && d.confidence == r.confidence
  }

  lemma RecountedAll(bankroll: real, snapshots: seq<Snapshot>, evaluate: Evaluator)
    ensures var ds := Decisions(bankroll, snapshots, evaluate);
            |ds| == |snapshots|
            && forall i :: 0 <= i < |ds| ==> Recounts(ds[i], snapshots[i], evaluate(snapshots[i], i), bankroll)
  {
  }

  predicate Executed(d: Decision) { d.decision }

  predicate Gained(d: Decision) { d.decision && d.realizedPnl > 0.0 }

  function Profit(d: Decision): real { d.realizedPnl }

  /** Only executed decisions earn or lose anything. */
  predicate HoldsAreIdle(ds: seq<Decision>) {
    forall i :: 0 <= i < |ds| ==> ds[i].decision || ds[i].realizedPnl == 0.0
  }

  lemma HoldsEarnNothing(bankroll: real, snapshots: seq<Snapshot>, evaluate: Evaluator)
    ensures HoldsAreIdle(Decisions(bankroll, snapshots, evaluate))
  {
    var ds := Decisions(bankroll, snapshots, evaluate);
    forall i | 0 <= i < |ds|
      ensures ds[i].decision || ds[i].realizedPnl == 0.0
    {
      assert ds[i] == DecisionFor(bankroll, snapshots[i], evaluate(snapshots[i], i));
    }
  }

  /** The totals count the executed decisions, the gains among them, and every decision's profit. */
  ghost predicate Accounts(ds: seq<Decision>, trades: nat, winRate: real, netPnl: real) {
    && trades == Count(ds, Executed) && netPnl == Total(ds, Profit)
    && IsShare(winRate, Count(ds, Gained), trades)
  }

  predicate IsShare(rate: real, part: nat, whole: nat) {
    rate * whole as real == part as real && (whole == 0 ==> rate == 0.0)
  }

  lemma {:induction false} TradesTotal(ds: seq<Decision>)
    requires HoldsAreIdle(ds)
    ensures |Trades(ds)| == Count(ds, Executed) && Wins(Trades(ds)) == Count(ds, Gained)
    ensures Sum(Trades(ds)) == Total(ds, Profit)
  {
    if ds != [] {
      var before, d := ds[..|ds| - 1], ds[|ds| - 1];
      TradesTotal(before);
      assert ds == before + [d];
      TradesExtend(before, d);
      CountOneMore(Trades(before), d.realizedPnl, IsGain);
      if d.decision {
        assert (Trades(before) + [d.realizedPnl])[..|Trades(before)|] == Trades(before);
      }
    }
  }

  lemma RatioTimes(numerator: nat, denominator: nat)
    requires numerator <= denominator
    ensures IsShare(Ratio(numerator, denominator), numerator, denominator)
  {
    if denominator > 0 {
      Quotient(numerator as real, denominator as real);
    }
  }

  lemma {:induction false} CountAtMost(ds: seq<Decision>)
    ensures Count(ds, Gained) <= Count(ds, Executed)
  {
    if ds != [] {
      CountAtMost(ds[..|ds| - 1]);
    }
  }

  lemma TradesAccount(ds: seq<Decision>)
    requires HoldsAreIdle(ds)
    ensures var trades := Trades(ds); Accounts(ds, |trades|, Ratio(Wins(trades), |trades|), Sum(trades))
  {
    TradesTotal(ds);
    CountAtMost(ds);
    RatioTimes(Wins(Trades(ds)), |Trades(ds)|);
  }

  function ExecutedIn(token: string): Decision -> bool { (d: Decision) => d.tokenId == token && d.decision }

  function GainedIn(token: string): Decision -> bool {
    (d: Decision) => d.tokenId == token && d.decision && d.realizedPnl > 0.0
  }

  function ProfitIn(token: string): Decision -> real {
    (d: Decision) => if d.tokenId == token then d.realizedPnl else 0.0
  }

  /** The same for one market: each figure is over the decisions about that market alone. */
  ghost predicate AccountsFor(ds: seq<Decision>, m: MarketStats, token: string) {
    && m.totalDecisions == Count(ds, About(token)) && m.tradesExecuted == Count(ds, ExecutedIn(token))
    && m.netPnl == Total(ds, ProfitIn(token)) && IsShare(m.winRate, Count(ds, GainedIn(token)), m.tradesExecuted)
  }

  lemma OfIsIdle(ds: seq<Decision>, token: string)
    requires HoldsAreIdle(ds)
    ensures HoldsAreIdle(Of(ds, token))
  {
    forall i | 0 <= i < |Of(ds, token)|
      ensures Of(ds, token)[i].decision || Of(ds, token)[i].realizedPnl == 0.0
    {
      InFilter(ds, About(token), Of(ds, token)[i]);
    }
  }

  lemma MarketAccounts(ds: seq<Decision>, token: string)
    requires HoldsAreIdle(ds)
    ensures AccountsFor(ds, StatsOf(Of(ds, token)), token)
  {
    var own := Of(ds, token);
    OfIsIdle(ds, token);
    TradesAccount(own);
    CountAnything(own);
    CountFilter(ds, About(token), Anything, About(token));
    CountFilter(ds, About(token), Executed, ExecutedIn(token));
    CountFilter(ds, About(token), Gained, GainedIn(token));
    TotalFilter(ds, About(token), Profit, ProfitIn(token));
  }

  lemma ClosedStats(accumulators: map<string, Accumulator>, ds: seq<Decision>)
    requires Accumulated(accumulators, ds)
    ensures var perMarket := map t | t in accumulators :: Closed(accumulators[t]);
            forall t :: StatsFor(perMarket, ds, t)
  {
    var perMarket := map t | t in accumulators :: Closed(accumulators[t]);
    forall t
      ensures StatsFor(perMarket, ds, t)
    {
      assert AccumulatedFor(accumulators, ds, t);
    }
  }

  function Closed(a: Accumulator): MarketStats {
    MarketStats(a.totalDecisions, a.tradesExecuted, Ratio(a.wins, a.tradesExecuted), a.netPnl)
  }

  lemma NoTradesYet()
    ensures IsPeak([], 0.0) && IsMaxDrawdown([], 0.0)
  {
    assert Equity([], 0) == 0.0;
    assert Equity([], 0) - Equity([], 0) == 0.0;
  }

  // ---- consequences ----

  lemma {:induction false} NonLosingEquityRises(pnls: seq<real>, i: nat, j: nat)
    requires i <= j <= |pnls| && forall k :: 0 <= k < |pnls| ==> pnls[k] >= 0.0
    ensures Equity(pnls, i) <= Equity(pnls, j)
  {
    if i < j {
      NonLosingEquityRises(pnls, i, j - 1);
      assert pnls[..j][..j - 1] == pnls[..j - 1];
    }
  }

  /** The reported drawdown is never negative, and zero exactly when no executed trade lost money. */
  lemma DrawdownZeroIff(pnls: seq<real>, d: real)
    requires IsMaxDrawdown(pnls, d)
    ensures d >= 0.0
    ensures d == 0.0 <==> forall k :: 0 <= k < |pnls| ==> pnls[k] >= 0.0
  {
    assert Equity(pnls, 0) - Equity(pnls, 0) <= d;
    forall k | 0 <= k < |pnls|
      ensures Equity(pnls, k + 1) == Equity(pnls, k) + pnls[k]
    {
      assert pnls[..k + 1][..k] == pnls[..k];
    }
    if exists k :: 0 <= k < |pnls| && pnls[k] < 0.0 {
      var k :| 0 <= k < |pnls| && pnls[k] < 0.0;
      assert Equity(pnls, k) - Equity(pnls, k + 1) <= d;
    } else {
      var i: nat, j: nat :| i <= j <= |pnls| && Equity(pnls, i) - Equity(pnls, j) == d;
      NonLosingEquityRises(pnls, i, j);
    }
  }

  // Conservation: any duplicate-free listing of the markets accounts for every decision once.

  function Add(a: Accumulator, b: Accumulator): Accumulator {
    Accumulator(a.totalDecisions + b.totalDecisions, a.tradesExecuted + b.tradesExecuted,
                a.wins + b.wins, a.netPnl + b.netPnl)
  }

  /** Decisions, trades, wins and profit added up over the listed markets. */
  function SumOver(ds: seq<Decision>, tokens: seq<string>): Accumulator {
    if tokens == [] then Accumulator(0, 0, 0, 0.0)
    else Add(SumOver(ds, tokens[..|tokens| - 1]), AccumulatorOf(Of(ds, tokens[|tokens| - 1])))
  }

  lemma SumExtend(ds: seq<Decision>, tokens: seq<string>, t: string)
    ensures SumOver(ds, tokens + [t]) == Add(SumOver(ds, tokens), AccumulatorOf(Of(ds, t)))
  {
    assert (tokens + [t])[..|tokens|] == tokens;
  }

  lemma AddBump(a: Accumulator, b: Accumulator, d: Decision)
    ensures Add(Bump(a, d), b) == Bump(Add(a, b), d) == Add(a, Bump(b, d))
  {
  }

  lemma {:induction false} OneMoreDecision(ds: seq<Decision>, d: Decision, tokens: seq<string>)
    requires Distinct(tokens)
    ensures SumOver(ds + [d], tokens)
         == if d.tokenId in tokens then Bump(SumOver(ds, tokens), d) else SumOver(ds, tokens)
  {
    if tokens != [] {
      var before, t := tokens[..|tokens| - 1], tokens[|tokens| - 1];
      OneMoreDecision(ds, d, before);
      assert tokens == before + [t];
      SumExtend(ds, before, t);
      SumExtend(ds + [d], before, t);
      OfExtend(ds, d, t);
      AddBump(SumOver(ds, before), AccumulatorOf(Of(ds, t)), d);
      if d.tokenId == t {
        AccumulatorExtend(Of(ds, t), d);
      }
    }
  }

  lemma OfNothing(ds: seq<Decision>, t: string)
    requires ds == []
    ensures Of(ds, t) == []
  {
  }

  lemma {:induction false} NoDecisions(ds: seq<Decision>, tokens: seq<string>)
    requires ds == []
    ensures SumOver(ds, tokens) == Accumulator(0, 0, 0, 0.0)
  {
    if tokens != [] {
      NoDecisions(ds, tokens[..|tokens| - 1]);
      OfNothing(ds, tokens[|tokens| - 1]);
      NoTrades(Of(ds, tokens[|tokens| - 1]));
    }
  }

  /** Summed over the markets, decisions, trades, wins and profit are the totals of the replay. */
  lemma {:induction false} MarketsConserve(ds: seq<Decision>, tokens: seq<string>)
    requires Distinct(tokens) && forall t :: t in Tokens(ds) ==> t in tokens
    ensures SumOver(ds, tokens) == Accumulator(|ds|, |Trades(ds)|, Wins(Trades(ds)), Sum(Trades(ds)))
  {
    if ds == [] {
      NoDecisions(ds, tokens);
    } else {
      var before, d := ds[..|ds| - 1], ds[|ds| - 1];
      assert ds == before + [d];
      TokensExtend(before, d);
      MarketsConserve(before, tokens);
      OneMoreDecision(before, d, tokens);
      AccumulatorExtend(before, d);
    }
  }

  // ---- the Sharpe ratio ----

  function Square(x: real): real { x * x }

  function SquaredDeviations(pnls: seq<real>, mean: real): real {
    if pnls == [] then 0.0
    else SquaredDeviations(pnls[..|pnls| - 1], mean) + Square(pnls[|pnls| - 1] - mean)
  }

  function Mean(pnls: seq<real>): real
    requires pnls != []
  {
    Sum(pnls) / |pnls| as real
  }

  function Variance(pnls: seq<real>): real
    requires pnls != []
  {
    SquaredDeviations(pnls, Mean(pnls)) / |pnls| as real
  }

  function Sharpe(pnls: seq<real>, sqrt: real -> real): real {
    if |pnls| < 2 || Variance(pnls) <= 0.0 || sqrt(Variance(pnls)) == 0.0 then 0.0
    else Mean(pnls) / sqrt(Variance(pnls))
  }

  lemma {:induction false} DeviationsVanishIff(pnls: seq<real>, mean: real)
    ensures SquaredDeviations(pnls, mean) >= 0.0
    ensures SquaredDeviations(pnls, mean) == 0.0 <==> forall k :: 0 <= k < |pnls| ==> pnls[k] == mean
  {
    if pnls != [] {
      var n := |pnls| - 1;
      DeviationsVanishIff(pnls[..n], mean);
      SquareSign(pnls[n] - mean);
    }
  }

  lemma SquareSign(x: real)
    ensures Square(x) >= 0.0 && (Square(x) == 0.0 <==> x == 0.0)
  {
    if x > 0.0 {
      PositiveProduct(x, x, Square(x));
    } else if x < 0.0 {
      PositiveProduct(-x, -x, Square(x));
    }
  }

  lemma {:induction false} ConstantSum(pnls: seq<real>, c: real)
    requires forall k :: 0 <= k < |pnls| ==> pnls[k] == c
    ensures Sum(pnls) == |pnls| as real * c
  {
    if pnls != [] {
      ConstantSum(pnls[..|pnls| - 1], c);
    }
  }

  predicate AllAlike(pnls: seq<real>) { forall i, j :: 0 <= i < j < |pnls| ==> pnls[i] == pnls[j] }

  lemma VarianceVanishesIff(pnls: seq<real>)
    requires pnls != []
    ensures Variance(pnls) >= 0.0 && (Variance(pnls) == 0.0 <==> AllAlike(pnls))
  {
    DeviationsVanishIff(pnls, Mean(pnls));
    QuotientSign(SquaredDeviations(pnls, Mean(pnls)), |pnls| as real);
    if AllAlike(pnls) {
      ConstantSum(pnls, pnls[0]);
      assert Mean(pnls) == pnls[0];
    }
  }

  /** The ratio has the sign of the net profit, except that fewer than two trades, or trades all alike, give zero. */
  lemma SharpeSign(pnls: seq<real>, sqrt: real -> real)
    requires forall v :: v > 0.0 ==> sqrt(v) > 0.0 && sqrt(v) * sqrt(v) == v
    ensures Sharpe(pnls, sqrt) > 0.0 <==> |pnls| >= 2 && Sum(pnls) > 0.0 && !AllAlike(pnls)
    ensures Sharpe(pnls, sqrt) < 0.0 <==> |pnls| >= 2 && Sum(pnls) < 0.0 && !AllAlike(pnls)
  {
    if |pnls| >= 2 {
      VarianceVanishesIff(pnls);
      QuotientSign(Sum(pnls), |pnls| as real);
      if Variance(pnls) > 0.0 {
        QuotientSign(Mean(pnls), sqrt(Variance(pnls)));
      }
    }
  }

  // ---- the size of the ratio, without the mean and the variance ----

  predicate IsMagnitude(ratio: real, n: real, squares: real, sum: real) {
    n * squares - sum * sum > 0.0 && (ratio * ratio) * (n * squares - sum * sum) == sum * sum
  }

  /** The sum of squared deviations, multiplied out. */
  predicate MultipliesOut(deviations: real, squares: real, sum: real, n: real, mean: real) {
    deviations == squares - 2.0 * mean * sum + n * (mean * mean)
  }

  lemma DeviationOneMore(
      before: real, squares: real, sum: real, n: real, x: real, mean: real,
      after: real, moreSquares: real, moreSum: real, more: real)
    requires MultipliesOut(before, squares, sum, n, mean)
    requires after == before + Square(x - mean) && moreSquares == squares + Square(x)
    requires moreSum == sum + x && more == n + 1.0
    ensures MultipliesOut(after, moreSquares, moreSum, more, mean)
  {
    assert Square(x - mean) == Square(x) - 2.0 * mean * x + mean * mean;
  }

  lemma {:induction false} DeviationsExpand(pnls: seq<real>, mean: real)
    ensures MultipliesOut(SquaredDeviations(pnls, mean), Total(pnls, Square), Sum(pnls), |pnls| as real, mean)
  {
    if pnls != [] {
      var n := |pnls| - 1;
      DeviationsExpand(pnls[..n], mean);
      DeviationOneMore(
        SquaredDeviations(pnls[..n], mean), Total(pnls[..n], Square), Sum(pnls[..n]), |pnls[..n]| as real, pnls[n],
        mean, SquaredDeviations(pnls, mean), Total(pnls, Square), Sum(pnls), |pnls| as real);
    }
  }

  lemma ScaledDeviations(deviations: real, squares: real, sum: real, n: real, mean: real)
    requires mean * n == sum && MultipliesOut(deviations, squares, sum, n, mean)
    ensures n * deviations == n * squares - sum * sum
  {
    assert n * (mean * sum) == sum * sum;
    assert n * (n * (mean * mean)) == (mean * n) * (mean * n);
  }

  lemma RatioSquared(
      ratio: real, root: real, variance: real, deviations: real, mean: real, sum: real, n: real, squares: real)
    requires ratio * root == mean && root * root == variance && variance * n == deviations && mean * n == sum
    requires n * deviations == n * squares - sum * sum && n > 0.0 && deviations > 0.0
    ensures IsMagnitude(ratio, n, squares, sum)
  {
    PositiveProduct(n, deviations, n * squares - sum * sum);
    assert (ratio * root) * (ratio * root) == (ratio * ratio) * (root * root);
    assert (ratio * ratio) * variance == mean * mean;
    assert n * deviations == variance * (n * n);
    assert ((ratio * ratio) * variance) * (n * n) == (mean * n) * (mean * n);
  }

  predicate AreParts(pnls: seq<real>, n: real, ratio: real, root: real, mean: real, variance: real) {
    && ratio * root == mean && root * root == variance && mean * n == Sum(pnls)
    && variance * n == SquaredDeviations(pnls, mean) > 0.0
  }

  /** The ratio's parts, as products: its root, its mean and its variance. */
  lemma RatioParts(pnls: seq<real>, sqrt: real -> real) returns (root: real, mean: real, variance: real)
    requires forall v :: v > 0.0 ==> sqrt(v) > 0.0 && sqrt(v) * sqrt(v) == v
    requires |pnls| >= 2 && !AllAlike(pnls)
    ensures AreParts(pnls, |pnls| as real, Sharpe(pnls, sqrt), root, mean, variance)
  {
    VarianceVanishesIff(pnls);
    root, mean, variance := sqrt(Variance(pnls)), Mean(pnls), Variance(pnls);
    Quotient(Sum(pnls), |pnls| as real);
    Quotient(SquaredDeviations(pnls, mean), |pnls| as real);
    QuotientSign(SquaredDeviations(pnls, mean), |pnls| as real);
    Quotient(mean, root);
  }

  lemma MagnitudeOf(pnls: seq<real>, ratio: real, root: real, mean: real, variance: real, n: real)
    requires n == |pnls| as real > 0.0 && AreParts(pnls, n, ratio, root, mean, variance)
    ensures IsMagnitude(ratio, n, Total(pnls, Square), Sum(pnls))
  {
    var deviations, squares, sum := SquaredDeviations(pnls, mean), Total(pnls, Square), Sum(pnls);
    DeviationsExpand(pnls, mean);
    ScaledDeviations(deviations, squares, sum, n, mean);
    RatioSquared(ratio, root, variance, deviations, mean, sum, n, squares);
  }

  /**
   * With n trades of total s and sum of squares q, the squared ratio times n q - s s is s s: the sign
   * being that of s, this says which number the ratio is.
   */
  lemma SharpeMagnitude(pnls: seq<real>, sqrt: real -> real)
    requires forall v :: v > 0.0 ==> sqrt(v) > 0.0 && sqrt(v) * sqrt(v) == v
    requires |pnls| >= 2 && !AllAlike(pnls)
    ensures IsMagnitude(Sharpe(pnls, sqrt), |pnls| as real, Total(pnls, Square), Sum(pnls))
  {
    var root, mean, variance := RatioParts(pnls, sqrt);
    MagnitudeOf(pnls, Sharpe(pnls, sqrt), root, mean, variance, |pnls| as real);
  }
}
