/**
 * The terminal trade gate: four validators, run in order, that overwrite the
 * response they validate and finally reject an inconsistent one.
 */
module Gatekeeper {
  import opened Wrappers
  import opened Schemas
  import opened Reals
  import opened Kelly

  const MIN_CONFIDENCE := 0.75
  const MAX_SPREAD_PCT := 0.015
  const MAX_EXPOSURE_PCT := 0.03
  const MIN_EV_THRESHOLD := 0.02
  const MIN_TTR_HOURS := 4.0

  datatype Filter =
    | EV_NON_POSITIVE
    | MIN_CONFIDENCE_FILTER
    | MAX_SPREAD
    | MAX_EXPOSURE
    | MIN_EV_FILTER
    | MIN_TIME_TO_RESOLUTION

  datatype Audit = Audit(
    allFiltersPassed: bool,
    triggeredFilter: Option<Filter>,
    computedEv: real,
    computedKellyFull: real,
    computedKellyQuarter: real,
    computedSpreadPct: real,
    finalPositionSizePct: real,
    overrideApplied: bool)

  /** What the model said and what the market showed. */
  datatype Proposal = Proposal(
    pTrue: real,
    pMarket: real,
    bestBid: real,
    bestAsk: real,
    hoursToResolution: Option<real>,
    confidence: real,
    informationAsymmetry: bool,
    decision: bool,
    action: Action)

  /** The field constraints, and the bid-ask ordering check of the market context. */
  predicate WellFormed(p: Proposal) {
    && 0.01 <= p.pTrue <= 0.99 && 0.0 < p.pMarket < 1.0
    && 0.0 < p.bestBid < 1.0 && 0.0 < p.bestAsk < 1.0 && p.bestBid <= p.bestAsk
    && 0.0 <= p.confidence <= 1.0
  }

  function SpreadPct(p: Proposal): real
    requires WellFormed(p)
  {
    (p.bestAsk - p.bestBid) / p.bestAsk
  }

  /** The spread filter, without the division: the bid is more than 1.5% below the ask. */
  lemma SpreadTooWide(p: Proposal)
    requires WellFormed(p)
    ensures Fails(p, MAX_SPREAD) <==> p.bestBid < (1.0 - MAX_SPREAD_PCT) * p.bestAsk
  {
    Quotient(p.bestAsk - p.bestBid, p.bestAsk);
    SpreadWithoutDivision(SpreadPct(p), p.bestBid, p.bestAsk);
  }

  lemma SpreadWithoutDivision(spread: real, bid: real, ask: real)
    requires ask > 0.0 && spread * ask == ask - bid
    ensures spread > MAX_SPREAD_PCT <==> bid < (1.0 - MAX_SPREAD_PCT) * ask
  {
    LeqByFactor(spread, MAX_SPREAD_PCT, ask);
  }

  /** The rounded expected value the filters look at. */
  function Ev(p: Proposal): real
    requires WellFormed(p)
  {
    Round6(Edge(p.pTrue, NetOdds(p.pMarket)))
  }

  function KellyOf(p: Proposal): real
    requires WellFormed(p)
  {
    NetOddsPositive(p.pMarket);
    FullKelly(p.pTrue, NetOdds(p.pMarket))
  }

  function Fails(p: Proposal, f: Filter): bool
    requires WellFormed(p)
  {
    match f
    case EV_NON_POSITIVE => Ev(p) <= 0.0
    case MIN_EV_FILTER => Ev(p) < MIN_EV_THRESHOLD
    case MIN_CONFIDENCE_FILTER => p.confidence < MIN_CONFIDENCE
    case MAX_SPREAD => SpreadPct(p) > MAX_SPREAD_PCT
    case MIN_TIME_TO_RESOLUTION => p.hoursToResolution.Some? && p.hoursToResolution.value < MIN_TTR_HOURS
    case MAX_EXPOSURE => false
  }

  /** The order in which the filters are tried. */
  const ORDER := [EV_NON_POSITIVE, MIN_EV_FILTER, MIN_CONFIDENCE_FILTER, MAX_SPREAD, MIN_TIME_TO_RESOLUTION]

  predicate Passes(p: Proposal)
    requires WellFormed(p)
  {
    forall f :: !Fails(p, f)
  }

  /** f is the filter reported: it fails and no filter tried before it does. */
  ghost predicate FirstFailing(p: Proposal, f: Filter)
    requires WellFormed(p)
  {
    exists i :: 0 <= i < |ORDER| && ORDER[i] == f && Fails(p, f) && forall j :: 0 <= j < i ==> !Fails(p, ORDER[j])
  }

  /** Rounded quarter-Kelly, halved under information asymmetry once the filters passed. */
  function Stake(p: Proposal): real
    requires WellFormed(p)
  {
    var quarter := Round6(KELLY_FRACTION * KellyOf(p));
    if p.informationAsymmetry && Passes(p) then quarter * 0.5 else quarter
  }

  /** The position a proposal ends with. */
  function Position(p: Proposal): real
    requires WellFormed(p)
  {
    if !Passes(p) then 0.0 else if Stake(p) <= MAX_EXPOSURE_PCT then Stake(p) else MAX_EXPOSURE_PCT
  }

  predicate WantsTrade(p: Proposal) { p.decision || p.action != HOLD }

  /** Every field of the audit that goes with a proposal, except whether a trade was overridden. */
  ghost predicate Figures(p: Proposal, a: Audit)
    requires WellFormed(p)
  {
    && a.allFiltersPassed == Passes(p) && a.triggeredFilter.Some? == !Passes(p)
    && (a.triggeredFilter.Some? ==> FirstFailing(p, a.triggeredFilter.value))
    && a.computedEv == Ev(p) && a.computedKellyFull == Round6(KellyOf(p))
    && a.computedKellyQuarter == Round6(Stake(p)) && a.computedSpreadPct == Round6(SpreadPct(p))
    && a.finalPositionSizePct == Round6(Position(p))
  }

  /** The whole audit a proposal ends with. */
  ghost predicate AuditFor(p: Proposal, a: Audit)
    requires WellFormed(p)
  {
    Figures(p, a) && a.overrideApplied == (!Passes(p) && WantsTrade(p))
  }

  lemma FirstFailingUnique(p: Proposal, f: Filter, g: Filter)
    requires WellFormed(p) && FirstFailing(p, f) && FirstFailing(p, g)
    ensures f == g
  {
    var i :| 0 <= i < |ORDER| && ORDER[i] == f && Fails(p, f) && forall j :: 0 <= j < i ==> !Fails(p, ORDER[j]);
    var k :| 0 <= k < |ORDER| && ORDER[k] == g && Fails(p, g) && forall j :: 0 <= j < k ==> !Fails(p, ORDER[j]);
    assert !(i < k) && !(k < i);
  }

  /** The proposal alone determines the audit. */
  lemma AuditUnique(p: Proposal, a: Audit, b: Audit)
    requires WellFormed(p)
    ensures AuditFor(p, a) && AuditFor(p, b) ==> a == b
  {
    if AuditFor(p, a) && AuditFor(p, b) && !Passes(p) {
      FirstFailingUnique(p, a.triggeredFilter.value, b.triggeredFilter.value);
    }
  }

  /** No final check raises. */
  predicate Constructible(p: Proposal)
    requires WellFormed(p)
  {
    !Passes(p) || (p.decision && p.action != HOLD)
  }

  /** A proposal that passes every filter and says HOLD. */
  const PASSING_HOLD := Proposal(0.6, 0.5, 0.49, 0.495, None, 0.8, false, false, HOLD)

  /** The final checks are marked as guards against impossible states; such a proposal reaches one and raises. */
  lemma PassingHoldIsRejected()
    ensures WellFormed(PASSING_HOLD) && Passes(PASSING_HOLD) && !Constructible(PASSING_HOLD)
  {
    var p := PASSING_HOLD;
    assert NetOdds(p.pMarket) == 1.0;
    assert Edge(p.pTrue, 1.0) == 0.2;
    RoundFixes(200000);
    SpreadTooWide(p);
    forall f
      ensures !Fails(p, f)
    {
    }
  }

  class EvaluationResponse {
    const proposal: Proposal
    const estimate: Estimate
    var decision: bool
    var action: Action
    var expectedValue: real
    var positionSizePct: real
    var audit: Option<Audit>

    /** The last three arguments are whatever the caller supplied. */
    constructor (
        proposal: Proposal, estimate: Estimate, expectedValue: real, positionSizePct: real, audit: Option<Audit>)
      ensures this.proposal == proposal && this.estimate == estimate
      ensures decision == proposal.decision && action == proposal.action
    {
      this.proposal, this.estimate := proposal, estimate;
      decision, action := proposal.decision, proposal.action;
      this.expectedValue, this.positionSizePct, this.audit := expectedValue, positionSizePct, audit;
    }

    /** The estimate is the one computed from the proposal's two probabilities. */
    predicate Estimated()
      reads this
    {
      && WellFormed(proposal)
      && estimate.expectedValue == Ev(proposal)
      && estimate.kellyFull == Round6(KellyOf(proposal))
      && estimate.kellyQuarter == Round6(KELLY_FRACTION * KellyOf(proposal))
    }

    /** All fields are what the proposal calls for. */
    ghost predicate Settled()
      reads this
    {
      && WellFormed(proposal)
      && expectedValue == Ev(proposal) && positionSizePct == Position(proposal)
      && decision == (Passes(proposal) && proposal.decision)
      && action == (if Passes(proposal) then proposal.action else HOLD)
      && audit.Some? && AuditFor(proposal, audit.value)
    }

    method ComputeEvAndKelly()
      requires Estimated()
      modifies this`expectedValue
      ensures expectedValue == Ev(proposal)
    {
      expectedValue := estimate.expectedValue;
    }

    /** The exposure limit clips the position and is never the filter reported. */
    method ApplyGatekeeperFilters()
      requires Estimated()
      modifies this`audit, this`positionSizePct
      ensures positionSizePct == Position(proposal)
      ensures audit.Some? && Figures(proposal, audit.value) && !audit.value.overrideApplied
      ensures audit.value.triggeredFilter != Some(MAX_EXPOSURE)
      ensures positionSizePct <= MAX_EXPOSURE_PCT
    {
      var ev, kellyQ := estimate.expectedValue, estimate.kellyQuarter;
      var spread := SpreadPct(proposal);
      var ttr := proposal.hoursToResolution;
      var triggered: Option<Filter> := None;
      var allPassed := true;
      if ev <= 0.0 {
        triggered, allPassed := Some(EV_NON_POSITIVE), false;
      } else if ev < MIN_EV_THRESHOLD {
        triggered, allPassed := Some(MIN_EV_FILTER), false;
      } else if proposal.confidence < MIN_CONFIDENCE {
        triggered, allPassed := Some(MIN_CONFIDENCE_FILTER), false;
      } else if spread > MAX_SPREAD_PCT {
        triggered, allPassed := Some(MAX_SPREAD), false;
      } else if ttr.Some? && ttr.value < MIN_TTR_HOURS {
        triggered, allPassed := Some(MIN_TIME_TO_RESOLUTION), false;
      }
      Verdict(proposal, allPassed, triggered);
      if proposal.informationAsymmetry && allPassed {
        kellyQ := kellyQ * 0.5;
      }
      var position := if allPassed then (if kellyQ <= MAX_EXPOSURE_PCT then kellyQ else MAX_EXPOSURE_PCT) else 0.0;
      if allPassed {
        PassingPositionPositive(proposal);
      }
      position := if position > 0.0 then position else 0.0;
      RoundTwice(Edge(proposal.pTrue, NetOdds(proposal.pMarket)));
      RoundTwice(KellyOf(proposal));
      audit := Some(Audit(allPassed, triggered, Round6(ev), Round6(estimate.kellyFull), Round6(kellyQ),
                          Round6(spread), Round6(position), false));
      positionSizePct := position;
    }

    method EnforceDecisionOverride()
      requires audit.Some? && WellFormed(proposal)
      requires audit.value.allFiltersPassed == Passes(proposal) && positionSizePct == Position(proposal)
      requires decision == proposal.decision && action == proposal.action
      modifies this`decision, this`action, this`positionSizePct, this`audit
      ensures Passes(proposal) ==>
                && decision == proposal.decision && action == proposal.action
                && positionSizePct == Position(proposal) && audit == old(audit)
      ensures !Passes(proposal) ==>
                && !decision && action == HOLD && positionSizePct == 0.0
                && audit == Some(old(audit).value.(
                                   finalPositionSizePct := 0.0, overrideApplied := WantsTrade(proposal)))
    {
      var wanted := decision || action != HOLD;
      var shouldHold := !audit.value.allFiltersPassed || positionSizePct == 0.0;
      if Passes(proposal) {
        PassingPositionPositive(proposal);
      }
      if shouldHold {
        audit := Some(audit.value.(finalPositionSizePct := 0.0, overrideApplied := wanted));
        decision, action, positionSizePct := false, HOLD, 0.0;
      }
    }

    /** False when a final consistency check would raise. */
    method ValidateFinalConsistency() returns (ok: bool)
      ensures ok == !( (decision && action == HOLD)
                       || (!decision && positionSizePct > 0.0)
                       || (decision && expectedValue <= 0.0))
    {
      if decision && action == HOLD {
        return false;
      }
      if !decision && positionSizePct > 0.0 {
        return false;
      }
      if decision && expectedValue <= 0.0 {
        return false;
      }
      ok := true;
    }

    /**
     * All four validators.  A response comes out exactly when a filter fails or the model asked for a
     * trade with both of its fields, and then decision, action, filters and size agree.
     */
    method Validate() returns (constructed: bool)
      requires Estimated() && decision == proposal.decision && action == proposal.action
      modifies this
      ensures constructed <==> Constructible(proposal)
      ensures constructed ==>
                && (decision <==> action != HOLD)
                && (decision <==> Passes(proposal))
                && (decision <==> positionSizePct > 0.0)
                && positionSizePct <= MAX_EXPOSURE_PCT
      ensures Settled()
    {
      ComputeEvAndKelly();
      ApplyGatekeeperFilters();
      EnforceDecisionOverride();
      if Passes(proposal) {
        PassingPositionPositive(proposal);
        assert !Fails(proposal, EV_NON_POSITIVE);
      } else {
        RoundFixes(0);
      }
      constructed := ValidateFinalConsistency();
    }

    /**
     * From raw input to a response: the estimate's validator, then the response's.  The caller may
     * supply any value for the seven computed fields; everything that comes out is what the proposal
     * alone calls for.
     */
    static method Construct(
        p: Proposal, supplied: Estimate, expectedValue: real, positionSizePct: real, audit: Option<Audit>)
      returns (r: EvaluationResponse, constructed: bool)
      requires WellFormed(p)
      ensures fresh(r) && r.proposal == p && r.Settled()
      ensures r.estimate.expectedValue == Ev(p) && r.estimate.kellyFull == Round6(KellyOf(p))
      ensures r.estimate.kellyQuarter == Round6(KELLY_FRACTION * KellyOf(p))
      ensures r.estimate.netOddsB == Round6(NetOdds(p.pMarket))
      ensures constructed <==> Constructible(p)
      ensures constructed ==>
                && (r.decision <==> r.action != HOLD)
                && (r.decision <==> Passes(p))
                && (r.decision <==> r.positionSizePct > 0.0)
    {
      var estimate := ComputeKellyAndEv(p.pTrue, p.pMarket, supplied);
      r := new EvaluationResponse(p, estimate, expectedValue, positionSizePct, audit);
      constructed := r.Validate();
    }
  }

  /** The if-elif chain reports the first failing filter, and nothing exactly when all pass. */
  lemma Verdict(p: Proposal, allPassed: bool, triggered: Option<Filter>)
    requires WellFormed(p) && allPassed == triggered.None?
    requires triggered ==
             if Fails(p, EV_NON_POSITIVE) then Some(EV_NON_POSITIVE)
             else if Fails(p, MIN_EV_FILTER) then Some(MIN_EV_FILTER)
             else if Fails(p, MIN_CONFIDENCE_FILTER) then Some(MIN_CONFIDENCE_FILTER)
             else if Fails(p, MAX_SPREAD) then Some(MAX_SPREAD)
             else if Fails(p, MIN_TIME_TO_RESOLUTION) then Some(MIN_TIME_TO_RESOLUTION)
             else None
    ensures allPassed == Passes(p)
    ensures triggered.Some? ==> FirstFailing(p, triggered.value)
  {
    if triggered.Some? {
      var i := if triggered.value == EV_NON_POSITIVE then 0 else if triggered.value == MIN_EV_FILTER then 1
               else if triggered.value == MIN_CONFIDENCE_FILTER then 2
               else if triggered.value == MAX_SPREAD then 3 else 4;
      assert ORDER[i] == triggered.value;
      assert !Passes(p);
    }
  }

  /** Odds and edge bound the stake from below: an edge of about two percent cannot round away. */
  lemma EdgeForcesStake(p: real, b: real, edge: real, f: real)
    requires p >= 0.01 && b > 0.0 && edge == Edge(p, b) && edge >= 0.0199995 && f * b == edge
    ensures f >= 0.00019
  {
    assert p * b + p == 1.0 + edge;
    assert p * (b + 1.0) == 1.0 + edge;
    ScaleLeq(0.01, p, b + 1.0);
    assert b <= 99.0 + 100.0 * edge;
    assert 0.00019 * b <= 0.00019 * (99.0 + 100.0 * edge) <= f * b;
    LeqByFactor(0.00019, f, b);
  }

  /** Passing every filter forces a strictly positive position of at most three percent. */
  lemma PassingPositionPositive(p: Proposal)
    requires WellFormed(p) && Passes(p)
    ensures 0.0000235 <= Position(p) <= MAX_EXPOSURE_PCT
  {
    assert !Fails(p, MIN_EV_FILTER);
    var b := NetOdds(p.pMarket);
    NetOddsPositive(p.pMarket);
    var edge := Edge(p.pTrue, b);
    RoundError(edge);
    KellyIsEdgeOverOdds(p.pTrue, b);
    EdgeForcesStake(p.pTrue, b, edge, KellyOf(p));
    RoundError(KELLY_FRACTION * KellyOf(p));
  }

  lemma KellyIsEdgeOverOdds(p: real, b: real)
    requires b > 0.0 && Edge(p, b) > 0.0
    ensures FullKelly(p, b) * b == Edge(p, b)
  {
    assert b * p - (1.0 - p) == Edge(p, b);
    Quotient(Edge(p, b), b);
  }

  // ---- the gate in terms of the proposal's own figures ----

  /** A rounded figure reaches a multiple of 1e-6 from half a unit below it; an even one takes the tie. */
  lemma RoundsTo(x: real, even: int)
    requires even % 2 == 0
    ensures Round6(x) >= even as real / 1000000.0 <==> x >= (even as real - 0.5) / 1000000.0
    ensures Round6(x) <= even as real / 1000000.0 <==> x <= (even as real + 0.5) / 1000000.0
  {
    NearestReaches(x * SCALE, even);
  }

  lemma NearestReaches(z: real, even: int)
    requires even % 2 == 0
    ensures Nearest(z) >= even <==> z >= even as real - 0.5
    ensures Nearest(z) <= even <==> z <= even as real + 0.5
  {
    if z.Floor < even - 1 || z.Floor > even {
    } else if z.Floor == even - 1 {
      assert z.Floor % 2 == 1;
    }
  }

  lemma ThresholdInPrices(excess: real, price: real, t: real)
    requires price > 0.0
    ensures excess / price >= t <==> excess >= t * price
    ensures excess / price <= t <==> excess <= t * price
  {
    Quotient(excess, price);
    LeqByFactor(t, excess / price, price);
    LeqByFactor(excess / price, t, price);
  }

  lemma EvThresholds(p: Proposal)
    requires WellFormed(p)
    ensures Ev(p) >= 0.02 <==> p.pTrue - p.pMarket >= 0.0199995 * p.pMarket
    ensures Ev(p) <= 0.0 <==> p.pTrue - p.pMarket <= 0.0000005 * p.pMarket
  {
    var ev := (p.pTrue - p.pMarket) / p.pMarket;
    EdgeInPrices(p.pTrue, p.pMarket);
    RoundsTo(ev, 20000);
    RoundsTo(ev, 0);
    ThresholdInPrices(p.pTrue - p.pMarket, p.pMarket, 0.0199995);
    ThresholdInPrices(p.pTrue - p.pMarket, p.pMarket, 0.0000005);
  }

  /** The resolution is near. */
  predicate Closing(p: Proposal) { p.hoursToResolution.Some? && p.hoursToResolution.value < 4.0 }

  /** A proposal passes exactly when its probability, confidence, quotes and horizon all reach their limits. */
  lemma PassesIff(p: Proposal)
    requires WellFormed(p)
    ensures Passes(p) <==>
              && p.pTrue - p.pMarket >= 0.0199995 * p.pMarket
              && p.confidence >= 0.75 && p.bestBid >= 0.985 * p.bestAsk && !Closing(p)
  {
    EvThresholds(p);
    SpreadTooWide(p);
    assert Passes(p) ==>
        !Fails(p, MIN_EV_FILTER) && !Fails(p, MIN_CONFIDENCE_FILTER) && !Fails(p, MAX_SPREAD)
        && !Fails(p, MIN_TIME_TO_RESOLUTION);
  }

  /** Which filter the audit names, first come first named, and when it records that a trade was overridden. */
  lemma FilterReported(p: Proposal, a: Audit)
    requires WellFormed(p) && AuditFor(p, a)
    ensures a.triggeredFilter
         == if p.pTrue - p.pMarket <= 0.0000005 * p.pMarket then Some(EV_NON_POSITIVE)
            else if p.pTrue - p.pMarket < 0.0199995 * p.pMarket then Some(MIN_EV_FILTER)
            else if p.confidence < 0.75 then Some(MIN_CONFIDENCE_FILTER)
            else if p.bestBid < 0.985 * p.bestAsk then Some(MAX_SPREAD)
            else if Closing(p) then Some(MIN_TIME_TO_RESOLUTION)
            else None
    ensures a.allFiltersPassed <==> a.triggeredFilter.None?
    ensures a.overrideApplied <==> a.triggeredFilter.Some? && (p.decision || p.action != HOLD)
  {
    EvThresholds(p);
    SpreadTooWide(p);
    var expected := if Fails(p, EV_NON_POSITIVE) then Some(EV_NON_POSITIVE)
                    else if Fails(p, MIN_EV_FILTER) then Some(MIN_EV_FILTER)
                    else if Fails(p, MIN_CONFIDENCE_FILTER) then Some(MIN_CONFIDENCE_FILTER)
                    else if Fails(p, MAX_SPREAD) then Some(MAX_SPREAD)
                    else if Fails(p, MIN_TIME_TO_RESOLUTION) then Some(MIN_TIME_TO_RESOLUTION)
                    else None;
    Verdict(p, expected.None?, expected);
    if expected.Some? {
      FirstFailingUnique(p, expected.value, a.triggeredFilter.value);
    }
  }

  /** The unrounded full stake, from the two probabilities alone. */
  function FullStake(p: Proposal): real
    requires WellFormed(p)
  {
    (if p.pTrue > p.pMarket then p.pTrue - p.pMarket else 0.0) / (1.0 - p.pMarket)
  }

  function Smaller(x: real, y: real): real { if x <= y then x else y }

  /** The figures of the audit, each within half a unit of the sixth place of what it stands for. */
  lemma AuditFigures(p: Proposal, a: Audit)
    requires WellFormed(p) && AuditFor(p, a)
    ensures Near(a.computedEv, (p.pTrue - p.pMarket) / p.pMarket)
    ensures Near(a.computedSpreadPct, (p.bestAsk - p.bestBid) / p.bestAsk)
    ensures Near(a.computedKellyFull, FullStake(p))
    ensures !(a.allFiltersPassed && p.informationAsymmetry) ==> Near(a.computedKellyQuarter, 0.25 * FullStake(p))
    ensures Near(a.finalPositionSizePct, Position(p))
  {
    EdgeInPrices(p.pTrue, p.pMarket);
    StakeFigures(p);
    RoundError((p.pTrue - p.pMarket) / p.pMarket);
    RoundError(SpreadPct(p));
    RoundError(Position(p));
    RoundTwice(0.25 * FullStake(p));
  }

  lemma StakeFigures(p: Proposal)
    requires WellFormed(p)
    ensures KellyOf(p) == FullStake(p)
    ensures Near(Round6(FullStake(p)), FullStake(p)) && Near(Round6(0.25 * FullStake(p)), 0.25 * FullStake(p))
  {
    OddsOfPrice(p.pMarket);
    StakeInPrices(p.pTrue, p.pMarket);
    RoundError(FullStake(p));
    RoundError(0.25 * FullStake(p));
  }

  /** A proposal that passes stakes a quarter of the full stake, rounded, or half of that under asymmetry. */
  lemma PassingPosition(p: Proposal)
    requires WellFormed(p) && Passes(p)
    ensures var quarter := Round6(0.25 * FullStake(p));
            Position(p) == Smaller(if p.informationAsymmetry then quarter / 2.0 else quarter, 0.03)
  {
    StakeFigures(p);
  }

  /** What no filter looks at. */
  predicate DifferInFlag(p: Proposal, q: Proposal) { p.(informationAsymmetry := q.informationAsymmetry) == q }

  lemma SameFilters(p: Proposal, q: Proposal)
    requires WellFormed(p) && DifferInFlag(p, q)
    ensures Passes(p) <==> Passes(q)
    ensures forall g :: FirstFailing(p, g) <==> FirstFailing(q, g)
    ensures forall a :: !Passes(p) ==> (AuditFor(p, a) <==> AuditFor(q, a))
    ensures KellyOf(p) == KellyOf(q)
  {
    assert forall g :: Fails(p, g) <==> Fails(q, g);
  }

  /**
   * The asymmetry flag decides no filter.  When all pass it halves the quarter stake before the limit
   * applies, so the position is half the unflagged one unless that one was clipped; when one fails it
   * changes nothing.
   */
  lemma AsymmetryHalves(calm: Proposal, flagged: Proposal)
    requires WellFormed(calm) && DifferInFlag(calm, flagged)
    requires !calm.informationAsymmetry && flagged.informationAsymmetry
    ensures Passes(calm) <==> Passes(flagged)
    ensures var quarter := Round6(0.25 * FullStake(calm));
            Passes(calm) ==>
              && Position(flagged) == Smaller(quarter / 2.0, 0.03)
              && (quarter <= 0.03 ==> 2.0 * Position(flagged) == Position(calm))
    ensures !Passes(calm) ==>
              Position(calm) == Position(flagged) == 0.0 && forall a :: AuditFor(calm, a) <==> AuditFor(flagged, a)
  {
    SameFilters(calm, flagged);
    assert FullStake(calm) == FullStake(flagged);
    if Passes(calm) {
      PassingPosition(calm);
      PassingPosition(flagged);
    }
  }

  /** The audits name the same filter, and the quarter stake recorded under the flag is the halved one. */
  lemma AsymmetryInAudit(calm: Proposal, flagged: Proposal, a: Audit, b: Audit)
    requires WellFormed(calm) && DifferInFlag(calm, flagged)
    requires !calm.informationAsymmetry && flagged.informationAsymmetry
    requires AuditFor(calm, a) && AuditFor(flagged, b)
    ensures a.triggeredFilter == b.triggeredFilter
    ensures a.allFiltersPassed ==> b.computedKellyQuarter == Round6(a.computedKellyQuarter / 2.0)
    ensures !a.allFiltersPassed ==> a == b
  {
    SameFilters(calm, flagged);
    if Passes(calm) {
      HalvedStake(calm, flagged);
    } else {
      AuditUnique(calm, a, b);
    }
  }

  lemma HalvedStake(calm: Proposal, flagged: Proposal)
    requires WellFormed(calm) && DifferInFlag(calm, flagged)
    requires !calm.informationAsymmetry && flagged.informationAsymmetry
    requires Passes(calm) && Passes(flagged) && KellyOf(calm) == KellyOf(flagged)
    ensures Round6(Stake(flagged)) == Round6(Round6(Stake(calm)) / 2.0)
  {
    RoundTwice(KELLY_FRACTION * KellyOf(calm));
  }
}
