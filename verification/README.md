# Verified model of the trading agent's bookkeeping

This project models the parts of the agent that keep unbounded state or do real
arithmetic, in Dafny 4.11, and proves what they promise. `dafny verify dfyconfig.toml`
checks all of it.

| files | what they model |
|---|---|
| `EventBus.dfy`, `EventBusRuns.dfy` | the bounded operational event bus: overflow policies, in-place drains, batched flushing, and every interleaving of its operations |
| `MetricLabels.dfy`, `Exposition.dfy`, `ExpositionParser.dfy`, `ExpositionGrammar.dfy`, `ExpositionRoundTrip.dfy`, `MetricsRegistry.dfy` | the metrics store, its text rendering, the audit's parser of that text and the languages its patterns accept |
| `Kelly.dfy`, `Gatekeeper.dfy` | position sizing and the four validators of the terminal trade gate |
| `BacktestData.dfy`, `HistoricalDataset.dfy`, `DatasetRoundTrip.dfy`, `DatasetQuotes.dfy` | the dataset builder, the loader that reads its files, and what comes through from fetch to replay |
| `BacktestRunner.dfy`, `LiveReadiness.dfy`, `ValidationReport.dfy` | the replay loop, the readiness verdict and the validation report |
| `RunLifecycle.dfy` | the daily digest's reconstruction of runs |
| `MarketRouting.dfy`, `EventThrottle.dfy`, `OperationalAlerts.dfy` | routing tables, the durable-event throttle, sustained alerts |
| `Text.dfy`, `Sorting.dfy`, `Sequences.dfy`, `Reals.dfy`, `Schemas.dfy`, `Wrappers.dfy` | shared string, sorting, sequence and arithmetic facts, enumerations and result shapes |

Code that works by updating fields or accumulating in a loop is a class or a method
here, proved against a specification function or predicate; the properties are lemmas
about that specification. Time is an integer, `Decimal` and `float` money and
probabilities are exact reals, and `round(x, 6)` is rounding to the nearest multiple of
1e-6 with ties to even.

Where the code and its documentation disagree, the model follows the code; one lemma
gives the exact condition and another an input that fails:

* An overflow is documented to give up a diagnostic event first. It does so exactly
  when the diagnostic counter is positive or the chosen victim happens to be one
  (`DiagnosticSparedIff`); at every queue size the counter can lose track
  (`CounterCanHideDiagnostic`), because an INFO event that takes the place of a popped one is
  stored uncounted; until that first happens the counter is exact and a diagnostic event does
  go first (`CounterExact`, `DiagnosticFirst`).
* The dropped total counts every loss of a run exactly when no event that may evict
  others (under the drop-oldest policy any, otherwise a critical one) is offered to a
  full queue of critical events (`DroppedTotalExact`, `RefusalGoesUncounted`).
* A label set survives serialization exactly when no key has an equals sign or comma
  and no value has a comma (`SerializeRoundTripIff`, `CommaDoesNotComeBack`).
* Label values are printed without escaping, so a rendered text is read back exactly when no
  value holds a quote, a closing brace or a line break and no metric name exceeds the parsed
  sample's limit of 256 characters, beyond which the parser raises (`RoundTripIff`,
  `PrintParseRoundTrip`, `QuoteDoesNotComeBack`).
* A token of an accepted market reaches it exactly when the market's first token is not
  the empty string and no later routed market uses the token's string as its condition id
  (`TokenRoutedIff`, `EmptyFirstTokenUnrouted`, `LaterConditionTakesToken`); a market skipped
  for a token collision stays in the active list (`SkippedStayActive`,
  `CollisionKeepsBothListed`).
* Under a date window, every snapshot built is read back exactly when no token id has a line
  feed and every instant lies in the window (`NothingLostIff`, `LineFeedLosesSnapshot`).
* A critical event on board a failed flush is signalled; one lost in a silent run went down
  with a cancelled flush (`LossIsSignalled`, `SilentLossIsCancelled`,
  `CancelledLossIsSilent`).
* The final checks of a response are marked as guards against bugs, but a proposal that passes
  every filter and says HOLD is rejected by them (`Validate`, `PassingHoldIsRejected`).
* The exposure limit is listed as a filter but only ever clips (`ApplyGatekeeperFilters`).
* A confidence on an interior bucket edge is counted in two buckets (`TableCounts`,
  `EdgeCountedTwice`).

## Model

| member | source | states |
|---|---|---|
| `EventBus.OperationalEventBus.Publish` | src/observability/operational_event_bus.py:91-109 | one publish: the queue is the old one plus the event, or the old one minus exactly the victim plus the event, or unchanged; result, counters, callback and capacity follow |
| `EventBus.OperationalEventBus.HandleOverflow` | src/observability/operational_event_bus.py:183-213 | the three policies amount to one choice of victim; the diagnostic path stores the event without counting it |
| `EventBus.OperationalEventBus.PopDiagnostic` | src/observability/operational_event_bus.py:321-354 | the scan removes the oldest INFO event when the counter is positive and one is queued, and otherwise leaves everything as it was |
| `EventBus.OperationalEventBus.DropOldestNonCritical` | src/observability/operational_event_bus.py:223-245 | drain and re-enqueue remove exactly the oldest non-critical event and keep the order of the rest; the queue-full branch is dead |
| `EventBus.OperationalEventBus.Requeue` | src/observability/operational_event_bus.py:241-245 | re-enqueueing what was drained always fits and restores the order |
| `EventBus.OperationalEventBus.OverflowDropOldestSafe` | src/observability/operational_event_bus.py:215-278 | evicts or refuses, with the callback on a refused critical event; the final queue-full branch is dead |
| `EventBus.OperationalEventBus.OverflowDropNewest` | src/observability/operational_event_bus.py:280-304 | a critical event makes room, any other is refused and counted |
| `EventBus.OperationalEventBus.OverflowReject` | src/observability/operational_event_bus.py:306-319 | refuses and counts; it is never reached with a critical event |
| `EventBus.OperationalEventBus.TakeBatch` | src/observability/operational_event_bus.py:372-386 | the batch is the oldest events, at most a batch size of them, and batch plus queue is the old queue |
| `EventBusRuns.SignalsExact` | src/observability/operational_event_bus.py:413-510 | over any run the failure callback fires once for every refused critical event and once for every flush that failed, wholly or in part, with one on board |
| `EventBusRuns.SilentIff` | src/observability/operational_event_bus.py:431-503 | no callback exactly when no critical event was refused and every flush that carried one succeeded in full or was cancelled, early or late |
| `EventBusRuns.LossIsSignalled` | src/observability/operational_event_bus.py:431-503 | a critical event on board a flush that failed, wholly or in part, and was not cancelled makes the callback fire, whatever happened to other flushes |
| `EventBusRuns.SilentLossIsCancelled` | src/observability/operational_event_bus.py:467-503 | a critical event lost in a run in which the callback never fired went down with a cancelled flush |
| `EventBusRuns.CancelledLossIsSilent` | src/observability/operational_event_bus.py:467 | a cancelled flush does lose a critical event without a signal |
| `EventBusRuns.QuietCounterIsZero` | src/observability/operational_event_bus.py:429 | when nothing is left queued or in flight and no batch was lost, a successful flush leaves the diagnostic counter at exactly zero |
| `EventBus.OperationalEventBus.FlushPending` | src/observability/operational_event_bus.py:512-515 | the shutdown drain hands over the whole queue in order and ends in ceil(size/batch) rounds whatever the persists do, unless one is cancelled |
| `EventBus.RoundsCeiling` | src/observability/operational_event_bus.py:512-515 | the number of batches taken is the size divided by the batch size, rounded up |
| `EventBusRuns.EveryRun` | src/observability/operational_event_bus.py:91-109 | after any interleaving of publishes, takes and completions: order, safety of critical events, accounting, capacity, and a bound on the diagnostic counter |
| `EventBusRuns.TakenThenQueuedInOrder` | src/observability/operational_event_bus.py:372-394 | batches taken, then the queue, are an in-order subsequence of the events offered |
| `EventBusRuns.LogStep` | src/observability/operational_event_bus.py:183-354 | each single step keeps order, critical safety (the critical events kept are exactly those accepted) and the accounting |
| `EventBusRuns.OfferShape` | src/observability/operational_event_bus.py:183-354 | an offer appends, replaces one non-critical event, or refuses; nothing else |
| `EventBusRuns.CounterStep` | src/observability/operational_event_bus.py:321-354 | each step keeps the diagnostic counter at or below the INFO events queued, in flight or lost |
| `EventBusRuns.CounterFloor` | src/observability/operational_event_bus.py:262-263 | over any run the counter covers every INFO event queued, in flight or lost, but for as many as took the place of an INFO event that the scan popped |
| `EventBusRuns.CounterExact` | src/observability/operational_event_bus.py:188-213 | until an INFO event takes a popped one's place, the counter is exactly the INFO events queued, in flight or lost with a failed flush |
| `EventBusRuns.DiagnosticFirst` | src/observability/operational_event_bus.py:188-205 | until then a full queue holding an INFO event gives up its oldest one, whatever the policy and whoever comes |
| `EventBusRuns.PolicyDecides` | src/observability/operational_event_bus.py:207-213 | when the scan finds nothing, an INFO or WARNING event gets in iff the policy is drop-oldest and one of its kind is queued |
| `EventBusRuns.OldestMakesWay` | src/observability/operational_event_bus.py:223-263 | then it is the oldest INFO or WARNING event that goes, and the new event is last in the queue |
| `EventBusRuns.CriticalKept` | src/observability/operational_event_bus.py:183-319 | over any run each CRITICAL or ERROR event is in the queue or in a batch taken exactly as often as it was accepted |
| `EventBusRuns.OverflowedIff` | src/observability/operational_event_bus.py:206-319 | the overflow flag is up iff some event of the run was evicted or refused |
| `EventBusRuns.DroppedTotalExact` | src/observability/operational_event_bus.py:247-257 | offered = queued + taken + evicted + refused; the dropped total never exceeds the losses, and equals them exactly when no offer of the run hits the wall (an event that may evict, a full queue, nothing but critical events in it) |
| `EventBusRuns.OfferCountedIff` | src/observability/operational_event_bus.py:215-319 | one offer adds all it loses to the dropped total exactly when it does not hit the wall |
| `EventBusRuns.RefusalGoesUncounted` | src/observability/operational_event_bus.py:247-257 | at any queue size, a queue filled with critical events refuses one more without counting it |
| `EventBusRuns.CriticalRefusedIff` | src/observability/operational_event_bus.py:183-213 | under every policy a CRITICAL or ERROR event is refused iff the queue is full of them, and then the callback fires |
| `EventBusRuns.DiagnosticSparedIff` | src/observability/operational_event_bus.py:188-213 | a full queue holding an INFO event gives up something else, or refuses, iff the counter is not positive and the policy's own victim is not INFO |
| `EventBusRuns.CounterCanHideDiagnostic` | src/observability/operational_event_bus.py:195-205 | at every queue size: after warnings and three INFO events under the drop-diagnostic policy, one INFO event is queued, the counter is zero and the third is refused |
| `EventBusRuns.PositiveCounterFinds` | src/observability/operational_event_bus.py:330-354 | with nothing in flight or lost, a positive counter means the scan finds an INFO event |
| `MetricLabels.SerializeRoundTripIff` | src/observability/metrics.py:870-886 | deserializing a serialized label dict returns it iff no key holds an equals sign or comma and no value a comma |
| `MetricLabels.CommaDoesNotComeBack` | src/observability/metrics.py:870-886 | a label value with a comma anywhere does not come back |
| `MetricLabels.SerializeInjective` | src/observability/metrics.py:870-873 | distinct clean label sets never share a counter key |
| `MetricLabels.DeserializeLabels` | src/observability/metrics.py:876-886 | the split loop computes the specification used by the round trip |
| `MetricLabels.KeysAsWritten` | src/observability/metrics.py:870-873 | a label key is written as key=value pieces in key order with commas between, the empty set as the empty text |
| `MetricLabels.LastPieceWins` | src/observability/metrics.py:876-886 | a key is read iff some piece gives it a value, split at its first equals sign; the last such piece wins and pieces without one are ignored |
| `Exposition.RenderPrometheus` | src/observability/metrics.py:830-864 | the loop over the samples sorted by name and label key, headings before the first of each name and a final line break, gives the text the round trip is about |
| `ExpositionRoundTrip.HeadedOnce` | src/observability/metrics.py:844-854 | however many samples share a name, the text has exactly one HELP and one TYPE line for it |
| `ExpositionRoundTrip.HeadingsPrecede` | src/observability/metrics.py:845-860 | the first sample of a name stands right under the name's HELP line with its help text and its TYPE line with counter or gauge |
| `ExpositionRoundTrip.LinesAsWritten` | src/observability/metrics.py:889-896 | a sample's line as text: the name, quoted labels in key order inside braces or no braces at all, one blank, the value |
| `ExpositionRoundTrip.SamplesInOrder` | src/observability/metrics.py:839-843 | samples are ordered by name and then by label key, so those of one name stand together |
| `ExpositionRoundTrip.TextEnds` | src/observability/metrics.py:861-864 | no samples give the empty text, any other text ends with a line feed |
| `Exposition.SampleLeqTotal` | src/observability/metrics.py:839-842 | the sort key is a total preorder, so the order is deterministic |
| `ExpositionParser.ParsePrometheusText` | src/observability/runtime_audit.py:182-221 | unless it raises: samples and faults add up to the lines that are neither blank nor comments; no error iff every such line became a sample, and else the first five faulty line numbers in order with what is wrong with each; the samples are lines of the text in its order. It raises iff a line has an infinite value or a name over 256 characters, at the first such line |
| `ExpositionParser.NothingSkipped` | src/observability/runtime_audit.py:187-221 | whatever the text, each content line is a sample or a fault, the faults are exactly the faulty lines, in order, and each names its own fault |
| `ExpositionParser.SamplesPlaced` | src/observability/runtime_audit.py:187-218 | each sample is read from a line of its own, in the order of the lines |
| `ExpositionParser.RaisesExactly` | src/observability/runtime_audit.py:211-218 | the parse raises iff some line does, and then at the first such line |
| `ExpositionGrammar.LineText` | src/observability/runtime_audit.py:134-138 | the line scanner accepts a text with three captures iff it is name, optional brace block, white space, value, and white space or a timestamp |
| `ExpositionGrammar.NoLineText` | src/observability/runtime_audit.py:134-138 | it rejects exactly the texts that have no such reading |
| `ExpositionGrammar.LabelText` | src/observability/runtime_audit.py:139 | the label scanner accepts a text with key, value and rest iff it is the key, an equals sign, the value in quotes, and the rest |
| `ExpositionGrammar.ScanText` | src/observability/runtime_audit.py:202 | scanning takes a label wherever one starts and otherwise moves on one character |
| `ExpositionGrammar.LastLabelWins` | src/observability/runtime_audit.py:201-204 | of several values for a key the last is kept |
| `ExpositionGrammar.StripText` | src/observability/runtime_audit.py:193 | trimming takes off the white space on both sides and nothing else |
| `ExpositionGrammar.SplitText` | src/observability/runtime_audit.py:192 | lines end at any line boundary, a carriage return with a line feed being one |
| `ExpositionRoundTrip.FindAll` | src/observability/runtime_audit.py:139 | the label pattern finds exactly the printed labels, in order |
| `ExpositionRoundTrip.LineComesBack` | src/observability/runtime_audit.py:134-138 | the line pattern recovers name, label text and value of a printed line |
| `ExpositionRoundTrip.PrintParseRoundTrip` | src/observability/metrics.py:830-896 | parsing the rendered text returns every sample's name, labels and value in sort order with no error, or raises exactly when some name is over the limit |
| `ExpositionRoundTrip.RoundTripIff` | src/observability/runtime_audit.py:134-221 | given one-line help texts and readable numerals, all triples come back iff every name is a metric name of at most 256 characters, every key a label name, and no label value holds a quote, a closing brace or a line break |
| `ExpositionRoundTrip.QuoteDoesNotComeBack` | src/observability/metrics.py:889-896 | a label value with a quote does not come back |
| `ExpositionRoundTrip.ParsedAreProducible` | src/observability/runtime_audit.py:182-221 | whatever the text, only legal names and labels are ever parsed |
| `MetricsRegistry.Registry.RecordProviderFailure` | src/observability/metrics.py:687-693 | adds one to its own labelled counter and changes the reading of no other key of any metric |
| `MetricsRegistry.OneActiveProvider` | src/observability/metrics.py:695-700 | after a provider is made active, a scrape shows that provider at one and no other sample of the gauge |
| `MetricsRegistry.Registry.Snapshot` | src/observability/metrics.py:763-828 | a snapshot holds exactly one sample for each entry of the stores, zero samples included, in whatever order entries are visited; it fails exactly when some entry has no name or help text, or labels that the screening rejects |
| `MetricsRegistry.UnrecordedShowsZero` | src/observability/metrics.py:763-816 | a metric never recorded is shown as one zero sample, without labels but for the verdict gauge, which says UNKNOWN |
| `MetricsRegistry.RecordedShowsValues` | src/observability/metrics.py:780-826 | a recorded metric has a sample for each key, with that key's labels and value and the metric's help text, and no other |
| `MetricsRegistry.ShownOnce` | src/observability/metrics.py:763-828 | no labelled metric is shown twice in a snapshot, unless its name is both a counter and a gauge |
| `MetricsRegistry.WriteKeepsScrapable` | src/observability/metrics.py:687-693 | writing under a clean, printable label set keeps the store readable by the audit |
| `MetricsRegistry.ScrapeShowsStores` | src/observability/metrics.py:763-864 | snapshot, render and parse together show exactly the stored value of every label set |
| `Kelly.RoundError` | src/schemas/llm.py:287-290 | rounding to six places is off by at most 5e-7 |
| `Kelly.RoundFixes` | src/schemas/llm.py:287-290 | multiples of 1e-6 are fixed |
| `Kelly.RoundMonotone` | src/schemas/llm.py:287-290 | rounding is monotone |
| `Kelly.TiesToEven` | src/schemas/llm.py:287-290 | half way between two multiples the even one is taken |
| `Kelly.ComputeKellyAndEv` | src/schemas/llm.py:270-292 | whatever was supplied is overwritten by six-place figures within half a unit of (1-m)/m, (p-m)/m, max(p-m,0)/(1-m) and a quarter of the last, m being the market price; the quarter stake is at most the full one, that at most 99%, and at p <= m nothing is staked |
| `Kelly.StakeWithinProbability` | src/schemas/llm.py:282-284 | the stake never exceeds the probability of winning and is zero without an edge |
| `Kelly.EdgeInPrices` | src/schemas/llm.py:281-282 | the edge times the price is p minus the price, so it is positive iff the probability exceeds the price |
| `Kelly.StakeInPrices` | src/schemas/llm.py:281-283 | the stake times what the price leaves open is the probability's excess over the price, or zero |
| `Kelly.WeightedMean` | src/schemas/llm.py:282-284 | weighted AM-GM for k and m factors, the inequality behind the stake |
| `Kelly.KellyOptimal` | src/schemas/llm.py:276-284 | with p = k/n no stake in [0,1) ends with more wealth than the computed one, clamped or not |
| `Kelly.BestStakeAtPrice` | src/schemas/llm.py:276-284 | for any order of wins and losses, a stake f becoming 1-f+f/price on a win and 1-f on a loss, none in [0,1) beats the stake g with g(1-price) = max(p-price,0), p being the share of wins |
| `Gatekeeper.SpreadTooWide` | src/schemas/llm.py:249-250 | the spread filter fires iff the bid is more than 1.5% below the ask |
| `Gatekeeper.EvaluationResponse.ApplyGatekeeperFilters` | src/schemas/llm.py:751-801 | passes iff no filter fails; the reported filter is the first failing one and never the exposure limit, which only clips; position and audit figures |
| `Gatekeeper.PassesIff` | src/schemas/llm.py:763-779 | all filters pass iff p - m is at least 0.0199995 m, the confidence at least 0.75, the bid at least 98.5% of the ask, and the resolution not less than four hours off |
| `Gatekeeper.FilterReported` | src/schemas/llm.py:763-779 | which filter the audit names, in those terms and that order, and that it records an override iff one failed and a trade was asked for |
| `Gatekeeper.AuditFigures` | src/schemas/llm.py:789-799 | each figure of the audit is within half a unit of the sixth place of its value in prices and probabilities |
| `Gatekeeper.PassingPosition` | src/schemas/llm.py:781-785 | a passing position is the smaller of 3% and the rounded quarter stake, halved under information asymmetry |
| `Gatekeeper.AsymmetryHalves` | src/schemas/llm.py:781-785 | two proposals differing only in the asymmetry flag: the same filters fail; when all pass the flagged position is the smaller of 3% and half the calm quarter stake, so half the calm position unless that was clipped; when one fails both audits are the same |
| `Gatekeeper.AsymmetryInAudit` | src/schemas/llm.py:781-799 | both audits name the same filter, and the flagged one records the halved quarter stake |
| `Gatekeeper.EvaluationResponse.EnforceDecisionOverride` | src/schemas/llm.py:803-837 | holds iff a filter failed, and then records whether a trade was overridden; a zero position adds no further case |
| `Gatekeeper.EvaluationResponse.Validate` | src/schemas/llm.py:744-852 | constructed iff a filter fails or the model said both True and not HOLD; then decision, action, filters and size agree; every field and every audit figure is the one the proposal calls for |
| `Gatekeeper.EvaluationResponse.Construct` | src/schemas/llm.py:270-855 | from raw input, whatever values are supplied for the seven computed fields, the same outcome and the same fields |
| `Gatekeeper.PassingHoldIsRejected` | src/schemas/llm.py:839-852 | a proposal that passes every filter and says HOLD is well-formed, yet no response is constructed for it |
| `Gatekeeper.AuditUnique` | src/schemas/llm.py:789-837 | the proposal alone determines every field of the audit |
| `Gatekeeper.PassingPositionPositive` | src/schemas/llm.py:756-799 | passing all filters forces a position between 0.0000235 and 0.03, after rounding and halving |
| `Gatekeeper.EdgeForcesStake` | src/schemas/llm.py:282-284 | with p at least 0.01 an edge of about 2% bounds the full stake from below |
| `Gatekeeper.Verdict` | src/schemas/llm.py:763-781 | the if-elif chain reports the first failing filter, and none iff all pass |
| `BacktestData.ParseFileRecords` | src/backtest_runner.py:105-161 | records in order, outside the window skipped, first faulty record reported by index and kind |
| `BacktestData.FirstFaultyRecord` | src/backtest_runner.py:113-147 | the first faulty record is the one reported, with its index and fault; without one every record is readable |
| `BacktestData.RecordsGive` | src/backtest_runner.py:113-161 | a snapshot is read from a file iff one of its records gives it |
| `BacktestData.RecordErrors` | src/backtest_runner.py:114-147 | which fault each kind of bad record raises; one outside the window is dropped before its numbers are looked at |
| `BacktestData.RecordFigures` | src/backtest_runner.py:136-159 | what a good record gives: its own figures, resolved with its profit iff a realized profit is given |
| `BacktestData.WindowDays` | src/backtest_runner.py:163-171 | the window runs from the first instant of its first day to the last of its last |
| `BacktestData.NameMatches` | src/backtest_runner.py:37-39 | a file name matches for a token iff it is the token, an underscore, a date and .json, the token being non-empty and without a line feed |
| `BacktestData.LoadAll` | src/backtest_runner.py:68-103 | files by name, non-matching names skipped, one stable sort: the result is in time order |
| `BacktestData.FirstFaultyFile` | src/backtest_runner.py:68-100 | loading fails iff some .json file raises, and with the error of the first such file in name order |
| `Sorting.SortCorrect` | src/backtest_runner.py:102 | sorted() gives a sorted permutation |
| `Sorting.SortStable` | src/backtest_runner.py:102 | and keeps the order of ties |
| `HistoricalDataset.PointsAreFirstValid` | src/backtesting/historical_dataset.py:289-349 | the kept snapshots are exactly the first valid element of each instant, in the order of the series |
| `HistoricalDataset.ParsesIff` | src/backtesting/historical_dataset.py:391-470 | an element parses iff its required fields are there, positive and uncrossed and no optional one is non-finite, and then to its own stamp, bid, ask, midpoint, given spread or ask minus bid, and volume |
| `HistoricalDataset.PointsQuoteElements` | src/backtesting/historical_dataset.py:289-349 | the points quote exactly the first usable element of each instant, in the order of the series, without reference to the parser |
| `HistoricalDataset.SkipReasons` | src/backtesting/historical_dataset.py:391-470 | which code each kind of unusable element gets; of several faults the first checked |
| `HistoricalDataset.SkipsCounted` | src/backtesting/historical_dataset.py:289-349 | every usable element is kept or reported as a duplicate, and every raw float in a full element is reported |
| `HistoricalDataset.MarketSkips` | src/backtesting/historical_dataset.py:166-285 | which of a missing token, condition, outcome or fetch is reported: the first of them |
| `HistoricalDataset.PointsAreSound` | src/backtesting/historical_dataset.py:440-447 | so they are positive, uncrossed and have distinct instants |
| `HistoricalDataset.KeptOrSkipped` | src/backtesting/historical_dataset.py:289-349 | apart from rejected floats in optional fields, each series element is kept or skipped with one code |
| `HistoricalDataset.BuildMarketRecord` | src/backtesting/historical_dataset.py:151-386 | a market becomes a record iff it has both ids, a YES or NO outcome with finite amounts and a fetch that did not fail; the record's points quote the series; all skip codes in order; a source failure iff the fetch of an otherwise usable market failed |
| `HistoricalDataset.DatasetBuilder.WriteSnapshotFiles` | src/backtesting/historical_dataset.py:475-516 | grouping by date and merging equals appending each snapshot to its token-and-date file |
| `DatasetRoundTrip.OutcomesInvisible` | src/backtesting/historical_dataset.py:547-572 | writing or overwriting a market's outcomes file, in any directory, never changes what is loaded, in any window |
| `DatasetRoundTrip.MatchedDecide` | src/backtest_runner.py:68-103 | what is loaded depends only on the files whose names match |
| `HistoricalDataset.DatasetBuilder.Build` | src/backtesting/historical_dataset.py:68-145 | the directory after all markets, empty ones skipped; a source failure is reported iff some market's fetch failed |
| `HistoricalDataset.FileNameInjective` | src/backtesting/historical_dataset.py:498 | token and date are determined by the file name |
| `DatasetRoundTrip.SnapshotNameMatches` | src/backtest_runner.py:37-39 | the loader's pattern recovers the token from a snapshot file name, underscores included |
| `DatasetRoundTrip.OutcomesNeverMatch` | src/backtest_runner.py:37-39 | outcome files and the manifest are never picked up, nor overwrite a snapshot file |
| `DatasetRoundTrip.PartitionByFile` | src/backtest_runner.py:73-100 | splitting snapshots over files loses and adds nothing |
| `DatasetRoundTrip.LoadsWhatWasBuilt` | src/backtesting/historical_dataset.py:475-545 | loading a freshly built directory succeeds under every date window and returns exactly the kept snapshots of readable tokens whose instants lie in it, time-sorted, positive, uncrossed and unresolved |
| `DatasetQuotes.LoadedIffFetched` | src/backtesting/historical_dataset.py:289-545 | from fetch to replay, in any window: a snapshot is loaded iff it shows token, instant, bid, ask and midpoint of the first usable element of that instant in a recordable market's series, unresolved, its token without line feed and its instant in the window |
| `DatasetQuotes.FileAsWritten` | src/backtesting/historical_dataset.py:487-514 | the file of a token and a date holds the dicts of exactly the points kept for them, in order, from whichever markets they come |
| `DatasetQuotes.DictFields` | src/backtesting/historical_dataset.py:518-545 | a dict names its token and condition and has its point's own figures |
| `DatasetQuotes.DictHasNoOutcome` | src/backtesting/historical_dataset.py:518-545 | of other keys only end date and volume occur, when given; none tells how the market ended |
| `DatasetQuotes.OutcomesRecorded` | src/backtesting/historical_dataset.py:547-572 | the outcomes file of a token holds what was given of the outcome of the last contributing market of that token |
| `DatasetRoundTrip.NothingLostIff` | src/backtest_runner.py:37-39 | no kept snapshot is lost iff no token id has a line feed and every instant lies in the window |
| `DatasetRoundTrip.LineFeedLosesSnapshot` | src/backtest_runner.py:37-39 | a token id with a line feed: one snapshot is kept and written, loading succeeds and returns nothing, in any window |
| `DatasetRoundTrip.OutcomesNeverLeak` | src/backtesting/historical_dataset.py:519-575 | replay data is the same for any accepted outcome, price and profit, under every date window |
| `BacktestRunner.Replayed` | src/backtest_runner.py:306-351 | the one-pass loop computes the decisions, the per-market accumulators, the executed profits and their maximum drawdown |
| `BacktestRunner.Run` | src/backtest_runner.py:286-391 | the decisions recount the snapshots in time order; every figure of the report is what its name says about them, each market's about its own |
| `BacktestRunner.RecountedAll` | src/backtest_runner.py:411-461 | row by row: what was evaluated, sized in currency; without a decision it holds and books no profit; resolved iff executed or the snapshot was |
| `BacktestRunner.TradesAccount` | src/backtest_runner.py:360-364 | trades, wins and net profit are counts and sums over the decisions themselves, and the win rate times the trades is the wins |
| `BacktestRunner.MarketAccounts` | src/backtest_runner.py:366-377 | the same for each market over its own decisions |
| `BacktestRunner.DrawdownStep` | src/backtest_runner.py:345-351 | comparing with the running peak maintains the largest fall between any two points |
| `BacktestRunner.DrawdownZeroIff` | src/backtest_runner.py:345-351 | the drawdown is never negative, and zero iff no executed trade lost money |
| `BacktestRunner.MarketsConserve` | src/backtest_runner.py:324-377 | over any duplicate-free listing of the markets, decisions, trades, wins and profit add up to the totals |
| `BacktestRunner.SharpeSign` | src/backtest_runner.py:584-598 | the ratio has the sign of the net profit, and is zero with fewer than two trades or trades all alike |
| `BacktestRunner.SharpeMagnitude` | src/backtest_runner.py:584-598 | with n unlike trades of total s and sum of squares q the squared ratio times (n q - s s) is s s |
| `LiveReadiness.ConfidenceCalibrationAcceptable` | src/backtesting/live_readiness.py:118-157 | acceptable iff there are no buys, or enough buckets are populated and none is off |
| `LiveReadiness.DeriveVerdict` | src/backtesting/live_readiness.py:49-115 | each verdict iff its gate is the first to fail, the gates given as counts and sums over the decisions with the limits of a tenth, 20 trades, 30%, 0.25, two buckets and 0.15 |
| `LiveReadiness.PoorDataIff` | src/backtesting/live_readiness.py:72-80 | poor data: more than a tenth of what was loaded, or nothing loaded and nothing traded |
| `LiveReadiness.BandsOffIff` | src/backtesting/live_readiness.py:118-157 | confidences bear out iff at least two fifths of the unit interval are in use and in each the confidences and the wins differ by at most a quarter per buy |
| `LiveReadiness.EdgeOffIff` | src/backtesting/live_readiness.py:164-187 | edges bear out iff, multiplied out, average edge and return per unit staked differ by at most 0.15 |
| `LiveReadiness.PassFloorsEquity` | src/backtesting/live_readiness.py:86-96 | a passing report's replay never fell below -30% of the bankroll, at any point, and ended positive |
| `ValidationReport.ComputeCalibrationBuckets` | src/backtesting/validation_report.py:250-297 | one row per bucket with count, average, win rate and deviation |
| `ValidationReport.EvDeviationIs` | src/backtesting/validation_report.py:176-191 | the reported edge deviation, multiplied out, is the distance between average edge and return per unit staked, and zero when it cannot be told |
| `ValidationReport.BuildValidationReport` | src/backtesting/validation_report.py:156-238 | each row counts the buys of its fifth and gives their average confidence, share of wins and the distance; once the earlier gates pass, the verdict is weak calibration iff buys exist and the report's own table or edge deviation shows it |
| `ValidationReport.TableCounts` | src/backtesting/validation_report.py:21-27 | bucket counts sum to the buys with confidence in [0,1] plus those on an interior edge |
| `ValidationReport.EdgeCountedTwice` | src/backtesting/validation_report.py:21-27 | a single buy on an interior edge is counted by two of the five buckets |
| `RunLifecycle.PairSpans` | src/observability/daily_ops_digest.py:494-530 | the paired spans sum to the time between records at which a run was open, less the unfinished span when a run is left open |
| `RunLifecycle.SpanCounts` | src/observability/daily_ops_digest.py:509-530 | a run from a START to the next SHUTDOWN counts its whole length, STARTs in between changing nothing |
| `RunLifecycle.IdleCountsNothing` | src/observability/daily_ops_digest.py:509-530 | while no run is open no time counts |
| `RunLifecycle.OpenTimeWithinRun` | src/observability/daily_ops_digest.py:524-530 | that time is never negative and never exceeds last SHUTDOWN minus first START |
| `RunLifecycle.OpenIffUnmatched` | src/observability/daily_ops_digest.py:551-562 | a run is left open iff some START has no later SHUTDOWN |
| `RunLifecycle.LatestFields` | src/observability/daily_ops_digest.py:531-549 | latest-wins fields are those of the last record that has one; markets seen and turned away, rejected or quarantined, are counted by their places |
| `RunLifecycle.DeriveRunSummary` | src/observability/daily_ops_digest.py:462-597 | over the records sorted by time and then id: status, uptime in whole seconds rounded down, first start, last stop, latest fields and counts |
| `MarketRouting.Dedupe` | src/orchestrator.py:576-582 | keeps the first market of each condition id |
| `MarketRouting.DedupedKeepsFirsts` | src/orchestrator.py:576-582 | every first occurrence is kept |
| `MarketRouting.DedupedDistinct` | src/orchestrator.py:576-582 | no condition id is kept twice |
| `MarketRouting.DedupedInOrder` | src/orchestrator.py:576-582 | the kept markets are in the order of discovery |
| `MarketRouting.CollisionMeansRejected` | src/orchestrator.py:598-610 | the running token set meets a market iff it shares a token with an earlier accepted one |
| `MarketRouting.BuildRoutes` | src/orchestrator.py:590-622 | both routing maps send each key to its last claimant; the token set and the pair table are those of the accepted markets and no others |
| `MarketRouting.PairIffAccepted` | src/orchestrator.py:611-614 | a market has a token pair exactly when it is accepted, and then its own |
| `MarketRouting.PairInOrder` | src/orchestrator.py:611-614 | the pair is the market's first token and then its second, as far as it has them |
| `MarketRouting.SkippedBlocksNothing` | src/orchestrator.py:598-610 | a skipped market does not stand in the way of a later one that shares a token only with it |
| `MarketRouting.Orchestrator.ActivateMarkets` | src/orchestrator.py:555-631 | the installed tables and the sorted, duplicate-free subscription; an empty discovery changes nothing |
| `MarketRouting.TokenRoutedIff` | src/orchestrator.py:615-622 | a token of an accepted market reaches it and its first token iff that first token is not empty and no later routed market has that string as condition id |
| `MarketRouting.EmptyFirstTokenUnrouted` | src/orchestrator.py:606-622 | an accepted market whose first token is the empty string: its other token is subscribed and routed nowhere |
| `MarketRouting.ConditionRoutedIff` | src/orchestrator.py:615-622 | a condition id is routed to itself iff its market is routed and no later routed market has it among its tokens |
| `MarketRouting.LaterConditionTakesToken` | src/orchestrator.py:615-622 | a later market whose condition id is an earlier market's token takes that token's frames |
| `MarketRouting.AllTokensRouted` | src/orchestrator.py:615-622 | with token ids non-empty and disjoint from condition ids, every token of every accepted market reaches it and its first token, and nothing else is routed |
| `MarketRouting.SkippedStayActive` | src/orchestrator.py:603-626 | every first market of a condition id stays listed; it has a pair iff it was accepted, and nothing is ever routed to one that was not |
| `MarketRouting.CollisionKeepsBothListed` | src/orchestrator.py:603-626 | two markets sharing a token: both listed, only the first with a pair |
| `EventThrottle.DurableEventThrottle.ShouldThrottle` | src/orchestrator.py:1701-1732 | the decision is the one the whole history calls for; CRITICAL and ERROR events leave both dictionaries alone |
| `EventThrottle.ConsecutiveEmitsSpaced` | src/orchestrator.py:1717-1719 | consecutive emits of one key are at least the interval apart, whatever the clock does |
| `EventThrottle.EmitsSpaced` | src/orchestrator.py:1717-1719 | so are any two, when the clock never runs backwards |
| `EventThrottle.SuppressedIsRecent` | src/orchestrator.py:1704-1732 | a suppressed event is neither CRITICAL nor ERROR and is less than the interval after the last emit of its key |
| `EventThrottle.SuppressedIff` | src/orchestrator.py:1701-1732 | with a positive interval, suppressed iff the event is an INFO or WARNING of a throttled type and the last one let through of the same type and reason is less than the interval ago; other types and reasons do not matter |
| `EventThrottle.CounterIsExact` | src/orchestrator.py:1718-1732 | the suppressed counter is the number of suppressions since the last emit |
| `OperationalAlerts.AlertState.IsWithinCooldown` | src/schemas/ops.py:471-479 | true iff the latest successful dispatch of the whole history is less than the cooldown ago |
| `OperationalAlerts.AlertBridge.EvaluateReadinessDegraded` | src/observability/operational_alerts.py:169-224 | status, alert and its reason are those the history of evaluations calls for |
| `OperationalAlerts.AlertBridge.EvaluateWebsocketStale` | src/observability/operational_alerts.py:226-291 | the same for a disconnected or stale WebSocket, with its reason |
| `OperationalAlerts.AlertBridge.Dispatch` | src/observability/operational_alerts.py:368-428 | only a send that succeeds starts a new cooldown |
| `OperationalAlerts.AttemptIff` | src/observability/operational_alerts.py:186-209 | an attempt happens iff an unbroken unhealthy streak began at least the threshold ago, before now, and the latest dispatch is outside the cooldown |
| `OperationalAlerts.StatusMeans` | src/observability/operational_alerts.py:169-428 | which status each evaluation ends with: how an attempt was answered, the cooldown, or no long unhealthy streak |
| `OperationalAlerts.SustainedIff` | src/observability/operational_alerts.py:186-201 | sustained iff an unbroken unhealthy streak began at least the threshold ago; the start it is measured from is the one evaluation just after the last healthy one |
| `OperationalAlerts.ConsecutiveDispatchesSpaced` | src/observability/operational_alerts.py:405-416 | consecutive successful dispatches are at least the cooldown apart |
| `OperationalAlerts.DispatchesSpaced` | src/observability/operational_alerts.py:405-416 | so are any two, when the clock never runs backwards |

## Left out

- RunLifecycle.PairSpans: record lists out of time order, because the digest only ever passes sorted ones.
- ExpositionRoundTrip.PrintParseRoundTrip: how a decimal is printed and read is a pair of functions assumed to undo each other on the values at hand, because that code is the host language's.
- BacktestRunner.SharpeSign: the square root is a function assumed to be one on positive numbers.
- DatasetRoundTrip.LoadsWhatWasBuilt: ISO timestamps and decimal text are identified with their values; years have four digits; token ids contain no path separator, since writing such a file fails.
- ExpositionParser.ParsePrometheusText: the forbidden-label and forbidden-content lists it also returns, since scanning for secrets is outside the model; a digit in the optional timestamp is an ASCII digit.
- MetricsRegistry.Registry.Snapshot: which label keys and values the screening rejects is a parameter, and a stored value is a finite number; the other `record_*` and `set_*` methods have the same shape as the two modelled.
- BacktestData.LoadAll: a date digit in a file name is an ASCII digit; the builder writes no others.
- HistoricalDataset.BuildMarketRecord: looking up a field under alternative names; a raw snapshot holds the outcome of that. A required price that is missing, unreadable or a raw float is one case, and one that is an infinity or not a number is outside the model.
- Gatekeeper.EvaluationResponse.Validate: the reasoning log's prefix, and the clock behind the hours to resolution, which is an input.
- BacktestRunner.Run: the evaluator and the execution router, whose answers are an input; run timestamps and logging.
- ValidationReport.BuildValidationReport: the distribution of actions, the wording of the verdict and the run's metadata.
- EventBus.OperationalEventBus.Publish: metric updates, `task_done` accounting and the overflow timestamp.
- Floating-point bit patterns, Decimal's 28-digit context and the wall clock.
- The flush loop's timer, the repository, sessions, HTTP, Telegram and database code: input and output.
- Circuit-breaker transition alerts and the startup alert: settled by reading a few branches.
- Aggregator registration, category resolution and the logging at market activation: they read the tables and do not change them.
- The digest's highlights, narratives, secret scan and unresolved-warning selection.
- The orchestrator's ledger-degraded flag, which is set when a critical publish is refused.
