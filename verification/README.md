# Verified model of the BI agent's core

This project models, in Dafny 4.11, five parts of the BI agent and proves what they are relied on for:

- the statistics kernel of the association capability, its transforms, one hypothesis, and the judgement of a family of
  them (`FdrAdjustment`, `FdrByCounting`, `RankCorrelation`, `Moments`, `RollingStability`, `RollingVerdict`,
  `SignReversal`, `Transforms`, `TransformValues`, `Association`, `AssociationVerdict`, `AssociationFamily`,
  `CandidateSigns`, `UndirectedCandidate`);
- the run-dispatch lease protocol of the in-memory gateway store (`DispatchInput`, `RequestFields`, `RunDispatch`,
  `DispatchInvariants`, `DispatchLaws`, `DispatchLife`, `DispatchSystem`, `LeaseFencing`, `MemoryStore`), with the
  canonical JSON its digests are taken from (`CodePoints`, `CanonicalJson`, `CanonicalForm`);
- the two validators that decide whether an execution result closes over itself, each with its own pass and both
  proved against one declaration of closure, and the customer's view of a result (`References`, `ExecutionRecords`,
  `ExecutionClosure`, `GatewayResult`, `AgentCoreResult`, `ResultValidators`, `ClosureLaws`, `ClosureOrder`,
  `ClosureByProperty`, `VerdictsByProperty`, `CustomerView`, `CustomerViewContents`, `TiedIdentifiers`);
- the arithmetic of the dimension screen, the crosswalk and the change-point scan (`MemberShares`,
  `DifferentiationScore`, `DimensionCells`, `DimensionFigures`, `DiagnosticPriority`, `DimensionProfile`,
  `RefundedDimension`, `Hierarchy`, `HierarchyPaths`, `HierarchyByParents`, `RelatedReadouts`, `CrosswalkMapping`,
  `CrosswalkCells`, `CrosswalkCoverage`, `CrosswalkFigures`, `CrosswalkSummary`, `CandidateCrosswalk`, `TimeSeries`,
  `ChangePoint`, `ChangePointReport`);
- the chronology of a trace, the client's playback schedule and the stream budget (`Chronology`, `PlaybackSchedule`,
  `PlaybackPace`, `BudgetLedger`, `BudgetLimits`, `SseBudget`).

`Wrappers`, `Sets`, `Totals`, `Tallies`, `Counting`, `Grouping`, `Sorting`, `StableSort`, `RealArith` and `RealOrder` hold
what these share.

Run `dafny verify dfyconfig.toml` in this directory to check everything.

## How to read it

Code that changes things step by step is a method with loops, or a class whose methods reassign its fields; each such
method is proved against a function or a predicate, and the lemmas prove what that function or predicate means. The
store of the dispatch protocol is the class `MemoryStore.ConversationStore`: every method does to the store's contents
exactly what the function of the same name in `RunDispatch` does, and keeps the store sound. `DispatchSystem` lets these
functions interleave in any order with the clock, the worker (which takes a leased dispatch to running and reports the
status of unsettled runs) and the rest of the conversation, with every other writer of its audit log; its theorems are
about every such run. `LeaseFencing` adds the history of granted leases. The class `SseBudget.Budget` records its calls;
its counters are those of `BudgetLedger` after these calls, and the theorems there are about every sequence of calls.

Several modules tell the same thing a second time, without the helpers that the code is modelled with: what the
validators take (`ClosureByProperty`, `VerdictsByProperty`), what a request is and what the dispatch operations answer
(`RequestFields`, `CanonicalForm`, `DispatchLife`), what the statistics mean (`RollingVerdict`, `AssociationVerdict`,
`FdrByCounting`, `Moments`, `TransformValues`), and what is reported (`ChangePointReport`, `PlaybackPace`,
`DimensionFigures`, `CrosswalkFigures`, `HierarchyByParents`, `CustomerViewContents`, `BudgetLimits`). Their lemmas tie
the two accounts together.

Numbers are exact: floating-point values are `real`. Square roots are a function with the defining property of the
square root, or are replaced by comparing squares (`ChangePoint.RootsCompareAsSquares`). The sum of used budget units
is unbounded; a sum beyond the safe integers cannot equal, nor fall below, the safe integer it is compared with, so
the verdict is that of the code. A SHA-256 digest is represented by the value it is taken from. Identifiers drawn at
random are parameters that are not in use yet, and the clock is a parameter. A dictionary that keeps insertion order is a
list of keys beside a map.

## What the proofs show about the code

- The paths of a hierarchy are those that start at a root or on or below a circle of parents, and the dimensions read
  together are those that share such a path (`HierarchyPaths.HierarchyDimensionPaths`,
  `RelatedReadouts.RelatedMeansOnOnePath`).
- A dimension whose chain of parents runs into a circle it is not itself part of gets a `hierarchy_depth` one higher
  than the number of its ancestors. The two agree exactly when the chain ends or returns to the dimension
  (`Hierarchy.DepthCountsAncestors`, `Hierarchy.DepthCanExceedAncestors`).
- `acquireCustomerSseLease` takes its slot before it reads the lifetime setting. If that setting is invalid the caller
  gets an error and nobody can give the slot back. The counters count the leases that are out exactly when no
  acquisition with room was made while the setting was invalid, and as many lost slots as the limit close the budget for
  good (`BudgetLedger.CountsLeasesExactlyWhenNoneLost`, `BudgetLedger.LostSlotsRefuse`).
- `excess_movement` is the size of the target total times the differentiation score, except when the target total is
  zero: then the shares are unknown, the score is zero, and the two agree only if no measured member has a target amount
  (`MemberShares.WhenTheMeasuresAgree`, `MemberShares.TheMeasuresCanPartCompany`).
- The normalization named `half_l1_share_distance_0_to_1` is one less the shares that members keep, so it holds exactly
  when these are not negative in total (`DifferentiationScore.ProportionExactlyWhenKept`). For measured members it holds
  for every target without refunds exactly when no baseline share is negative
  (`DifferentiationScore.MeasuredMembersNeedSharesOfOneSign`; `DifferentiationScore.AlwaysProportionExactly` for members
  of any kind). One refunded row is enough for a score of two and a priority above one
  (`RefundedDimension.RefundBreaksTheBound`).
- The coverage figure `matched` of a summed metric is a mass of absolute values; it is what the aligned rows add up to
  exactly when no mapped value is negative (`CrosswalkCoverage.MatchedIsAligned`, `CrosswalkCoverage.RefundIsMatched`).
- A trace built from snapshot nodes is never marked `event_replay`, but becomes one when a publication is appended and
  its times fit: replay is then decided on the times alone (`Chronology.ChronologicalExactlyWhenItFits`,
  `Chronology.PublishedSnapshotCanReplay`).
- A full correlation of exactly zero counts as positive in the stability check, so there the sign of the candidate can
  decide the verdict, and with any other it cannot (`SignReversal.VerdictStandsExactlyWithDirection`,
  `UndirectedCandidate.UndirectedVerdictTurns`). No decision is taken on such a verdict: a coefficient of zero has a
  p-value of one and is never supported, and among supported hypotheses stability does not depend on the sign of the
  pairs (`Association.SupportHasDirection`, `Association.FamilyForgetsSign`).
- Negating a candidate changes no support as long as no log difference is taken of it. Where one is, a candidate without
  negative values has no pairs left after it is negated, and so no support. Over all data the sign of candidates is
  forgotten exactly by the plans without the log difference (`AssociationFamily.CandidatesForgetSign`,
  `CandidateSigns.LogarithmLosesSupport`, `CandidateSigns.SignsAreForgottenExactly`).
- With a rolling step longer than the window, pairs between windows are skipped, unless two windows cover the data
  (`RollingStability.EveryPairIsInAWindow`).
- The customer's view of a closed result does not depend on the order of its parts exactly when the collation tells the
  identifiers of each list apart (`CustomerView.ViewForgetsOrder`, `TiedIdentifiers.TiesShowTheOrder`).
- The agent core takes any stop reason, execution state and evidence kind that is not blank, the gateway only its own
  vocabulary; the gateway reads an array of one word as the word and asks for no digests of attempts and outcomes. The
  results that one validator takes and the other does not differ in these points and no others
  (`ResultValidators.WhatTheGatewayTakes`, `ResultValidators.WhatTheAgentCoreAccepts`).

## Model

| member | source | states |
|---|---|---|
| FdrAdjustment.AdjustPValues | bi_agent/capabilities/cross_source_association.py:609-627 | the reverse sweep gives each hypothesis the minimum of 1 and of p(j)·m·c/j over all ranks j from its own; an unsupported method is an error |
| FdrAdjustment.StepUpRule | bi_agent/capabilities/cross_source_association.py:609-627 | an adjusted value is at most alpha exactly for the ranks up to the largest k with p(k) at most k·alpha/(m·c): the Benjamini–Hochberg and Benjamini–Yekutieli step-up rule |
| FdrAdjustment.NeverBelowRaw | bi_agent/capabilities/cross_source_association.py:609-627 | p at most q at most 1 |
| FdrAdjustment.ZeroStaysZero | bi_agent/capabilities/cross_source_association.py:609-627 | a p-value of zero is adjusted to zero in every family |
| FdrAdjustment.MonotoneInP | bi_agent/capabilities/cross_source_association.py:609-627 | a larger p never has a smaller q, and ties share one q |
| FdrAdjustment.OrderIndependent | bi_agent/capabilities/cross_source_association.py:609-627 | q depends on the p-values as a collection, not on the order in which they are listed |
| FdrAdjustment.YekutieliDominates | bi_agent/capabilities/cross_source_association.py:609-627 | Benjamini–Yekutieli is nowhere below Benjamini–Hochberg |
| FdrByCounting.AdjustedByCounting | bi_agent/capabilities/cross_source_association.py:609-627 | the adjusted value without ranks: at most one, and over the p-values that are no smaller the least of p·m·c over how many p-values do not exceed it |
| FdrByCounting.MultiplierIsSumOfReciprocals | bi_agent/capabilities/cross_source_association.py:609-627 | the multiplier is one for Benjamini–Hochberg and the sum of the reciprocals up to the size of the family for Benjamini–Yekutieli |
| RankCorrelation.Ranks | bi_agent/capabilities/cross_source_association.py:533-545 | the nested loops assign each value its mid-rank: the number of smaller values plus the middle of the places of the equal ones |
| RollingVerdict.RankExactly | bi_agent/capabilities/cross_source_association.py:533-545 | twice the rank of a value is twice the number of smaller values, and one more than the number of equal ones |
| RankCorrelation.RankSum | bi_agent/capabilities/cross_source_association.py:533-545 | ranks of n values add up to n(n+1)/2, whatever the ties |
| RankCorrelation.RankStrictlyMonotone | bi_agent/capabilities/cross_source_association.py:533-545 | a larger value has a larger rank |
| RankCorrelation.RanksDependOnOrder | bi_agent/capabilities/cross_source_association.py:533-545 | ranks see nothing but the order of the values |
| RankCorrelation.Correlation | bi_agent/capabilities/cross_source_association.py:513-530 | the coefficient is that of the values or their ranks, lies in [-1, 1] so that clamping changes nothing, and is absent exactly when a series is constant |
| Moments.DeviationsBySums | bi_agent/capabilities/cross_source_association.py:519-530 | products of deviations, times the count, are the count times the sum of products less the product of the sums |
| Moments.CoefficientBySums | bi_agent/capabilities/cross_source_association.py:519-530 | the coefficient is that of the sums: its square is the squared covariation over the product of the variations, and it has the sign of the covariation |
| RankCorrelation.CauchySchwarz | bi_agent/capabilities/cross_source_association.py:519-530 | the inequality behind the clamp, for sequences of any length |
| RankCorrelation.SpearmanInvariant | bi_agent/capabilities/cross_source_association.py:515-545 | the Spearman coefficient is unchanged when either series goes through any strictly increasing function |
| RankCorrelation.CoefficientSymmetric | bi_agent/capabilities/cross_source_association.py:513-530 | exchanging the series does not change the coefficient |
| RollingStability.LaggedPairs | bi_agent/capabilities/cross_source_association.py:376-390 | the loop pairs exactly the times at which the target and, lag steps earlier, the candidate have a value, in order |
| RollingStability.LagIsSymmetric | bi_agent/capabilities/cross_source_association.py:376-390 | exchanging the series and reversing the lag exchanges the members of every pair |
| RollingStability.WindowStarts | bi_agent/capabilities/cross_source_association.py:475-480 | the loop lists the starts of the windows |
| RollingStability.StartsCover | bi_agent/capabilities/cross_source_association.py:475-480 | windows start at zero, advance by the step, and the last one ends with the data |
| RollingStability.EveryPairIsInAWindow | bi_agent/capabilities/cross_source_association.py:475-480 | every pair is in some window exactly when the step is no longer than the window or two windows already cover the data |
| RollingStability.RollingCorrelation | bi_agent/capabilities/cross_source_association.py:463-510 | the loop returns the summary of the coefficients of all windows in which neither series is constant, with the share of significant ones |
| RollingVerdict.RollingExactly | bi_agent/capabilities/cross_source_association.py:475-510 | too few pairs make no window; otherwise what is summed up is what the windows measure, by values or by ranks, at starts from zero on by the step up to the last full window |
| RollingStability.SummaryBounds | bi_agent/capabilities/cross_source_association.py:490-510 | the shares of agreeing and of significant windows are proportions and the medians stay within the bounds of the coefficients |
| RollingVerdict.MedianIsTheMiddle | bi_agent/capabilities/cross_source_association.py:497-498 | the median is the middle value of any ascending arrangement of the values, or halfway between the two middle ones |
| RollingVerdict.MedianHalves | bi_agent/capabilities/cross_source_association.py:497-498 | at least half of the values are at most the median, and at least half at least the median |
| RollingVerdict.RatiosAreCounts | bi_agent/capabilities/cross_source_association.py:492-504 | the ratios are counts over the number of windows: of coefficients with the sign of the whole, and of p-values at most alpha |
| RollingVerdict.StableExactlyWhen | bi_agent/capabilities/cross_source_association.py:492-510 | stable exactly when there are enough windows, enough of them go with the whole, and the middle of their sizes in ascending order reaches the threshold |
| RollingVerdict.StableWindowsAreLarge | bi_agent/capabilities/cross_source_association.py:498-510 | in whatever is stable at least half of the windows have a coefficient at least as large as asked for |
| SignReversal.NegatedCandidate | bi_agent/capabilities/cross_source_association.py:513-545 | negating the candidate negates the coefficient, or leaves it absent, for values and for tie-averaged ranks |
| SignReversal.PairsOfNegated | bi_agent/capabilities/cross_source_association.py:376-390 | negating the candidate series negates the second member of every lagged pair |
| SignReversal.TurnedPairsTurnRolling | bi_agent/capabilities/cross_source_association.py:463-510 | negating the candidate keeps the number of windows, the median size and the share of significant windows, negates the median, and keeps share and verdict when the whole has a direction |
| SignReversal.VerdictStandsExactlyWithDirection | bi_agent/capabilities/cross_source_association.py:492-510 | turning all coefficients round keeps the verdict for all windows and thresholds exactly when the full coefficient is not zero |
| Association.MakeEstimate | bi_agent/capabilities/cross_source_association.py:394-449 | the statuses in their order; a coefficient, within [-1, 1], exactly for enough pairs of two series that vary |
| Association.Judge | bi_agent/capabilities/cross_source_association.py:121-134 | exactly the hypotheses with a p-value are adjusted, each flag follows from its own adjusted value, and no other hypothesis is touched |
| AssociationVerdict.SupportedExactlyWhen | bi_agent/capabilities/cross_source_association.py:128-132 | a judged hypothesis is significant exactly when its adjusted value is at most alpha, and supported exactly when moreover its coefficient is at least the threshold or at most its negative |
| AssociationVerdict.JudgedValuesAreAdjusted | bi_agent/capabilities/cross_source_association.py:117-128 | the adjusted values of a family are the adjustment of its p-values in their order |
| AssociationVerdict.PValueOfUnexplained | bi_agent/capabilities/cross_source_association.py:548-564 | between its end points the p-value is the incomplete beta function at one less the squared coefficient, clamped to [0, 1]; it is one for a coefficient of zero or two pairs, and zero from 0.999999999999999 on |
| AssociationVerdict.ValidateConfiguration | bi_agent/capabilities/cross_source_association.py:311-336 | settings are refused with the first fault in the order of the tests; without a fault the step is the one given or a third of the window, at least one |
| AssociationVerdict.ValidHasNoFault | bi_agent/capabilities/cross_source_association.py:311-336 | the configurations the capability works with are those without a fault |
| Association.TurnedEstimate | bi_agent/capabilities/cross_source_association.py:394-449 | negating the candidate of a hypothesis keeps its status, p-value and significance and turns its coefficient and its rolling summary |
| Association.ZeroHasPOne | bi_agent/capabilities/cross_source_association.py:548-564 | a coefficient of zero has a p-value of one for every number of pairs |
| Association.SupportHasDirection | bi_agent/capabilities/cross_source_association.py:121-134 | a supported hypothesis has a coefficient other than zero, whatever the adjustment and the thresholds |
| Association.FamilyForgetsSign | bi_agent/capabilities/cross_source_association.py:96-139 | whichever hypotheses of a family have their pairs turned, the adjusted values are the same, the same hypotheses are supported, and the same of these are stable |
| Transforms.TransformSeries | bi_agent/capabilities/cross_source_association.py:350-367 | the loop gives each value its change from the one before it under the transform, and none where a value is missing or the transform has no change |
| TransformValues.TransformedExactly | bi_agent/capabilities/cross_source_association.py:350-373 | what each transform has at each place: levels as they are, otherwise nothing first and then the step between neighbours that are both known |
| Transforms.TransformOfNegated | bi_agent/capabilities/cross_source_association.py:350-373 | the transform of a negated series is the negated transform exactly when it is not the log difference or no two neighbours have the same sign |
| Transforms.TransformsThatCommute | bi_agent/capabilities/cross_source_association.py:350-373 | negating commutes with a transform, whatever the series, exactly for all but the log difference |
| AssociationFamily.EstimateFamily | bi_agent/capabilities/cross_source_association.py:82-116 | the four loops make one estimate for each candidate, transform, lag and method, in that order, from the transformed series |
| AssociationFamily.CandidatesForgetSign | bi_agent/capabilities/cross_source_association.py:82-139 | negating any candidates whose changes have no plain logarithm changes no adjusted value, no support, and not the stability of any supported hypothesis |
| CandidateSigns.LogarithmLosesSupport | bi_agent/capabilities/cross_source_association.py:82-139 | whatever the configuration, where the log difference is taken an alternating target supports an equal candidate and does not support the negated one |
| CandidateSigns.SignsAreForgottenExactly | bi_agent/capabilities/cross_source_association.py:82-139 | for every valid configuration: over all targets, candidates and negations support and the stability of what is supported never depend on signs exactly when the log difference is not among the transforms |
| UndirectedCandidate.UndirectedVerdictTurns | bi_agent/capabilities/cross_source_association.py:475-510 | six pairs with a full correlation of zero whose verdict turns with the candidate |
| CodePoints.RoundTrip | app/api/_conversationStore.ts:5567-5569 | reading a string as code points loses nothing, not even with lone surrogates |
| CanonicalForm.DecodeIsTheOnlyReading | app/api/_conversationStore.ts:5567-5569 | the code points of a string are the only points that encode it and leave no surrogate pair apart |
| CanonicalForm.LessAtFirstDifference | app/api/_conversationStore.ts:5567-5576 | the lesser code point at the first difference decides, and a string comes after its beginnings |
| CodePoints.CompareUnicodeCodePoints | app/api/_conversationStore.ts:5567-5576 | the loop returns the difference at the first code point that differs, or of the lengths |
| CodePoints.ComparisonIsTotalOrder | app/api/_conversationStore.ts:5567-5576 | the comparison is a strict total order on strings, zero only on equal strings |
| CanonicalJson.CanonicalExactlyUpToOrder | app/api/_conversationStore.ts:5531-5565 | two values have equal canonical forms exactly when they are equal up to the order of object entries, at every depth |
| CanonicalJson.CanonicalIsSame | app/api/_conversationStore.ts:5531-5565 | a canonical form is the value itself up to that order |
| CanonicalJson.CanonicalIdempotent | app/api/_conversationStore.ts:5531-5565 | taking the canonical form twice is taking it once |
| CanonicalForm.CanonicalExactlyWhenWritable | app/api/_conversationStore.ts:5531-5565 | a value has a canonical form exactly when nothing in it is foreign to JSON and, where asked for, its numbers are safe integers |
| CanonicalForm.CanonicalKeysAscend | app/api/_conversationStore.ts:5531-5549 | in a canonical form the keys of every object ascend by code points, at every depth |
| DispatchInput.NormalizedIsScoped | app/api/_conversationStore.ts:5445-5485 | a normalized request is scoped by its thread or by its run |
| RequestFields.AcceptedExactlyWhenInOrder | app/api/_conversationStore.ts:5445-5502 | a request is accepted exactly when its producer is known, its fields are not blank, its identity is not too long, its scope fits, its payload carries its text and its actor is a customer; then it has the trimmed fields and the canonical payload |
| RequestFields.TrimExactly | app/api/_conversationStore.ts:5460-5467 | trimming takes white space off both ends and nothing else |
| RequestFields.OneTrim | app/api/_conversationStore.ts:5460-5467 | there is one way to do so |
| RequestFields.PayloadExactly | app/api/_conversationStore.ts:5480-5491 | a payload is accepted exactly when there is none, or it is an object that can be written whose message is the text |
| DispatchInput.ReorderedPayloadIsTheSameRequest | app/api/_conversationStore.ts:5445-5514 | a payload resent with its entries in another order, at any depth, gives the same normalized request, hence the same digest, and the same rejection |
| DispatchInput.DigestSeesContentOnly | app/api/_conversationStore.ts:5504-5514 | in one scope and thread, digests agree exactly when the payloads are equal up to entry order |
| DispatchInvariants.ClaimKeepsInv | app/api/_conversationStore.ts:1551-1665 | a claim keeps the store sound: references resolve, one dispatch per identity, one active dispatch per run, owners and epochs as the state demands, one settlement event per ended dispatch and none for others |
| DispatchInvariants.AcquireTouches | app/api/_conversationStore.ts:1734-1760 | acquiring changes nothing or one dispatch that had not ended |
| DispatchInvariants.FailTouches | app/api/_conversationStore.ts:1862-1902 | failing changes nothing or one dispatch that had not ended, its run's status and failure, and adds one settlement event |
| DispatchInvariants.ObserveExitTouches | app/api/_conversationStore.ts:2020-2060 | observing an exit changes nothing or one dispatch that had not ended, and settles it only if it ends |
| DispatchInvariants.CompleteTouches | app/api/_conversationStore.ts:2152-2191 | completing changes nothing or one dispatch that had not ended, its run's status, and adds one settlement event |
| DispatchInvariants.TouchKeepsInv | app/api/_conversationStore.ts:1734-1902 | such a change keeps the store sound |
| DispatchLaws.ReplayedClaim | app/api/_conversationStore.ts:1552-1576 | a claim of a used identity changes nothing and returns the stored message, run and dispatch, or a conflict if the content differs, or the owner error |
| DispatchLife.RepeatedRequestIsAnswered | app/api/_conversationStore.ts:1552-1576 | the same told by fields: same producer, scope, thread and payload by the thread's owner get what is kept, other content is a conflict, another actor is refused |
| DispatchLife.FreshMessageIsAccepted | app/api/_conversationStore.ts:1577-1665 | a fresh message is accepted exactly from the owner of an existing thread; the whole new store with its queued run, pending dispatch and two events |
| DispatchLife.FreshClarificationIsRefused | app/api/_conversationStore.ts:1577-1608 | what stands against a fresh clarification, in the order of the tests, and that nothing else does |
| DispatchLife.FreshClarificationIsStored | app/api/_conversationStore.ts:1609-1665 | the whole new store of an accepted clarification: message, pending dispatch and two events, with the run left waiting |
| DispatchLaws.ClaimTwice | app/api/_conversationStore.ts:1551-1665 | claiming again right away changes nothing and returns the same message, run and dispatch |
| DispatchLaws.ClaimStoresOrChangesNothing | app/api/_conversationStore.ts:1551-1665 | a new claim appends the text to the caller's own thread, adds one pending dispatch naming message, run and request, queues a run or takes the waiting one as it is, and appends two events; any other claim changes nothing |
| DispatchLaws.ClaimFindsItsRecords | app/api/_conversationStore.ts:1569-1575 | in a sound store the invariant error of a replay cannot occur |
| DispatchLaws.CompleteFindsAState | app/api/_conversationStore.ts:2158-2167 | in a sound store the state error of completing cannot occur |
| DispatchLaws.NotTheHolder | app/api/_conversationStore.ts:1868-1880 | whoever does not hold the lease of a working dispatch changes nothing by failing, observing or completing |
| DispatchLaws.AcquiredExactlyWhen | app/api/_conversationStore.ts:1734-1760 | a lease is granted exactly when the run can start and the dispatch is pending or leased to an owner whose time is up; the grant sets owner, next epoch and expiry and touches nothing else, a refusal touches nothing |
| DispatchLife.GrantedExactlyWhen | app/api/_conversationStore.ts:1734-1760 | a lease is granted exactly to a message while its run is queued, or to a clarification while its run waits, if the dispatch is pending or its lease has run out; the whole new store and answer |
| DispatchLife.RefusedBecause | app/api/_conversationStore.ts:1738-1752 | the reason of a refusal is that of the dispatch or its run, and no owner or new epoch is given away |
| DispatchLife.AcceptedMessageIsDispatched | app/api/_conversationStore.ts:1577-1760 | after every accepted message the first to ask for its lease gets it, under epoch one |
| DispatchLife.AcceptedClarificationIsDispatched | app/api/_conversationStore.ts:1577-1760 | and so after every accepted clarification |
| DispatchLife.MessageIsLeasedOnlyFromTheQueue | app/api/_conversationStore.ts:1745-1747 | once the run of a message has left the queue, its dispatch is never leased |
| DispatchLife.MessageRunsItsCourse | app/api/_conversationStore.ts:1577-2191 | accepted, leased and completed, a message leaves its run with the given status and three events in order |
| DispatchLife.CompletedExactly | app/api/_conversationStore.ts:2152-2191 | completing ends exactly the dispatch the caller works on; a queued, running or waiting run takes the status, any other keeps its own |
| DispatchLife.FailedExactly | app/api/_conversationStore.ts:1862-1902 | failing ends exactly that dispatch while its run is queued, running or waiting; the run fails with the reason unless it waits for this clarification |
| DispatchLife.ExitExactly | app/api/_conversationStore.ts:2020-2060 | an exit hands back exactly the dispatch of a clarification whose run still waits; otherwise it is a failure |
| DispatchLaws.HolderCompletes | app/api/_conversationStore.ts:2158-2191 | the holder of a working dispatch completes it with one settlement event, and the run takes the reported status only while unsettled |
| DispatchLaws.HolderFails | app/api/_conversationStore.ts:1868-1902 | the holder's failure changes nothing once the run is settled; until then it ends the dispatch with the reason and one settlement event, and fails the run unless it waits for the answer to a clarification |
| DispatchLaws.ClaimKeepsSettledRuns | app/api/_conversationStore.ts:1577-1665 | a claim never changes a run that is stored |
| DispatchLaws.HolderKeepsSettledRuns | app/api/_conversationStore.ts:1868-2191 | failing, observing and completing never change a run whose status is settled |
| DispatchLaws.FailedClarificationCanBeClaimedAgain | app/api/_conversationStore.ts:1881-1902 | after a clarification dispatch fails while its run waits, the run still waits, and its thread's owner can claim it with a fresh identity |
| DispatchLaws.ReleasedDispatchCanBeAcquired | app/api/_conversationStore.ts:2027-2051 | after an exit hands a dispatch back, the next acquisition succeeds with the next epoch |
| DispatchSystem.StepEvolves | app/api/_conversationStore.ts:1551-2191 | every step keeps the store sound; ended dispatches and settled runs never change again, epochs never fall, origins stay, and messages and events are only appended |
| DispatchSystem.EveryRunEvolves | app/api/_conversationStore.ts:1551-2191 | the same, settled runs included, from any state to any later state of any interleaving |
| DispatchSystem.EmptyStoreIsSound | app/api/_conversationStore.ts:1551-1552 | the store starts sound |
| DispatchSystem.ClaimIsIdempotentForever | app/api/_conversationStore.ts:1551-1576 | a claim that succeeded answers with its own message, run and dispatch after any further steps, and asking again changes nothing |
| LeaseFencing.EveryRunIsFenced | app/api/_conversationStore.ts:1734-2060 | in every reachable state each working dispatch is held by its latest grant, and each grant came after the previous one expired or was handed back |
| LeaseFencing.OneLiveLease | app/api/_conversationStore.ts:1748-1760 | no dispatch ever has two live leases, and no epoch of a dispatch has two owners |
| LeaseFencing.EpochCountsGrants | app/api/_conversationStore.ts:1754-1760 | the epoch of a dispatch is the number of leases granted on it |
| LeaseFencing.SupersededOwnerIsPowerless | app/api/_conversationStore.ts:1868-2164 | once another lease was granted or it was handed back, a lease lets its owner change nothing by failing, observing or completing |
| LeaseFencing.OnlyTheGranteeHandsBack | app/api/_conversationStore.ts:2027-2051 | a lease is handed back only by the owner it was granted to |
| MemoryStore.ConversationStore.ClaimRunDispatchRequest | app/api/_conversationStore.ts:1551-1665 | the method does to the store what the claim function does, returns its answer with the stored dispatch itself, and keeps the store sound |
| MemoryStore.ConversationStore.AcquireRunDispatchLease | app/api/_conversationStore.ts:1734-1760 | the method updates the dispatch as the acquire function says, returns its answer, and keeps the store sound |
| MemoryStore.ConversationStore.FailOwnedRunDispatch | app/api/_conversationStore.ts:1862-1902 | the method does what the fail function says and keeps the store sound |
| MemoryStore.ConversationStore.ObserveOwnedRunDispatchExit | app/api/_conversationStore.ts:2020-2060 | the method hands the dispatch back or fails it as the function says, with the default reason, and keeps the store sound |
| MemoryStore.ConversationStore.CompleteOwnedRunDispatch | app/api/_conversationStore.ts:2152-2191 | the method does what the complete function says and keeps the store sound |
| MemoryStore.ConversationStore.ReplayExisting | app/api/_conversationStore.ts:1557-1576 | the answer to a used identity, read from the records |
| MemoryStore.ConversationStore.RunToClaim | app/api/_conversationStore.ts:1577-1608 | the run a new dispatch is for, or the error |
| MemoryStore.ConversationStore.AddClaim | app/api/_conversationStore.ts:1609-1665 | message, run, dispatch and events of a new claim are stored and nothing else changes |
| MemoryStore.ConversationStore.StoreFailure | app/api/_conversationStore.ts:1881-1902 | the ending of a failed dispatch, with the waiting run preserved |
| MemoryStore.ConversationStore.StoreRelease | app/api/_conversationStore.ts:2034-2054 | the dispatch goes back to pending with a recovery event |
| MemoryStore.ConversationStore.StoreCompletion | app/api/_conversationStore.ts:2168-2191 | the ending of a completed dispatch |
| References.UniqueTextsAreDistinct | app/api/_conversationStore.ts:6363-6367 | comparing the size of a set with the length of the list decides that no string comes twice |
| References.SameTextSetIsEquality | app/api/_conversationStore.ts:6369-6375 | on a list without repetitions, equal size and membership one way mean equal sets |
| References.SameTextSetNeedsDistinctValues | app/api/_conversationStore.ts:6369-6375 | without that guard the comparison accepts lists that leave members out |
| ExecutionClosure.CollectObligations | app/api/_conversationStore.ts:6137-6156 | the loop accepts exactly obligations with distinct identifiers and collects these |
| ExecutionClosure.CollectEdges | app/api/_conversationStore.ts:6172-6184 | the loop accepts exactly edges to known obligations, each once |
| ExecutionClosure.CheckTask | app/api/_conversationStore.ts:6159-6191 | a task is accepted exactly when its fields agree, its edges are sound and it supports only obligations it has edges to |
| ExecutionClosure.IndexTasks | app/api/_conversationStore.ts:6158-6193 | the loop accepts exactly sound tasks with distinct identifiers and maps each identifier to its task |
| GatewayResult.CheckEntries | app/api/_conversationStore.ts:6279-6310 | the loop accepts exactly entries for this outcome, with state and kind in the vocabulary, whose references are new, and collects these |
| GatewayResult.CheckEvidence | app/api/_conversationStore.ts:6279-6313 | an outcome has exactly one entry for each evidence it names |
| GatewayResult.CheckFailures | app/api/_conversationStore.ts:6315-6336 | the loop accepts exactly failure records for this attempt whose references are new, and collects these |
| GatewayResult.CheckNamedFailures | app/api/_conversationStore.ts:6315-6342 | there is exactly the failure record the outcome names, or none |
| GatewayResult.CheckBundle | app/api/_conversationStore.ts:6201-6343 | a bundle is accepted exactly when it attempts a planned task, closes over itself and shares nothing with earlier bundles |
| GatewayResult.CheckBundles | app/api/_conversationStore.ts:6195-6343 | one pass accepts exactly bundles that close and share no task, attempt, outcome, entry or failure, and gathers all references and the budget |
| ExecutionClosure.ExhaustedByCounting | app/api/_conversationStore.ts:6346-6349 | the number of attempted tasks equals that of the plan exactly when every task was attempted |
| GatewayResult.HasExecutionProjectionClosure | app/api/_conversationStore.ts:6098-6361 | the single pass returns true exactly when the result is closed, as declared over the whole reference graph, and its words are in the vocabulary |
| GatewayResult.IsExecutionProjectionAuthority | app/api/_conversationStore.ts:5991-6065 | the gateway takes exactly the results in the right frame that its pass accepts |
| ClosureByProperty.ClosedByProperty | app/api/_conversationStore.ts:6098-6361 | closure told by property instead of by record: everything belongs to one result, is well formed, is supported by the plan, occurs once and is accounted for; a result is closed exactly when it has these properties |
| VerdictsByProperty.GatewayByProperty | app/api/_conversationStore.ts:5991-6065 | the gateway takes exactly framed results with these properties whose reason, states and kinds read as the listed words |
| VerdictsByProperty.TextHasInk | app/api/_conversationStore.ts:5665-5667 | a text counts exactly when some code unit of it is not one of the listed white spaces |
| VerdictsByProperty.TakenCountsUnits | app/api/_conversationStore.ts:6274-6355 | what either validator takes states the sum of the units of its outcomes as the budget used, and a hard budget that was reached is at most that sum |
| VerdictsByProperty.OneBundleMoreCostsItsUnits | app/api/_conversationStore.ts:6274-6345 | one bundle more raises the budget to be stated by exactly its own units |
| VerdictsByProperty.NoOtherBudgetCloses | app/api/_conversationStore.ts:6345 | a closed result stays closed with no other number for its budget |
| ClosureOrder.OrderDoesNotMatter | app/api/_conversationStore.ts:6098-6361 | closure is unchanged when bundles, tasks and obligations come in another order |
| ClosureOrder.InnerOrderDoesNotMatter | app/api/_conversationStore.ts:6098-6361 | nor when entries and failures within bundles, edges within tasks and all lists of references do |
| ClosureLaws.TasksAndBundles | app/api/_conversationStore.ts:6195-6357 | in a closed result each bundle has its own task and outcome; there are as many bundles as tasks exactly when every task was attempted, as an exhausted plan demands |
| ClosureLaws.OneBundlePerTask | app/api/_conversationStore.ts:6346-6349 | when the plan is exhausted each task has exactly one bundle |
| ClosureLaws.EveryEntryHasOneBundle | app/api/_conversationStore.ts:6271-6359 | the snapshot names exactly the entries of the bundles, and each is held by one bundle |
| ClosureLaws.FailuresAreThoseNamed | app/api/_conversationStore.ts:6313-6360 | the snapshot lists exactly the failures that outcomes name, and each is named by one outcome |
| AgentCoreResult.CheckEntries | app/api/_agentCore.ts:899-932 | the agent core's loop accepts exactly entries for this outcome, with a state and a kind in any words, whose references are new |
| AgentCoreResult.CheckFailures | app/api/_agentCore.ts:935-957 | its loop over failure records accepts exactly those for this attempt whose references are new |
| AgentCoreResult.CheckBundle | app/api/_agentCore.ts:831-961 | its tests of one bundle, on coerced values and in its own order, decide that the bundle closes, is stated and digested, and shares nothing with earlier ones |
| AgentCoreResult.CheckBundles | app/api/_agentCore.ts:825-962 | its loop decides all bundles and gathers what they hold |
| AgentCoreResult.NoTaskWithoutName | app/api/_agentCore.ts:822-824 | a missing task identifier, coerced to the empty string, never finds a task |
| AgentCoreResult.IsValidAuthoritativeExecutionResult | app/api/_agentCore.ts:692-980 | the agent core accepts exactly closed results of this run in the right frame that give a reason, state their evidence and carry their digests |
| VerdictsByProperty.AgentCoreByProperty | app/api/_agentCore.ts:692-980 | the agent core accepts for a run exactly the framed results of it with these properties whose digests are digests and whose reason, states and kinds are texts |
| ResultValidators.WhatTheGatewayTakes | app/api/_conversationStore.ts:5977-6065 | of what the agent core has accepted the gateway takes exactly the results whose stop reason, execution states and evidence kinds are in its vocabulary |
| ResultValidators.WhatTheAgentCoreAccepts | app/api/_agentCore.ts:692-980 | of what the gateway takes the agent core accepts exactly the results of that run whose reason, states and kinds are strings and whose digests are digests |
| ResultValidators.VerdictsForgetOrder | app/api/_agentCore.ts:692-980 | neither verdict changes with the order of parts, at the outer or the inner level |
| ResultValidators.AgentCoreTakesOtherReasons | app/api/_agentCore.ts:692-765 | a result with a reason of its own that the agent core accepts and the gateway does not |
| ResultValidators.GatewayTakesAReasonInAnArray | app/api/_conversationStore.ts:6133-6135 | a result with a reason inside an array that the gateway takes and the agent core does not |
| StableSort.SortForgetsArrivalOrder | app/api/_conversationStore.ts:6377-6470 | a stably sorted list is the same for every arrival order exactly when no two members tie |
| CustomerView.ViewForgetsOrder | app/api/_conversationStore.ts:6377-6496 | the customer's view of a closed result, in all its fields, is the same for every order of tasks, obligations, bundles, entries and failures exactly when the collation tells the identifiers of each list apart |
| CustomerViewContents.TakenIsShowable | app/api/_conversationStore.ts:6474-6496 | whatever the gateway takes can be shown, and its view names its result, plan revision and snapshot |
| CustomerViewContents.ViewShowsTasks | app/api/_conversationStore.ts:6380-6392 | the tasks of the view are exactly those of the plan, each with its fields and needs, in the order of their identifiers |
| CustomerViewContents.ViewShowsObligations | app/api/_conversationStore.ts:6393-6414 | the obligations of the view are exactly those of the plan with their fields, in order |
| CustomerViewContents.ViewShowsOutcomes | app/api/_conversationStore.ts:6416-6429 | the outcomes of the view are exactly those of the bundles with their fields, in order |
| CustomerViewContents.ViewShowsEvidence | app/api/_conversationStore.ts:6430-6456 | the evidence of the view is exactly that of all bundles with its fields, in order |
| CustomerViewContents.ViewShowsFailures | app/api/_conversationStore.ts:6457-6469 | the failures of the view are exactly those of all bundles with their fields, in order |
| CustomerViewContents.ViewShowsLimitations | app/api/_conversationStore.ts:6470-6473 | the limitations of the view are exactly those that an outcome or an entry names, each once, in the order of code units |
| CustomerViewContents.ViewShowsStop | app/api/_conversationStore.ts:6474-6496 | the stop of the view is the stop record with its reason, outcomes, budget and limit |
| TiedIdentifiers.TiesShowTheOrder | app/api/_conversationStore.ts:6377-6496 | a closed result and a collation under which it has two views |
| MemberShares.AnnotateShares | bi_agent/capabilities/candidate_dimension_screen.py:589-631 | the loop rewrites every member with its shares, expected amount and excess, from totals it does not disturb |
| DimensionFigures.AnnotatedExactly | bi_agent/capabilities/candidate_dimension_screen.py:603-628 | shares give the amounts back, the expected target is the baseline share of the whole, and the excess is what the target has beyond it; nothing where the total is zero |
| MemberShares.ExcessIsShareShift | bi_agent/capabilities/candidate_dimension_screen.py:603-628 | the excess of a member is the target total times its shift in share |
| MemberShares.ExcessSumsToZero | bi_agent/capabilities/candidate_dimension_screen.py:603-628 | over all members the excess adds up to zero |
| MemberShares.MovementIsWhatChangedHands | bi_agent/capabilities/candidate_dimension_screen.py:690-708 | what some members gained equals what the others lost, and either is the excess movement |
| MemberShares.MovementOnTheScaleOfShares | bi_agent/capabilities/candidate_dimension_screen.py:706-720 | excess movement is the size of the target total times the differentiation score |
| MemberShares.WhenTheMeasuresAgree | bi_agent/capabilities/candidate_dimension_screen.py:706-720 | that identity holds exactly when the target total is not zero or no measured member has a target amount |
| MemberShares.TheMeasuresCanPartCompany | bi_agent/capabilities/candidate_dimension_screen.py:706-720 | two members with a target total of zero where the two figures differ |
| DifferentiationScore.ScoreIsWhatIsNotKept | bi_agent/capabilities/candidate_dimension_screen.py:709-720 | whatever the signs, the score is one less what the members keep: the lesser of the two shares of a measured member, the mean of both of any other |
| DifferentiationScore.ProportionExactlyWhenKept | bi_agent/capabilities/candidate_dimension_screen.py:709-720 | the score lies in [0, 1] exactly when what the members keep is not negative in total, or a total is zero |
| DifferentiationScore.AlwaysProportionExactly | bi_agent/capabilities/candidate_dimension_screen.py:709-720 | the score is at most one for every target without negative amounts exactly when the baseline total is zero or the baseline shares leave room on whichever member the target falls |
| DifferentiationScore.MeasuredMembersNeedSharesOfOneSign | bi_agent/capabilities/candidate_dimension_screen.py:709-720 | when all members are measured, that is exactly when no baseline share is negative |
| DifferentiationScore.DifferentiationBounds | bi_agent/capabilities/candidate_dimension_screen.py:709-720 | without negative amounts the score lies in [0, 1] |
| DifferentiationScore.DifferentiationBeyondOne | bi_agent/capabilities/candidate_dimension_screen.py:709-720 | whatever the signs, the score exceeds one by no more than the negative shares of the two periods |
| RefundedDimension.RefundBreaksTheBound | bi_agent/capabilities/candidate_dimension_screen.py:458-766 | three rows with one refund in the baseline, whose members as the profile makes them have a score of two and a priority of 1.4375 |
| MemberShares.RatioBounds | bi_agent/capabilities/candidate_dimension_screen.py:721-727 | the excess change ratio lies in [0, 1] for all amounts and tolerances, and is one exactly when the movement reaches the reference |
| MemberShares.CoverageBounds | bi_agent/capabilities/candidate_dimension_screen.py:632-684 | the coverage by the leading factor lies in [0, 1] |
| DimensionFigures.MovementExactly | bi_agent/capabilities/candidate_dimension_screen.py:690-708 | twice the excess movement is the sum, over members sampled enough and known by name, of how far their target amounts are from their baseline amounts grown like the whole |
| DimensionFigures.DifferentiationExactly | bi_agent/capabilities/candidate_dimension_screen.py:709-720 | twice the differentiation is the sum over these members of how far their shares are apart |
| DimensionFigures.RatioExactly | bi_agent/capabilities/candidate_dimension_screen.py:721-727 | the change ratio is the excess movement over the greatest of the net change, the tolerance on either total and 1e-12, but at most one |
| DimensionFigures.CoverageExactly | bi_agent/capabilities/candidate_dimension_screen.py:632-684 | the coverage is the share that members aligned with the factor have in the movement of these members, zero if none moved |
| DimensionFigures.CellExactly | bi_agent/capabilities/candidate_dimension_screen.py:477-509 | a cell adds up amounts, orders and users of exactly the rows of its member and period that have an amount |
| DimensionCells.PairRows | bi_agent/capabilities/candidate_dimension_screen.py:477-509 | the loop sorts valid rows into cells that hold their exact sums, observed flags and samples, lists the members in first-seen order, and counts the invalid rows |
| DimensionCells.MeasureMembers | bi_agent/capabilities/candidate_dimension_screen.py:510-587 | members are made from the cells of all values, or of the values seen in both periods when the window is incomplete |
| DimensionCells.AmountsAreConserved | bi_agent/capabilities/candidate_dimension_screen.py:477-590 | amounts of members and of dropped values add up to the valid rows of the period; a complete window drops nothing |
| DiagnosticPriority.Explain | bi_agent/capabilities/candidate_dimension_screen.py:910-949 | the loop explains every component, and the score is the mean of the measured ones under the base weights |
| DimensionFigures.WeightsExactly | bi_agent/capabilities/candidate_dimension_screen.py:896-966 | the weights of the components and what each contributes, with a leading factor and without |
| DiagnosticPriority.ReportAddsUp | bi_agent/capabilities/candidate_dimension_screen.py:910-949 | the reported weights add up to one and the reported contributions to the score, and every value is reported as measured |
| DiagnosticPriority.ScoreBetweenComponents | bi_agent/capabilities/candidate_dimension_screen.py:910-949 | the score lies between the least and the greatest measured component |
| DiagnosticPriority.PriorityIsAProportion | bi_agent/capabilities/candidate_dimension_screen.py:690-766 | the final score is never negative, and at most one when the differentiation score is |
| DiagnosticPriority.ScoreWithLeadingFactor | bi_agent/capabilities/candidate_dimension_screen.py:24-28 | with a leading factor the score is 0.45, 0.35 and 0.20 of the components |
| DiagnosticPriority.ScoreWithoutLeadingFactor | bi_agent/capabilities/candidate_dimension_screen.py:910-949 | without one the other two keep their proportion of nine to seven |
| DimensionProfile.ProfileDimension | bi_agent/capabilities/candidate_dimension_screen.py:458-766 | from rows to score: the members are those of the rows in first-seen order with their derived fields, each figure is the measure of its name over them, the priority is their weighted mean, a complete window has the totals of the rows, and the priority is a proportion when the differentiation score is, which it is without negative amounts |
| Hierarchy.ByDimension | bi_agent/capabilities/candidate_dimension_screen.py:971-975 | the index holds the named dimensions and each under its own name |
| Hierarchy.DepthIsChainLength | bi_agent/capabilities/candidate_dimension_screen.py:977-990 | where the chain of parents ends, the depth is its length |
| Hierarchy.DepthOfParentPlusOne | bi_agent/capabilities/candidate_dimension_screen.py:977-993 | without circles a dimension lies one level below its parent and a root at level zero |
| Hierarchy.AncestorDimensions | bi_agent/capabilities/candidate_dimension_screen.py:1142-1158 | the loop ends on any parents, circular ones included, and collects what the walk function says |
| Hierarchy.DepthCountsAncestors | bi_agent/capabilities/candidate_dimension_screen.py:968-1158 | the depth is the number of ancestors exactly when the chain ends or returns to the dimension itself; otherwise it is one more |
| Hierarchy.DepthCanExceedAncestors | bi_agent/capabilities/candidate_dimension_screen.py:968-1158 | three dimensions on which the two differ |
| HierarchyPaths.IndexChildren | bi_agent/capabilities/candidate_dimension_screen.py:1089-1101 | the loop finds the roots and lists the children of every dimension |
| HierarchyPaths.DescendantsAreChildren | bi_agent/capabilities/candidate_dimension_screen.py:1111-1112 | the dimensions visited below one are those whose parent it is, each once |
| HierarchyPaths.VisitMakesPaths | bi_agent/capabilities/candidate_dimension_screen.py:1104-1117 | on any parents every path reported follows edges, repeats nothing unless its last step closes a circle, and otherwise ends at a leaf |
| HierarchyPaths.VisitFollows | bi_agent/capabilities/candidate_dimension_screen.py:1104-1117 | every walk along edges is the beginning of a reported path |
| HierarchyPaths.VisitReports | bi_agent/capabilities/candidate_dimension_screen.py:1104-1117 | every path that goes on from the one so far is reported, so that a visit reports exactly the paths from its dimension |
| HierarchyPaths.VisitInOrder | bi_agent/capabilities/candidate_dimension_screen.py:1104-1117 | the paths of a visit are reported in the order of their dimensions' names, without a repetition |
| HierarchyPaths.RootsCoverWhatEnds | bi_agent/capabilities/candidate_dimension_screen.py:1119-1123 | the visits from the roots pass exactly the dimensions whose chain of parents stops |
| HierarchyPaths.HierarchyDimensionPaths | bi_agent/capabilities/candidate_dimension_screen.py:1086-1124 | on any parents the paths are exactly those that start at a root or where the chain of parents never stops, each once, those from roots first and either part in the order of names; every dimension is covered |
| HierarchyByParents.ReportedExactly | bi_agent/capabilities/candidate_dimension_screen.py:1086-1124 | the same told by the parents that profiles name: each dimension of a path names the one before it, the path goes as far as it can without coming twice to one, and it starts where nothing is known above, or on or below a circle |
| HierarchyByParents.EndlessExactly | bi_agent/capabilities/candidate_dimension_screen.py:1118-1123 | the chain of parents never stops exactly for the dimensions among some that have their parents among them |
| HierarchyPaths.PathsAreAlphabetical | bi_agent/capabilities/candidate_dimension_screen.py:1104-1124 | two paths in order part at the name with the lesser character at its first difference |
| HierarchyPaths.ReportWithoutCircles | bi_agent/capabilities/candidate_dimension_screen.py:1086-1124 | without circles they are exactly the ways from a root to a leaf, all in the order of names |
| HierarchyPaths.OnePathPerLeaf | bi_agent/capabilities/candidate_dimension_screen.py:1086-1124 | without circles a leaf has one path from a root |
| RelatedReadouts.AncestorsAreTheChain | bi_agent/capabilities/candidate_dimension_screen.py:1142-1158 | the ancestors are exactly the dimensions on the chain of parents, whatever its shape |
| RelatedReadouts.RelatedMeansOnOnePath | bi_agent/capabilities/candidate_dimension_screen.py:1160-1171 | on any parents the dimensions read together with another are those that share a reported path with it |
| CrosswalkMapping.NormalizedGroupIndex | bi_agent/capabilities/candidate_crosswalk.py:234-250 | the loop maps each name to the set of groups it stands for and counts the rows without a name |
| CrosswalkMapping.AcceptedExactlyWhenUnambiguous | bi_agent/capabilities/candidate_crosswalk.py:64-74 | a pair is accepted under a name exactly when the name stands for one group on each side |
| CrosswalkMapping.AcceptedIsABijection | bi_agent/capabilities/candidate_crosswalk.py:64-80 | no group of either side is in two accepted pairs |
| CrosswalkMapping.LeftsMapBack | bi_agent/capabilities/candidate_crosswalk.py:75-77 | the inverse map of the left side is injective and undoes the pairs |
| CrosswalkMapping.RightsMapBack | bi_agent/capabilities/candidate_crosswalk.py:78-80 | the same on the right side |
| CrosswalkMapping.CountsAddUp | bi_agent/capabilities/candidate_crosswalk.py:116-141 | accepted pairs and unmatched groups add up to the distinct groups, on each side |
| CrosswalkCells.GroupBySource | bi_agent/capabilities/candidate_crosswalk.py:280-285 | the loop sorts the rows into source cells without losing or repeating one |
| CrosswalkCells.NoCellIsOverwritten | bi_agent/capabilities/candidate_crosswalk.py:299-316 | a source cell still to come never meets an aggregated cell that is there |
| CrosswalkCells.AggregateSourceCells | bi_agent/capabilities/candidate_crosswalk.py:271-316 | an error exactly when a ratio metric meets two rows of one time and group; otherwise one cell per time and name, aggregated from all its rows |
| CrosswalkCells.RatioIsThatOfItsOnlyRow | bi_agent/capabilities/candidate_crosswalk.py:304-315 | a ratio metric shows the value of the one row of its cell |
| CrosswalkCells.AlignedRows | bi_agent/capabilities/candidate_crosswalk.py:319-363 | one row for each cell of either side, with what each side holds |
| CrosswalkFigures.RowsAlignExactly | bi_agent/capabilities/candidate_crosswalk.py:271-363 | one aligned row for each time and accepted name of which either source has a row, in order, each showing of both sources the sum, or the only value, of every metric in its group of the pair |
| CrosswalkCells.AligningConserves | bi_agent/capabilities/candidate_crosswalk.py:271-363 | on each side a summed metric over the aligned rows adds up to the source rows of mapped groups |
| CrosswalkCoverage.MetricCoverages | bi_agent/capabilities/candidate_crosswalk.py:366-401 | the loop gives each metric the coverage of its strategy |
| CrosswalkCoverage.MatchedIsAligned | bi_agent/capabilities/candidate_crosswalk.py:366-401 | of a summed metric the matched mass equals what is aligned exactly when no mapped value is negative, is never less, and coverage is a proportion |
| CrosswalkCoverage.RefundIsMatched | bi_agent/capabilities/candidate_crosswalk.py:366-401 | a refund for which a mass of one matches and minus one is aligned |
| CrosswalkCoverage.MatchedIsShown | bi_agent/capabilities/candidate_crosswalk.py:271-401 | of a ratio the matched count is the number of aligned cells that show it, and coverage is a proportion |
| CrosswalkFigures.CoverageExactly | bi_agent/capabilities/candidate_crosswalk.py:366-401 | of a summed metric the total is the mass of absolute values of the rows that have it, of a ratio their number; matched is the same over mapped groups, and the coverage its share |
| CrosswalkSummary.CountAmbiguous | bi_agent/capabilities/candidate_crosswalk.py:106-135 | the loop counts the groups whose name stands for several |
| CrosswalkSummary.AmbiguousAreThoseOfRows | bi_agent/capabilities/candidate_crosswalk.py:106-135 | ambiguous names and groups are those of the rows that share a name with another group |
| CrosswalkSummary.AmbiguousAreUnmatched | bi_agent/capabilities/candidate_crosswalk.py:106-115 | no group with an ambiguous name is in a pair |
| CandidateCrosswalk.Summarise | bi_agent/capabilities/candidate_crosswalk.py:106-145 | one side of the summary: distinct, unmatched and ambiguous groups, nameless rows and coverage are those of its rows |
| CandidateCrosswalk.BuildCrosswalk | bi_agent/capabilities/candidate_crosswalk.py:54-172 | the whole capability: when it refuses, which pairs it accepts, that they are a partial bijection, that summed metrics are conserved, and both sides of the summary |
| TimeSeries.PrepareRows | bi_agent/capabilities/change_point_scan.py:214-242 | the loop accepts exactly readable rows with distinct times of one family and sorts them by time; otherwise it reports the error of the first row that does not fit |
| TimeSeries.OneError | bi_agent/capabilities/change_point_scan.py:214-242 | rows that are not acceptable are rejected with exactly one error |
| TimeSeries.FailsExactly | bi_agent/capabilities/change_point_scan.py:214-242 | after acceptable rows the next one fails with exactly the first fault it has: shape, missing or invalid fields, a time seen before, another family |
| TimeSeries.SeriesForgetsRowOrder | bi_agent/capabilities/change_point_scan.py:214-242 | acceptance and series do not depend on the order of the rows |
| TimeSeries.SeriesAscends | bi_agent/capabilities/change_point_scan.py:242 | times of the series strictly ascend |
| ChangePoint.RelativeShiftAtMostTwo | bi_agent/capabilities/change_point_scan.py:90-102 | a relative shift lies in [0, 2] |
| ChangePoint.RootsCompareAsSquares | bi_agent/capabilities/change_point_scan.py:103-148 | comparing square roots is comparing squares |
| ChangePoint.RankingIsStrict | bi_agent/capabilities/change_point_scan.py:166-177 | the ranking key is a strict order in which different splits never tie |
| ChangePoint.BestSplitsAreReported | bi_agent/capabilities/change_point_scan.py:76-177 | the report is exactly the best of all splits that leave enough samples and meet both thresholds, in strictly falling order |
| ChangePointReport.ReportHoldsShifts | bi_agent/capabilities/change_point_scan.py:76-177 | only level shifts are reported, each once and no more than asked for, and all of them if there is room |
| ChangePointReport.ReportFollowsTheKey | bi_agent/capabilities/change_point_scan.py:166-177 | a shift comes before another, or instead of it, by this: between constant stretches first, then the greater standardized shift, then the greater relative shift, then the earlier split |
| ChangePointReport.FirstIsStrongest | bi_agent/capabilities/change_point_scan.py:166-177 | something is reported if there is a shift, and the first one has the greatest standardized shift of all unless it is between constant stretches |
| ChangePointReport.FoundExactlyWhenShift | bi_agent/capabilities/change_point_scan.py:82-150 | a split qualifies exactly when its means differ by at least the relative threshold times the larger one and by at least the other threshold times the standard error |
| ChangePointReport.MeritOfSplit | bi_agent/capabilities/change_point_scan.py:82-150 | what is said of a split, by products instead of quotients of means and uncertainty |
| ChangePointReport.VarianceBySums | bi_agent/capabilities/change_point_scan.py:277-291 | the variance is the sample variance of the sums of values and squares, with its divisor of one less than the count |
| ChangePointReport.ParametersExactly | bi_agent/capabilities/change_point_scan.py:340-368 | which parameters are accepted, and which fault is named first |
| ChangePoint.Scan | bi_agent/capabilities/change_point_scan.py:76-177 | the loop over splits, the sort and the cut return that report |
| ChangePoint.ChangePointScan | bi_agent/capabilities/change_point_scan.py:17-211 | the whole capability with its parameter errors in their order, the error of the first row that does not fit, and the insufficient case; there is always a split to test otherwise |
| ChangePointReport.ValuesInOrderOfTime | bi_agent/capabilities/change_point_scan.py:77 | the values scanned are those of the rows in the order of their times, however the rows came |
| ChangePoint.MeritScaled | bi_agent/capabilities/change_point_scan.py:82-148 | the ranking key of a split is the same after multiplying all values by a number that is not zero |
| ChangePoint.UnitDoesNotMatter | bi_agent/capabilities/change_point_scan.py:76-177 | such a change of unit or sign keeps the same splits in the same order |
| ChangePoint.RowOrderDoesNotMatter | bi_agent/capabilities/change_point_scan.py:214-242 | rows in another order give the same values to scan |
| Chronology.HasCompleteNodeChronology | app/api/_customerRunProjection.ts:1455-1469 | the loop returns true exactly when every node has a start and an end and none starts before the previous one has ended |
| Chronology.NodesAreDisjoint | app/api/_customerRunProjection.ts:1455-1469 | nodes of a complete chronology are pairwise ordered and do not overlap |
| Chronology.DurationOfChronology | app/api/_customerRunProjection.ts:1471-1483 | the duration is the last end minus the first start, absent when no time passes |
| Chronology.DurationExactly | app/api/_customerRunProjection.ts:1471-1483 | whatever times are known, the duration is the time from the first start to the last finish, if some has passed |
| Chronology.NodesFitInTheWhole | app/api/_customerRunProjection.ts:1455-1483 | the durations of the nodes add up to at most the whole, and to the whole exactly when there are no pauses |
| Chronology.ProjectTrace | app/api/_customerRunProjection.ts:387-414 | event replay exactly for accepted transitions with a complete chronology of positive duration, and then the chronology is known |
| Chronology.InsertPublicationNodes | app/api/_customerRunProjection.ts:833-846 | the loop puts the publication nodes right after the stages they belong to and notes which stages it met |
| Chronology.AppendPublicationNodes | app/api/_customerRunProjection.ts:777-861 | an error exactly when a stage is missing; the nodes are numbered, and replay is decided on all of them |
| Chronology.PublicationKeepsNodes | app/api/_customerRunProjection.ts:777-861 | appending a publication adds nodes of its own stages and no others: what is left without them is what was there |
| Chronology.ReplayedPublicationIsOrdered | app/api/_customerRunProjection.ts:836-860 | in a replayed publication the authority is sealed after each settlement, and each narrative is followed in time by publication and delivery |
| Chronology.PendingNeverReplays | app/api/_customerRunProjection.ts:812-830 | a publication whose delivery is pending is never replayed |
| Chronology.ChronologicalExactlyWhenItFits | app/api/_customerRunProjection.ts:833-861 | a published trace is chronological exactly when its nodes are timed and sealing, publication and delivery fit between their stage and the next node, whatever the trace was before |
| Chronology.PublishedSnapshotCanReplay | app/api/_customerRunProjection.ts:387-861 | two snapshot nodes, which never replay alone, for which this holds |
| PlaybackSchedule.EntryBounds | app/agent-run-workbench/AgentRunWorkbench.tsx:1127-1128 | later times are shown no earlier, within [1, 10000], and the whole ends at its length or at 10000 |
| PlaybackSchedule.EveryReplayHasASchedule | app/agent-run-workbench/AgentRunWorkbench.tsx:1114-1134 | whatever the server marks as event replay has a schedule: one entry per node, not decreasing, each in [1, 10000] |
| PlaybackPace.ReplayKeepsPace | app/agent-run-workbench/AgentRunWorkbench.tsx:1114-1129 | in a replay of at most ten seconds each node appears after its own elapsed time, at least one millisecond; in a longer one after its share of ten seconds to the nearest millisecond, halves upwards |
| PlaybackPace.ScheduleKeepsPace | app/agent-run-workbench/AgentRunWorkbench.tsx:1114-1134 | there is a schedule exactly for a replay whose nodes appear in order and take time, and each entry keeps that pace |
| PlaybackPace.PaceIsExact | app/agent-run-workbench/AgentRunWorkbench.tsx:1127-1128 | one entry only keeps that pace |
| PlaybackPace.UntimedHasNoSchedule | app/agent-run-workbench/AgentRunWorkbench.tsx:1117-1119 | without a time for every node there is no schedule |
| PlaybackSchedule.ProjectAndSchedule | app/agent-run-workbench/AgentRunWorkbench.tsx:1114-1129 | for a projected trace the client has a schedule exactly when the server says event replay |
| PlaybackSchedule.PublishAndSchedule | app/agent-run-workbench/AgentRunWorkbench.tsx:1114-1129 | the same with a publication, and never while delivery is pending |
| BudgetLedger.BoundedInteger | app/api/_sseBudget.ts:53-67 | a setting is its number within the bounds, the fallback, or an error |
| BudgetLimits.LimitsExactly | app/api/_sseBudget.ts:22-67 | which numbers are in effect: 128 streams unless 1 to 4096 are set, 4 for each actor unless 1 to 32 are, and 300000 milliseconds unless 10000 to 1800000 are |
| BudgetLimits.AcquireExactly | app/api/_sseBudget.ts:17-36 | a slot is taken exactly when both limits are numbers within their bounds and leave room, and a lease is handed out exactly when the lifetime is one as well; nobody else's count changes |
| SseBudget.Budget.Acquire | app/api/_sseBudget.ts:17-36 | a lease exactly when all settings are valid and both limits leave room, with the error otherwise; the whole new state, in which a slot is lost when only the lifetime setting is invalid; limits that held keep holding |
| BudgetLedger.EveryRunStaysWithin | app/api/_sseBudget.ts:17-47 | over every sequence of acquisitions and releases under limits of at most these, the counters stay within them |
| BudgetLedger.LeasesStayWithin | app/api/_sseBudget.ts:17-47 | nor are more leases ever out, in all and for each actor, than the limits allow |
| BudgetLedger.EveryRunAccounts | app/api/_sseBudget.ts:17-47 | over every sequence the counters count, in all and for each actor, the leases that are out and the slots lost, and no actor keeps an entry of zero |
| BudgetLedger.CountsLeasesExactlyWhenNoneLost | app/api/_sseBudget.ts:22-47 | the counters count the leases that are out, in all and for each actor, exactly when no acquisition with room was made while the lifetime setting was invalid |
| BudgetLedger.LostSlotsRefuse | app/api/_sseBudget.ts:22-47 | lost slots never come back: once there are as many as the limit, every acquisition is refused whatever is released |
| BudgetLedger.OneSlotIsLost | app/api/_sseBudget.ts:22-36 | a single acquisition that loses a slot |
| BudgetLedger.ActorsAddUp | app/api/_sseBudget.ts:22-47 | over every sequence the counts of the actors add up to the total |
| SseBudget.Budget.CountsItsLeases | app/api/_sseBudget.ts:22-47 | this holds of the counters of every budget object and the leases it handed out |
| SseBudget.Lease.Release | app/api/_sseBudget.ts:38-46 | the first call gives back one slot and no clamp changes a value; later calls change nothing; limits that held keep holding |

## Left out

- The Postgres branches of the store: SQL, row locks and pooling. They differ from the in-memory branches (an extra branch that resumes, an error where memory fails a waiting run of a thread message, a pending state admitted on completion), so nothing here is claimed of them.
- IEEE rounding and overflow; numbers are exact. The incomplete beta function strictly between its end points (its continued fraction and `lgamma`) is a parameter of the p-value.
- SHA-256, which stands for an injective function of the canonical value; JavaScript's own ordering of integer-like keys, as objects are lists of entries.
- Which keys an object has (`hasExactFields` and its kind): records carry flags for being an object, an array or complete. A value that is read through `String(...)` is a string or an array that reads as one; in a result that the gateway takes no other value is read so.
- The agent core's callers of its validator; the gateway's view of a result whose authority was not accepted.
- Identifiers drawn at random are assumed unused; that `crypto.randomUUID` never repeats is not part of this model.
- The configuration of the lease length, which is refused before a store is read unless it is a positive number.
- Unicode case folding and classification: the normalization rules of a crosswalk side are a function of the group, and members and groups arrive stripped of white space.
- Columns of an aligned row that carry the same name as a metric column (`left_group`, say, for a metric called `group`): aligned rows are records here, so such a collision cannot show.
- Places of times within a family are numbers; that ISO texts are compared as texts is not modelled.
- Which factor a segment's change aligns with is a parameter of the coverage; reconciliation, limitations, labels and the selection of segments to display are not modelled.
- The selection of candidates, the aliases of transforms, the ranking of supported hypotheses and the evidence boundaries of the association capability. The logarithm is a parameter.
- Execution and lifecycle projection, publication parsing, React components, HTTP and streaming, Python workers other than as environment steps.
- MemoryStore.ConversationStore.ClaimRunDispatchRequest: threads, runs and messages are returned as values, so that a caller could change a returned record is not captured; dispatches are returned as the stored objects.
