# Verified model of the PRAMA-Dynamagh decision kernels

A Dafny model of the parts of the backend that decide who may spend, act and be believed, with proofs about every
input, every history and every interleaving of their operations. Run `dafny verify dfyconfig.toml` to check it.

## What is modelled

| files | the system's component |
|---|---|
| `CanonicalDecimals`, `JsonText`, `CanonicalJson`, `Numerals` | the canonical printer every content hash rests on |
| `Trajectory`, `TrajectoryLaws` | transitions between relational snapshots, their stream and its replay |
| `Evaluator`, `EvaluatorLaws` | the relational evaluation of CRYPTO_PRICE targets |
| `PhiCandidates` | turnover of relation sets, causal baselines, restoration |
| `G13Policy`, `G13PolicyLaws`, `G13Runtime`, `G13RuntimeLaws` | the longitudinal autonomy policy, its window and the recovery probes |
| `SpendLedger` | the daily spend ledger shared by all origins, and the reconciliation tests on it |
| `Slots`, `Scheduler`, `SchedulerLaws`, `SchedulerSlots`, `SchedulerCaps` | slot arithmetic, the autonomy scheduler, its slots and its daily caps |
| `AuthorityProfiles`, `ExecutionPermits`, `BootstrapAuthority`, `StoredAmounts` | authority lifecycle, one-shot permits, bounded cold-start grants and the rounding of their amounts |
| `DisclosureMemory`, `DisclosureLaws` | replay of disclosure events under a growing cutoff |
| `Wrappers`, `Ordering`, `MapSums`, `FiniteSets` | optional values, sorting and filtering, sums over maps, sizes of sets |

Code that updates stored rows is a class whose methods give the new tables as a function of the old ones; code that
loops is a method proved against a function; the lemmas are about those functions. Histories are lists of operations
from empty tables, so a lemma over all lists covers every interleaving. For each main operation a law says, in the fields
of its inputs and of the stored rows alone, exactly when it does what.

Conventions: money is in whole micro-USDC, except for the requests and charges of bootstrap grants, instants are integers (microseconds where the unit matters), exact fractions
are reals, identifiers are opaque, one committed transaction is one step. Content hashes and derived identifiers are
modelled by what they are computed from, so equal hashes mean equal content. Clock readings, verdicts of other
components and the progress other workers persist are parameters, or operations of their own.

## Where the code differs from what is said of it

- Canonical decimals agree with numerical equality only up to 28 significant digits: normalising rounds first
  (`LongDecimalsCollide`). A decimal and the string of its canonical text print alike by design.
- The v0.3 recovery rule speaks of exactly one canary, but the code authorizes it whenever the window shows no
  execution, so it is authorized anew as soon as sixteen significant runs follow each one that was executed
  (`EndpointCanaryIsForgotten`); v0.4 and v0.5 are single-use. Their lookup of probe events does not filter by agent: a
  probe of one agent also consumes the probe of another (`ReviewProbeExactly`, `ForeignProbeConsumes`).
- Denials do not feed the policy, except at a cold start: a denied run makes the identity anchor count as a trajectory,
  and another rule fires (`WindowUnchangedExactly`, `ColdStartMatters`).
- Version hand-over compares a new start with the clock only; chains whose starts fall after a rise are ambiguous, exactly
  (`HandOverIsUnambiguousExactlyWhen`, `ChainIsUnambiguousExactlyWhen`). Creating a profile has no guard against the past:
  it changes the answer for past instants exactly if it is active there and the answer was not ambiguous before
  (`PastAnswerIsKeptExactly`).
- The daily caps read the day from the instant and count by slot. A slot that is due only on the next day is therefore not
  checked against its own day: the cap on runs is kept exactly if the cadence divides the day or the cap exceeds the steps
  that fit into it (`RunCapHoldsExactly`), and the budget under the exact condition of `BudgetHoldsExactly`.
- The daily spend counts only the actual cost of completed runs and the planned cost of active ones. With failed runs the
  day may cost as much as all runs it can hold (`FullCostWithinBudgetExactly`, `FailedDayCosts`).
- A policy may be patched to another cadence; a run can then be created for an earlier slot than the run before it
  (`NextRunGoesForwardExactly`, `PatchedCadenceFallsBack`).
- The amount of a bootstrap grant is hashed before the column rounds it to six decimals. A grant whose amount is written
  with more is accepted, and its hash never verifies (`HashVerifiesExactly`, `FractionIsUnverified`).
- The catch-up loop of the scheduler never has anything to skip (`SkipMissed`, `SlotBounds`).
- A template whose acquisitions prove invalid after the reservation leaves the reservation held, under a failed run that
  does not know its mandate (`InvalidTemplateLeavesReservation`).
- The RELEASED alternative of the no-payment reconciliation test is never met, because a release keeps the unspent amount
  on the reservation (`ReconciliationTestsAreExact`).

## Model

| member | source | states |
|---|---|---|
| `CanonicalDecimals.EqualNumbersPrintAlike` | backend/app/epistemic/contracts.py:39-52 | numerically equal decimals of any precision have the same canonical text |
| `CanonicalDecimals.TextsAgreeExactlyWhenNormalizedAgree` | backend/app/epistemic/contracts.py:39-52 | two texts are equal exactly when both numbers are zero or both, rounded half-even to 28 digits and stripped of trailing zeros, are the same |
| `CanonicalDecimals.TextsAgreeExactlyWhenEqual` | backend/app/epistemic/contracts.py:39-52 | within 28 significant digits the texts agree exactly when the numbers are equal |
| `CanonicalDecimals.TextKeepsTheNumberExactlyWithinPrecision` | backend/app/epistemic/contracts.py:39-52 | the text reads back as the number itself if and only if it has at most 28 significant digits |
| `CanonicalDecimals.LongDecimalsCollide` | backend/app/epistemic/contracts.py:52 | beyond 28 significant digits every number shares its text with a different number |
| `CanonicalDecimals.OnlyZeroPrintsZero` | backend/app/epistemic/contracts.py:50-51 | the text 0 belongs to zeros only, whatever their sign and exponent |
| `CanonicalDecimals.RoundsToPrecision` | backend/app/epistemic/contracts.py:52 | a number of more than 28 digits is rounded to the nearest one of 28, and to the even one of two equally near; any other is left alone |
| `CanonicalDecimals.TextIsPlain` | backend/app/epistemic/contracts.py:39-52 | the text has a sign exactly for negative numbers that are not zero, no leading zeros, no trailing zeros in the fraction, and no exponent |
| `StoredAmounts.StoredKeepsTextExactly` | backend/app/domain/mandates.py:267 | an amount rounded into the column of six decimals keeps its canonical text if and only if that text has at most six decimals |
| `StoredAmounts.StoredKeepsTextOfWhole` | backend/app/domain/mandates.py:267 | for amounts of at most 28 significant digits: if and only if the amount is a whole number of millionths |
| `StoredAmounts.HalfUpExactly` | backend/app/domain/mandates.py:267 | the column rounds to the nearest millionth, and to the greater one of two equally near |
| `StoredAmounts.AffordableExactly` | backend/app/authority/bootstrap.py:106-108 | over any common power of ten the accepted amounts are those above zero and at most a hundredth |
| `JsonText.ReadInvertsPrint` | backend/app/epistemic/contracts.py:73-82 | a recursive-descent reader recovers every canonical value from its text, whatever text follows |
| `JsonText.ParseInvertsPrint` | backend/app/epistemic/contracts.py:73-82 | parsing a whole canonical text gives back the value it was written from |
| `JsonText.PrintIsInjective` | backend/app/epistemic/contracts.py:73-82 | texts are equal exactly when the canonical values are |
| `JsonText.StringRoundTrip` | backend/app/epistemic/contracts.py:76-81 | reading the string, with every escape that section 7 of RFC 8259 allows, gives back what was escaped |
| `JsonText.EscapeIsShortest` | backend/app/epistemic/contracts.py:76-81 | of all the ways to write a character in a string the canonical one is the shortest, and the only one of its length with small hexadecimal digits |
| `JsonText.StandsForItselfExactly` | backend/app/epistemic/contracts.py:76-81 | a character is written as itself exactly if it may stand unescaped |
| `JsonText.CanonicalTextIsShortest` | backend/app/epistemic/contracts.py:73-82 | no JSON text of the value, with white space and any escapes, is shorter than the canonical one |
| `JsonText.EncodeCharForm` | backend/app/epistemic/contracts.py:82 | a code point is encoded in the fewest bytes that hold it, each of the form that section 3 of RFC 3629 gives |
| `JsonText.DecodeInvertsEncode` | backend/app/epistemic/contracts.py:82 | the UTF-8 bytes of a text determine the text |
| `JsonText.EncodableExactlyWithoutSurrogates` | backend/app/epistemic/contracts.py:82 | a text has bytes exactly if it holds no surrogate code point |
| `CanonicalJson.BytesDetermineTheCanonicalValue` | backend/app/epistemic/contracts.py:55-82 | two bodies have equal canonical bytes exactly when their canonical values are equal |
| `CanonicalJson.OrderIsIrrelevant` | backend/app/epistemic/contracts.py:65-68 | bodies that differ only in the insertion order of mappings, at any depth, have the same canonical value or raise the same error |
| `CanonicalJson.EquivalentBodiesHaveTheSameBytes` | backend/app/epistemic/contracts.py:73-82 | such bodies have the same canonical bytes |
| `CanonicalJson.CanonicalEqualExactly` | backend/app/epistemic/contracts.py:55-82 | two bodies have the same canonical value if and only if they are equal up to insertion order once decimals and timestamps are replaced by their texts |
| `CanonicalJson.CanonicalIsOrdered` | backend/app/epistemic/contracts.py:65-68 | in a canonical value the keys strictly increase at every level |
| `CanonicalJson.TextLeIsLexicographic` | backend/app/epistemic/contracts.py:65-68 | keys are ordered by their first differing code point, a prefix first |
| `CanonicalJson.FailsExactlyOnFaults` | backend/app/epistemic/contracts.py:55-82 | canonicalisation fails exactly if the body holds, at some level, a float, a decimal that is not finite, a timestamp without zone, a key that is no text or an unsupported value |
| `CanonicalJson.ThawIsCanonical` | backend/app/epistemic/trajectory.py:62-65 | reading a canonical text and canonicalising the result changes nothing |
| `CanonicalJson.FreezeKeepsTheBytes` | backend/app/epistemic/trajectory.py:62-65 | freezing a body by writing and reading it succeeds on every body that has bytes, and keeps them |
| `Trajectory.MapById` | backend/app/epistemic/trajectory.py:364-381 | the dictionary loops give the lookup by identifier, and refuse exactly the lists that repeat one |
| `Trajectory.SignatureIsExact` | backend/app/epistemic/trajectory.py:384-395 | relation signatures agree exactly when the relations agree in everything they say, their basis included |
| `Trajectory.NoOpExactlyWhenNothingChanged` | backend/app/epistemic/trajectory.py:485-536 | a transition is an exact no-op if and only if the state and the requirement's relations are the same; the four evidence deltas never decide |
| `Trajectory.TransitionNamesItsEnds` | backend/app/epistemic/trajectory.py:543-571 | a transition names the hashes, structural and requirement states of the two snapshots it lies between |
| `TrajectoryLaws.SoundPointExactly` | backend/app/epistemic/trajectory.py:274-299 | a point is sound exactly if it is not before the start and its snapshot has the target and all versions of its lineage |
| `TrajectoryLaws.TransitionExactly` | backend/app/epistemic/trajectory.py:446-480 | a transition is derived exactly between two later points of one lineage that list the same requirements, each row once, the asked one with one type |
| `TrajectoryLaws.TransitionRefusals` | backend/app/epistemic/trajectory.py:453-465 | outside a lineage the first violation is named: indices that do not rise, two targets, a foreign target, foreign versions |
| `TrajectoryLaws.RowRefusals` | backend/app/epistemic/trajectory.py:467-485 | within a lineage the first fault of the rows is named: a repeated requirement, a changed list, an unlisted requirement, a changed type, a repeated relation |
| `TrajectoryLaws.DeltasFromRows` | backend/app/epistemic/trajectory.py:486-518 | relations and evidence for and against are added and removed exactly as the rows of the two snapshots differ |
| `TrajectoryLaws.ChangesFromRows` | backend/app/epistemic/trajectory.py:495-508 | the listed changes are exactly the relations that kept their identifier and differ |
| `TrajectoryLaws.NoOpFromRows` | backend/app/epistemic/trajectory.py:520-536 | a transition is a no-op exactly if the state and the rows of the requirement are the same |
| `Trajectory.TransitionMovesView` | backend/app/epistemic/trajectory.py:485-571 | applying a transition to the view of the earlier snapshot gives the view of the later one; a no-op changes no view |
| `Trajectory.CheckOrder` | backend/app/epistemic/trajectory.py:588-594 | the loop over consecutive points finds the first target, lineage or index violation |
| `Trajectory.BuildSteps` | backend/app/epistemic/trajectory.py:598-612 | the inner loop emits the transitions of the sorted requirements, or the first error |
| `Trajectory.BuildTransitionStream` | backend/app/epistemic/trajectory.py:574-616 | the two loops compute the stream that the lemmas below are about, and never report an identity collision |
| `Trajectory.StreamIsDerived` | backend/app/epistemic/trajectory.py:596-612 | every transition of a stream is the one derived between some two consecutive points |
| `Trajectory.NeverCollides` | backend/app/epistemic/trajectory.py:613-615 | the identities of an accepted stream are pairwise different, so the final check never fires |
| `Trajectory.ReplayReconstructs` | backend/app/epistemic/trajectory.py:574-638 | replaying an accepted stream from the first snapshot reconstructs relations, evidence for and against and state of every requirement in the last one, with and without no-ops |
| `Trajectory.WithoutNoOps` | backend/app/epistemic/trajectory.py:611-612 | leaving out the exact no-ops leaves out nothing else |
| `Trajectory.AcceptedExactly` | backend/app/epistemic/trajectory.py:580-600 | a stream is accepted exactly when it starts at index 0 and every point may follow its predecessor |
| `Evaluator.EvaluateCryptoPrice` | backend/app/epistemic/evaluator.py:567-683 | the nested loops compute the evaluation that the lemmas below are about |
| `Evaluator.RelateToAll` | backend/app/epistemic/evaluator.py:591-626 | the inner loop adds one relation per requirement to the rows and to the list of its requirement |
| `EvaluatorLaws.RelationsAreThePairs` | backend/app/epistemic/evaluator.py:580-626 | there is exactly one relation for each pair of eligible evidence and requirement, and it is the judgement of that pair |
| `EvaluatorLaws.OnlyEligibleInputsMatter` | backend/app/epistemic/evaluator.py:580-585 | the evaluation depends only on which eligible evidence, requirements and observations there are: input order and rejected evidence are irrelevant |
| `EvaluatorLaws.ResultListsPartition` | backend/app/epistemic/evaluator.py:486-510 | the four lists of a requirement's result hold exactly the relations of their state and together every relation once |
| `EvaluatorLaws.ContradictionsExactly` | backend/app/epistemic/evaluator.py:632-640 | contradictions are reported for exactly the results that list contradicting relations |
| `EvaluatorLaws.ResultsMeanTheirStates` | backend/app/epistemic/evaluator.py:628-631 | each result's state is contradicted, satisfied or unresolved as the evidence related to it says |
| `EvaluatorLaws.StructuralMeans` | backend/app/epistemic/evaluator.py:641-648 | the structural state is told by the required requirements alone |
| `EvaluatorLaws.JudgedExactly` | backend/app/epistemic/evaluator.py:223-329 | one relation contradicts exactly on a mismatch of a given identity, and satisfies exactly on the stated grounds; prices and stale evidence never contradict |
| `EvaluatorLaws.JudgedForExactly` | backend/app/epistemic/evaluator.py:223-329 | a judgement is the one whose basis holds of the pair, and no other: state, basis and limitations of every case |
| `EvaluatorLaws.RelationNamesThePair` | backend/app/epistemic/evaluator.py:591-626 | a relation is named after its target, requirement and evidence and carries state and basis of their judgement |
| `EvaluatorLaws.LimitationsExactly` | backend/app/epistemic/evaluator.py:580-660 | a limitation is reported exactly if the judgement of an eligible pair carries it, and the sources are the eligible evidence |
| `EvaluatorLaws.ContradictedExactly` | backend/app/epistemic/evaluator.py:223-329 | the target is contradicted exactly when eligible, compatible, schema-valid evidence names another identity for a required identity requirement |
| `EvaluatorLaws.CompleteExactly` | backend/app/epistemic/evaluator.py:641-648 | the evaluation is complete exactly when every required requirement is settled by some evidence and contradicted by none |
| `EvaluatorLaws.StateGrows` | backend/app/epistemic/evaluator.py:495-500 | more evidence moves a requirement only from unresolved to satisfied to contradicted |
| `EvaluatorLaws.MoreEvidenceOnlyMovesUp` | backend/app/epistemic/evaluator.py:641-648 | more evidence moves the structural state only up, and contradicted absorbs |
| `PhiCandidates.DifferenceIsLossPlusGain` | backend/app/epistemic/phi_candidates.py:99-129 | the numerator of the distance counts exactly the lost and the gained relations |
| `PhiCandidates.DistanceLaws` | backend/app/epistemic/phi_candidates.py:115-129 | the distance lies in [0,1], is symmetric, and is 0 exactly on equal sets |
| `PhiCandidates.DistanceExactly` | backend/app/epistemic/phi_candidates.py:85-129 | the distance fails exactly on an unknown relation state, and else is the share of the relations that only one list holds |
| `PhiCandidates.DistanceTriangle` | backend/app/epistemic/phi_candidates.py:115-129 | the distance satisfies the triangle inequality for all sets, the empty ones included |
| `PhiCandidates.DistanceForgetsRepetition` | backend/app/epistemic/phi_candidates.py:66-129 | the distance of two lists depends only on which relations occur in them |
| `PhiCandidates.ExpectationsAreCausal` | backend/app/epistemic/phi_candidates.py:211-255 | both baselines depend on nothing but the strictly earlier observations of the population |
| `PhiCandidates.PresentAndForeignAreIrrelevant` | backend/app/epistemic/phi_candidates.py:217-222 | replacing a present, later or foreign observation by another one changes no expectation |
| `PhiCandidates.HistoryOrderIsIrrelevant` | backend/app/epistemic/phi_candidates.py:226-229 | the order of the history is irrelevant |
| `PhiCandidates.ExpectationRange` | backend/app/epistemic/phi_candidates.py:236-255 | the baselines are missing exactly on an empty past, and the mean lies between the least and the greatest earlier value |
| `PhiCandidates.PreviousValueIsLatest` | backend/app/epistemic/phi_candidates.py:236-243 | the previous-value baseline is the turnover of the latest earlier observation |
| `PhiCandidates.Mean` | backend/app/epistemic/phi_candidates.py:255 | the mean is the exact quotient, and a turnover itself |
| `PhiCandidates.MeanRecurrence` | backend/app/epistemic/phi_candidates.py:246-255 | one more observation moves the mean by its deviation over the new count |
| `PhiCandidates.PastGrowsByOne` | backend/app/epistemic/phi_candidates.py:211-233 | observing a point appends its turnover to the past of the next point |
| `PhiCandidates.StreamEntriesAreCausal` | backend/app/epistemic/phi_candidates.py:263-278 | each entry of the expectation stream is the causal expectation at its own observation |
| `PhiCandidates.StreamForgetsInputOrder` | backend/app/epistemic/phi_candidates.py:263-278 | the expectation stream does not depend on the order of the input, ties that differ only in requirement type included; only which error comes first may then differ |
| `PhiCandidates.RelationalRestoration` | backend/app/epistemic/phi_candidates.py:355-379 | a set counts as restored exactly if it differs from the latest one and occurred before, and the call fails exactly on a history the point does not continue |
| `PhiCandidates.CheckHistory` | backend/app/epistemic/phi_candidates.py:362-372 | the checking loop passes exactly the histories that the point continues |
| `G13Policy.DistinctExecutionStats` | backend/app/authority/autonomy.py:296-376 | the dictionary loop counts exactly the causal executions that are blocked, failed and executed |
| `G13Policy.StatsForgetOrder` | backend/app/authority/autonomy.py:296-376 | the counts depend only on which projections there are, not on their order or number |
| `G13Policy.OneProjectionChangesOneExecution` | backend/app/authority/autonomy.py:296-376 | one more projection changes each count by at most one, and never lowers the executions |
| `G13Policy.SuccessClearsFailure` | backend/app/authority/autonomy.py:365-370 | a terminal-success projection clears the failure of its execution wherever it occurs |
| `G13Policy.ExemptCodesAddNoFailure` | backend/app/authority/autonomy.py:333-364 | denials, bookkeeping and external codes never are failures, and add one exactly when they show that an execution with a recorded failure took place after all |
| `G13Policy.FromObservations` | backend/app/authority/autonomy.py:202-261 | ordering, deduplication and the four integrity violations, each found exactly when present |
| `G13Policy.EmittedStreamsPass` | backend/app/authority/autonomy.py:202-261 | a window of a stream as the observer emits it passes unchanged and without violations |
| `G13Policy.EvaluatePolicy` | backend/app/authority/autonomy.py:457-614 | the rules tried one after the other give exactly the evaluation the lemmas below are about |
| `G13Policy.Verdict.Fire` | backend/app/authority/autonomy.py:466-470 | firing a rule records it and raises the outcome to the gravest one demanded |
| `G13Policy.JoinIsLeast` | backend/app/authority/autonomy.py:466-470 | the outcome respects every fired rule and is demanded by one of them |
| `G13Policy.OutcomeExactly` | backend/app/authority/autonomy.py:466-614 | HALT, REVIEW, THROTTLE and CONTINUE are each reached exactly on their own stated causes, unless a graver outcome has a cause |
| `G13Policy.HaltExactly` | backend/app/authority/autonomy.py:472-481 | the outcome is HALT exactly on an integrity violation or a recovery version without a valid recovery |
| `G13Policy.ContinueExactly` | backend/app/authority/autonomy.py:457-614 | the outcome is CONTINUE exactly when no rule fired |
| `G13PolicyLaws.CountsFromFacts` | backend/app/authority/autonomy.py:296-376 | blocks, failures and executions are the numbers of executions whose facts say so: decision, codes, statuses, recovery flags and terminal artifacts alone |
| `G13PolicyLaws.DependenciesFromFacts` | backend/app/authority/autonomy.py:396-453 | failed dependencies count by named episode and by unnamed observation, by execution, or not at all, as the version says |
| `G13PolicyLaws.AttemptsFromFacts` | backend/app/authority/autonomy.py:379-395 | probe attempts are the executions that show a probe, or the attempt carried in |
| `G13PolicyLaws.RuleFiresExactly` | backend/app/authority/autonomy.py:457-600 | each of the eleven rules fires exactly on its cause in the facts |
| `G13PolicyLaws.OutcomeFromFacts` | backend/app/authority/autonomy.py:466-614 | the outcome is the gravest consequence that some cause in the facts calls for |
| `G13PolicyLaws.ReportFromFacts` | backend/app/authority/autonomy.py:556-600 | the reported counts, the authorization of a probe and the sole blocker, in facts |
| `G13PolicyLaws.SuccessesContinue` | backend/app/authority/autonomy.py:296-376 | any stream of permitted terminal successes evaluates to CONTINUE under v0.2 |
| `G13PolicyLaws.TwoBlocksReview` | backend/app/authority/autonomy.py:584-590 | two executions that the agent itself blocked evaluate to REVIEW, whatever else there is |
| `G13PolicyLaws.GatePassesExactly` | backend/app/authority/autonomy.py:622-653 | an action passes exactly if it is permitted, paid for, not halted, and a review is overridden or a throttle satisfied |
| `G13PolicyLaws.GateReasonsExactly` | backend/app/authority/autonomy.py:622-653 | the reason names the first authority that refuses, or whether a bootstrap grant overrode a review |
| `G13Policy.GateRefusalsAreExempt` | backend/app/authority/autonomy.py:622-653 | a refusal caused by the longitudinal policy is recorded under a code that counts neither as failure nor as block |
| `G13Runtime.EvaluateCurrentG13` | backend/app/authority/runtime.py:72-200 | cutoff, grouping, exclusion of denials, window and evaluation, as one computation |
| `G13Runtime.GroupByUnit` | backend/app/authority/runtime.py:135-139 | the grouping loop lists the projections of each execution, and the executions in order of appearance |
| `G13Runtime.FindSignificant` | backend/app/authority/runtime.py:140-149 | the loop passes over exactly the executions that were refused before anything ran |
| `G13Runtime.DropDenials` | backend/app/authority/runtime.py:156-177 | the loop removes exactly the executions that consist of governance denials, from the groups and from the observations |
| `G13Runtime.SelectWindow` | backend/app/authority/runtime.py:135-183 | the window holds the projections of the last sixteen significant executions |
| `G13RuntimeLaws.ConsideredExactly` | backend/app/authority/runtime.py:88-115 | an observation is considered exactly if something besides the identity anchor acts, and it acts itself and postdates the recovery |
| `G13RuntimeLaws.InputExactly` | backend/app/authority/runtime.py:116-134 | what the policy is handed: the window, the five expected kinds of missing data, the recovery, and one attempt exactly for a later probe in the log |
| `G13RuntimeLaws.InWindowExactly` | backend/app/authority/runtime.py:135-183 | an execution is in the window exactly if it is neither refused before anything ran nor made of denials, and fewer than sixteen such appear after it |
| `G13Runtime.DenialsDoNotInterfere` | backend/app/authority/runtime.py:91-199 | executions that consist of denials leave window, counts, rules and result unchanged, provided something else than the identity anchor remains |
| `G13Runtime.WindowUnchangedExactly` | backend/app/authority/runtime.py:91-92 | the window is unchanged except exactly when only the denials prevent a cold start and an anchor survives the cutoff |
| `G13Runtime.ColdStartMatters` | backend/app/authority/runtime.py:91-92 | with one denied run after a cold start another rule fires than without it |
| `G13Runtime.ProbeIsSingleUse` | backend/app/authority/runtime.py:116-134 | under v0.4 and v0.5 no evaluation authorizes a probe once a probe event follows the recovery in the append-only log |
| `G13Runtime.ReviewProbeExactly` | backend/app/authority/runtime.py:116-134 | under v0.4 and v0.5 a probe is authorized exactly if the recovery is valid, the window shows no execution and no probe, and no probe event of any agent follows the recovery |
| `G13Runtime.ForeignProbeConsumes` | backend/app/authority/runtime.py:121-134 | a single probe event of a foreign agent withdraws an authorization that stands without it |
| `G13Runtime.AgentOfProbeIsIgnored` | backend/app/authority/runtime.py:121-134 | giving the events of the log to other agents changes no evaluation |
| `G13Runtime.EndpointCanaryExactly` | backend/app/authority/autonomy.py:540-551 | under v0.3 the canary is authorized exactly while the recovery is valid and the window shows no execution |
| `G13Runtime.EndpointCanaryIsForgotten` | backend/app/authority/autonomy.py:540-551 | in every stream a v0.3 canary is authorized exactly if the recovery is valid and every execution since is followed by at least sixteen significant ones |
| `SpendLedger.Ledger.ReserveSpend` | backend/app/public_safety.py:136-173 | reserving: the two cap branches, the duplicate refusal and the new row, with nothing changed on refusal |
| `SpendLedger.Ledger.VerifySpendReservation` | backend/app/public_safety.py:181-198 | a reservation is usable exactly if it is open, of the origin and within the ceiling |
| `SpendLedger.Ledger.SettleSpend` | backend/app/public_safety.py:216-237 | partial and final settlement of a reservation against its row |
| `SpendLedger.Ledger.ReleaseSpendReservation` | backend/app/public_safety.py:245-259 | releasing an open reservation of the origin, and nothing otherwise |
| `SpendLedger.LedgerIsBalanced` | backend/app/public_safety.py:136-259 | after any operations each row is the sum of the open and of the spent amounts of its reservations |
| `SpendLedger.GrantsAreAccounted` | backend/app/public_safety.py:216-259 | every granted amount is held, spent or given back by a final settlement |
| `SpendLedger.LedgerCoversEveryOpenReservation` | backend/app/public_safety.py:228-255 | the guards that compare the row with the reservation never fail |
| `SpendLedger.RefusalReasons` | backend/app/public_safety.py:216-259 | a settlement is refused exactly for the caller's own reasons, a release never |
| `SpendLedger.ReservationGrantedExactly` | backend/app/public_safety.py:136-173 | in every history a reservation is granted exactly within its ceiling and within what the reservations of the day leave of the cap, once per mandate; each refusal has its reason and changes nothing |
| `SpendLedger.GrantedIsUsable` | backend/app/public_safety.py:136-198 | a granted reservation is at once usable by its mandate, origin and ceiling, for the whole amount on the given day |
| `SpendLedger.SettlementExactly` | backend/app/public_safety.py:216-237 | in every history a settlement succeeds exactly on an open reservation of the origin within the ceiling, for no more than it holds, and changes that one only |
| `SpendLedger.ReleaseExactly` | backend/app/public_safety.py:245-259 | in every history a release closes exactly an open reservation of the origin and frees its amount |
| `SpendLedger.EveryReservationWasGranted` | backend/app/public_safety.py:136-259 | every reservation goes back to one operation that reserved within ceiling and cap, and keeps to its day, origin and amount |
| `SpendLedger.OnlyReservingRaisesTheTotal` | backend/app/public_safety.py:216-259 | settling and releasing never raise a day's total, and a partial settlement keeps it |
| `SpendLedger.DailyCapHolds` | backend/app/public_safety.py:136-173 | no day ever holds more reserved plus spent than the largest cap in force for it |
| `SpendLedger.RowsAreNonNegative` | backend/app/public_safety.py:136-259 | no row ever becomes negative |
| `SpendLedger.ClosedForever` | backend/app/public_safety.py:181-259 | a settled or released reservation is never touched again |
| `SpendLedger.ReconciliationTestsAreExact` | backend/app/authority/recovery.py:604-622 | the no-payment test holds exactly for reservations settled for nothing, the settled test exactly for those settled for the amount; released ones pass neither |
| `SpendLedger.TerminalExactly` | backend/app/authority/recovery.py:604-653 | an event closes a mandate exactly if it is conclusive and the reservation was settled for the amount it names |
| `SpendLedger.ReconciledStaysReconciled` | backend/app/authority/recovery.py:625-653 | a terminal reconciliation stays one, and its amount was granted |
| `SpendLedger.ExhaustedReservationCannotBeSettled` | backend/app/public_safety.py:181-237 | a reservation settled piecewise down to nothing can no longer be settled |
| `DisclosureMemory.ReplayDisclosure` | backend/app/agents/disclosure_memory.py:8-69 | one pass over the log up to the cutoff gives the counters, the stage sets and the latencies of the verdicts |
| `DisclosureMemory.GroupByHash` | backend/app/agents/disclosure_memory.py:10-24 | the grouping loop lists the events of each response hash in order |
| `DisclosureMemory.JudgeHash` | backend/app/agents/disclosure_memory.py:24-52 | one round of the loop adds the judgement of one hash to the counters |
| `DisclosureMemory.CountVerdicts` | backend/app/agents/disclosure_memory.py:24-52 | the loop counts the judgements of all hashes |
| `DisclosureMemory.VerdictsOnlyAdvance` | backend/app/agents/disclosure_memory.py:26-48 | as the cutoff grows a verdict moves only from undelivered to awaiting to presented or missing; a presented one is final, a missing one can only become late |
| `DisclosureMemory.MissingIsNeverCompliant` | backend/app/agents/disclosure_memory.py:26-48 | a missing presentation never becomes compliant |
| `DisclosureMemory.VerdictForgetsInputOrder` | backend/app/agents/disclosure_memory.py:10-12 | verdicts do not depend on the order of the log |
| `DisclosureMemory.CountersPartition` | backend/app/agents/disclosure_memory.py:24-52 | eligible is evaluated plus awaiting, evaluated is presented plus missing, compliant plus late is at most presented |
| `DisclosureMemory.CounterIsCardinality` | backend/app/agents/disclosure_memory.py:24-52 | each counter is the number of hashes it counts |
| `DisclosureMemory.CountersOnlyGrow` | backend/app/agents/disclosure_memory.py:24-52 | settled counters and the sum of missing and late only grow with the cutoff |
| `DisclosureLaws.VerdictFromEvents` | backend/app/agents/disclosure_memory.py:24-52 | the verdict told by the first delivery, its deadline in seconds, the first presentation from then on and the cutoff |
| `DisclosureLaws.OneVerdict` | backend/app/agents/disclosure_memory.py:24-52 | a verdict is given exactly if the events say so |
| `DisclosureLaws.CountersFromEvents` | backend/app/agents/disclosure_memory.py:16-52 | each counter is the number of response hashes for which the events say so |
| `DisclosureLaws.StagesFromEvents` | backend/app/agents/disclosure_memory.py:17-22 | a hash has reached a stage exactly if an event of that kind says so by the cutoff |
| `DisclosureLaws.LatenciesExactly` | backend/app/agents/disclosure_memory.py:43-44 | latencies are listed for exactly the presented hashes, in whole milliseconds |
| `AuthorityProfiles.AuthorityStore.CreateAuthorityProfile` | backend/app/authority/profiles.py:195-223 | creating a profile appends it with its hash, after the checks of the source |
| `AuthorityProfiles.AuthorityStore.SetAuthorityProfileStatus` | backend/app/authority/profiles.py:226-258 | a status event is appended exactly when it is neither retroactive nor out of order |
| `AuthorityProfiles.AuthorityStore.VersionAuthorityProfile` | backend/app/authority/profiles.py:261-291 | versioning, with the clock read twice, appends the successor and the event that revokes the predecessor at its start, or nothing |
| `AuthorityProfiles.EffectiveEventIsLatest` | backend/app/authority/profiles.py:167-173 | the event that decides a status is the latest one by effective time and sequence |
| `AuthorityProfiles.ActiveIffUntouched` | backend/app/authority/profiles.py:167-173 | a profile is active exactly if it was granted so and no event has taken effect |
| `AuthorityProfiles.PastStatusIsImmutable` | backend/app/authority/profiles.py:167-173 | no later call changes the status of a profile at a past instant |
| `AuthorityProfiles.NeverActiveAgain` | backend/app/authority/profiles.py:226-258 | a profile that stops being active never becomes active again |
| `AuthorityProfiles.HashesAlwaysVerify` | backend/app/authority/profiles.py:184-191 | rows are never rewritten, so that in every history each profile still holds what it was hashed over |
| `AuthorityProfiles.VersioningBuildsChain` | backend/app/authority/profiles.py:261-291 | versioning, whatever other agents do meanwhile, builds a chain of hand-overs |
| `AuthorityProfiles.EffectiveInChain` | backend/app/authority/profiles.py:176-192 | in a chain a profile is effective exactly from its own start to its successor's, while granted and valid |
| `AuthorityProfiles.AmbiguousIffTwoEffective` | backend/app/authority/profiles.py:176-192 | resolution is ambiguous exactly if two profiles are effective at once |
| `AuthorityProfiles.HandOverIsUnambiguous` | backend/app/authority/profiles.py:261-291 | unless starts fall after a rise, at most one profile of a chain is effective at any instant |
| `AuthorityProfiles.HandOverIsUnambiguousExactlyWhen` | backend/app/authority/profiles.py:279 | for grants without expiry resolution is never ambiguous if and only if starts never fall after a rise |
| `AuthorityProfiles.ChainIsUnambiguousExactlyWhen` | backend/app/authority/profiles.py:176-192 | for every chain, with expiries and grants that are not active, resolution is never ambiguous if and only if no two active profiles overlap between their start and the earlier of expiry and successor's start |
| `AuthorityProfiles.HandOverLeavesNoGap` | backend/app/authority/profiles.py:261-291 | with non-decreasing starts and predecessors valid at hand-over exactly one profile resolves at every instant |
| `AuthorityProfiles.HandOverFreezesPredecessor` | backend/app/authority/profiles.py:226-258 | after a scheduled hand-over the predecessor's status can no longer be changed |
| `AuthorityProfiles.PastAnswerIsKeptExactly` | backend/app/authority/profiles.py:176-223 | over any later calls the answer for a past instant stays the same if and only if it was ambiguous already or no call creates an active profile of the agent in force at that instant |
| `AuthorityProfiles.ResolvedExactly` | backend/app/authority/profiles.py:167-192 | resolution gives the one profile that is granted active, within its validity and untouched by events, and says whether there is none or more than one |
| `AuthorityProfiles.StatusChangesExactly` | backend/app/authority/profiles.py:226-258 | a status event is accepted exactly for an open profile of the agent, not before the clock nor before an earlier event, and follows in sequence |
| `AuthorityProfiles.CreationExactly` | backend/app/authority/profiles.py:195-223 | a profile is created exactly for a known agent and a sensible validity, under the next version |
| `AuthorityProfiles.VersioningExactly` | backend/app/authority/profiles.py:261-291 | a profile is replaced exactly if a successor may be created and the predecessor be revoked at its start, at both clock readings |
| `AuthorityProfiles.RecordsAreKept` | backend/app/authority/profiles.py:195-291 | in every history versions count the agent's profiles from one, and only suspensions are followed by further events |
| `AuthorityProfiles.ForgedProfileIsRefused` | backend/app/authority/profiles.py:184-243 | a row that no longer matches its hash is neither resolved nor changed |
| `ExecutionPermits.PermitStore.IssueExecutionPermit` | backend/app/authority/delegated.py:192-251 | issuing a permit: the denials, the idempotent return and the new row bound to its envelope |
| `ExecutionPermits.PermitStore.ConsumeExecutionPermit` | backend/app/authority/delegated.py:254-297 | consuming a permit: every mismatch refused, and one dispatch committed on success |
| `ExecutionPermits.AlwaysWellKept` | backend/app/authority/delegated.py:192-297 | at most one permit per action, and every permit still carries the envelope it was issued for |
| `ExecutionPermits.PermitGrantedExactly` | backend/app/authority/delegated.py:67-224 | a permit is granted exactly to a request with autonomy, a profile that covers and delegates it, a verified reservation, and no halt, open review or unsatisfied throttle |
| `ExecutionPermits.RefusalNamesTheAuthority` | backend/app/authority/delegated.py:192-224 | each refusal names an authority that the request indeed lacks |
| `ExecutionPermits.IssuedPermit` | backend/app/authority/delegated.py:225-251 | the action's earlier permit is returned as it is, and else one is added, unused and bound to the request |
| `ExecutionPermits.AtMostOneDispatch` | backend/app/authority/delegated.py:254-297 | over any calls an action is committed for dispatch once if consumed and never otherwise |
| `ExecutionPermits.PermitWasRequested` | backend/app/authority/delegated.py:192-251 | every permit goes back to a request for its action and envelope that was entitled to it |
| `ExecutionPermits.DispatchIsTheBoundAction` | backend/app/authority/delegated.py:164-297 | every dispatch carries the envelope bound by a request that was entitled to it |
| `ExecutionPermits.ConsumptionExactlyWhen` | backend/app/authority/delegated.py:254-297 | consumption succeeds exactly when the presented action is the bound one, the permit unused and the authority intact |
| `ExecutionPermits.ConsumptionOutcome` | backend/app/authority/delegated.py:164-297 | consuming marks the one permit and commits its bound action; each refusal names the mismatch and changes nothing |
| `ExecutionPermits.StaleOrForgedIsRefused` | backend/app/authority/delegated.py:264-271 | whatever the rows hold, an expired permit and one that no longer matches its hash are refused as such |
| `BootstrapAuthority.GrantStore.CreateBootstrapAuthority` | backend/app/authority/bootstrap.py:88-171 | creating a grant: the checks in their order, the default kind, the amount hashed as given and stored rounded, and at most one active grant per agent and policy |
| `BootstrapAuthority.GrantStore.ConsumeBootstrapAuthority` | backend/app/authority/bootstrap.py:237-284 | consuming: replay, exhaustion, scope and budget, and the new count and status |
| `BootstrapAuthority.GrantStore.RevokeBootstrapAuthority` | backend/app/authority/bootstrap.py:287-301 | revoking an active grant, and nothing otherwise |
| `BootstrapAuthority.AlwaysWellKept` | backend/app/authority/bootstrap.py:88-301 | the allowance of every grant agrees with the log, and at most one grant per agent and policy is active |
| `BootstrapAuthority.AllowanceIsExact` | backend/app/authority/bootstrap.py:248-284 | consumed counts distinct actions, stays within the limit, and bounds the total amount |
| `BootstrapAuthority.CreationExactly` | backend/app/authority/bootstrap.py:88-171 | a grant is created exactly for a sound request while the agent has no active one under the policy, and starts unused |
| `BootstrapAuthority.ConsumptionExactly` | backend/app/authority/bootstrap.py:237-266 | in every history consumption succeeds exactly for a repeated action, or within scope and budget of an active grant, and each refusal has its reason |
| `BootstrapAuthority.ConsumptionCounts` | backend/app/authority/bootstrap.py:254-284 | a new action is counted once and closes the grant with the last one; nothing else changes |
| `BootstrapAuthority.RevocationExactly` | backend/app/authority/bootstrap.py:287-301 | revoking closes exactly an active grant |
| `BootstrapAuthority.AtMostOneUsable` | backend/app/authority/bootstrap.py:174-191 | at most one grant is usable at any instant |
| `BootstrapAuthority.ResolutionExactly` | backend/app/authority/bootstrap.py:174-191 | resolution is never ambiguous, finds the usable grant if there is one, and fails exactly when the hash of that grant does not verify |
| `BootstrapAuthority.HashVerifiesExactly` | backend/app/authority/bootstrap.py:54-70 | in every history the hash of a grant verifies if and only if the text of the requested amount has at most six decimals; within 28 digits, if and only if the amount is whole in millionths |
| `BootstrapAuthority.FractionIsUnverified` | backend/app/authority/bootstrap.py:104-191 | a grant of 0.0000015 is created and then resolves to an unverified hash |
| `BootstrapAuthority.RetryIsIdempotent` | backend/app/authority/bootstrap.py:254-262 | repeating a consumption changes nothing |
| `BootstrapAuthority.ClosedForever` | backend/app/authority/bootstrap.py:237-301 | an exhausted or revoked grant is never touched again |
| `Slots.SlotBounds` | backend/app/autonomy/service.py:87-91 | the instant lies before the next slot always, and at or after its own slot exactly except just before a boundary before 1970 |
| `Slots.SkipMissed` | backend/app/autonomy/service.py:290-298 | the catch-up loop finds the first future slot, and from the slot after the instant's own it does nothing |
| `Slots.SlotMonotone` | backend/app/autonomy/service.py:87-91 | later instants never have earlier slots |
| `Slots.SlotsRiseExactly` | backend/app/autonomy/service.py:87-91 | after a change of cadence the next slot is later for every due instant if and only if the new grid does not reach back over the old step |
| `Slots.SlotsKeepTheDayExactly` | backend/app/autonomy/service.py:135-148 | slot and instant share their day for all instants if and only if the cadence divides 86400 |
| `Scheduler.Store.ScheduleDue` | backend/app/autonomy/service.py:177-300 | scheduling: gates, resumption of a live run, idempotent slots, caps and the next due slot |
| `SchedulerLaws.ScheduledExactly` | backend/app/autonomy/service.py:177-300 | a run is created exactly if policy, identity, longitudinal policy, profile, open runs, slot and due time admit it; its slot, price, state and reason are told by the request and the stored runs |
| `SchedulerLaws.ReturnedExactly` | backend/app/autonomy/service.py:252-300 | the caller gets the earliest live run of an HTTP policy, the run of the slot, the new run, or nothing |
| `SchedulerLaws.EveryRunWasCreated` | backend/app/autonomy/service.py:177-300 | in every history each run goes back to an admitted request and was skipped exactly for a reason |
| `SchedulerLaws.NothingWhileStopped` | backend/app/autonomy/service.py:179-265 | while a policy is switched off or halted no run of it is created, whatever happens otherwise |
| `Scheduler.Store.ClaimRun` | backend/app/autonomy/service.py:303-308 | a run is claimed exactly if it is scheduled |
| `Scheduler.Store.ExecuteClaimed` | backend/app/autonomy/service.py:311-444 | executing a claimed run: the refusals in their order, resumption, reservation, tasks and replay |
| `Scheduler.Store.CreateMandate` | backend/app/autonomy/service.py:377-431 | mandate, reservation and tasks of a run, or the failure that stops halfway |
| `Scheduler.Store.FinalizeHttpRun` | backend/app/autonomy/service.py:451-472 | closing the one open run of a mandate by what became of the mandate |
| `SchedulerLaws.ClaimedExactly` | backend/app/autonomy/service.py:303-308 | a claim takes exactly a scheduled run |
| `SchedulerLaws.ExecutionCompletesExactly` | backend/app/autonomy/service.py:311-444 | an execution ends completed exactly for a delivered mandate without queued tasks or a replay that matches, and waits exactly for rails that are not its own |
| `SchedulerLaws.ExecutionRunsExactly` | backend/app/autonomy/service.py:311-431 | it is running exactly if a queued task is taken up again or everything a start needs is there |
| `SchedulerLaws.ExecutionFailuresExactly` | backend/app/autonomy/service.py:311-444 | the failure names what stood in the way |
| `SchedulerLaws.StartExactly` | backend/app/autonomy/service.py:377-431 | starting creates one mandate, holds the reservation if it was granted, and queues one task per acquisition if the template holds |
| `SchedulerLaws.FinalizedExactly` | backend/app/autonomy/service.py:451-472 | the one open run of the mandate ends completed exactly if nothing failed and the mandate was delivered |
| `SchedulerLaws.RecoveredExactly` | backend/app/autonomy/service.py:475-497 | recovery hands back exactly the claimed and running runs whose lease does not hold |
| `SchedulerLaws.RequeuedExactly` | backend/app/autonomy/service.py:498-517 | a running task is queued again exactly if a run of its mandate waits to be claimed |
| `SchedulerLaws.AbandonedTasksFail` | backend/app/autonomy/service.py:518-539 | recovery fails exactly the running tasks beyond their grace period for which no run waits and the latest one is closed |
| `SchedulerLaws.AbandonedMandatesFail` | backend/app/autonomy/service.py:565-575 | a mandate neither ticketed nor failed fails exactly with its first abandoned task, and its reservation is released exactly if that one was certainly not paid |
| `Scheduler.Store.RecoverRuns` | backend/app/autonomy/service.py:475-577 | unleased runs are rescheduled, their running tasks queued again, and running tasks of closed runs failed with their mandates |
| `Scheduler.OrphansFail` | backend/app/autonomy/service.py:523-537 | the last recovery loop fails exactly the running tasks beyond their grace period whose latest run is closed |
| `Scheduler.OrphanedMandatesFail` | backend/app/autonomy/service.py:564-575 | a mandate fails exactly if it was open and has such a task, and loses its reservation exactly if besides nothing can have been spent on the first one |
| `Scheduler.OneLiveRunPerHttpPolicy` | backend/app/autonomy/service.py:252-263 | an HTTP policy has at most one run scheduled, claimed or running in every history |
| `Scheduler.OneRunPerSlot` | backend/app/autonomy/service.py:274-287 | no slot of a policy version ever has two runs |
| `Scheduler.OneMandatePerRun` | backend/app/autonomy/service.py:378-431 | each run creates at most one mandate and one reservation in every history |
| `Scheduler.TerminalForever` | backend/app/autonomy/service.py:303-506 | a completed, failed or skipped run is never touched again |
| `SchedulerSlots.CreatedSlotsRise` | backend/app/autonomy/service.py:274-299 | however the cadence is changed, runs are created for strictly increasing slots if no new grid reaches back over the step before |
| `SchedulerSlots.NextRunGoesForwardExactly` | backend/app/autonomy/service.py:274-299 | every next run at a new cadence is for a later slot if and only if the new grid does not reach back over the old step or the slot that is due has its run already |
| `SchedulerSlots.UnchangedCadenceRises` | backend/app/autonomy/service.py:274-299 | with an unchanged cadence runs are created for strictly increasing slots in every history |
| `SchedulerSlots.PatchedCadenceFallsBack` | backend/app/api/autonomy.py:81-94 | after a patch of the cadence from 900 to 3600 seconds the run that is due at 1800 gets slot 0, after the run for slot 900 |
| `SchedulerCaps.DayHoldsExactly` | backend/app/autonomy/service.py:135-174 | a day holds at most the cap or the slots that fit into it, and one more if the cadence does not divide the day; some history reaches that number |
| `SchedulerCaps.RunCapHoldsExactly` | backend/app/autonomy/service.py:146-155 | for a policy that keeps its cadence and cap, every day of every history keeps the cap on runs if and only if the cadence divides 86400 or the cap exceeds the whole steps of the day |
| `SchedulerCaps.BudgetHoldsExactly` | backend/app/autonomy/service.py:159-174 | what the budget counts of a day stays within it in every history without cost beyond plan if and only if the cadence divides the day, a run is always too dear, or the budget pays for every run a day can hold |
| `SchedulerCaps.FullCostWithinBudgetExactly` | backend/app/autonomy/service.py:159-174 | with the cost of failed runs a day stays within the budget in every such history if and only if a run is always too dear or the budget pays for every run a day can hold |
| `SchedulerCaps.FailedDayCosts` | backend/app/autonomy/service.py:159-174 | a day whose runs all fail at full cost costs that much for as many runs as it can hold, while the budget counts nothing |
| `Scheduler.InvalidTemplateLeavesReservation` | backend/app/autonomy/service.py:409-412 | an acquisition found invalid after the reservation leaves it held under a failed run without a mandate, exactly then |

## Left out

- The claim-verification engine and the target types other than CRYPTO_PRICE: the same fold over other comparisons.
- The typed partition of a relation delta and the conversion to floating point: reporting, and a numeric kernel that is not part of this model.
- The order inside the sorted tuples of a transition and of loss and gain: they are modelled as sets.
- The calendar text of timestamps, and Python's limits on the length of integers and on decimal exponents: timestamps enter as their UTC text.
- Content hashes of targets, evaluations, transitions and disclosure projections: they add a hash of modelled content.
- Validation of actor names, reasons and free text, and of identifiers that are empty.
- The eligibility test of bootstrap grants: a conjunction of independent conditions without state of its own.
- Lookup of the policy binding and of the recovery event, and the recording of recoveries: the binding and its event are given.
- Recovery payload checks on fields that no rule reads: one flag stands for them.
- The construction of observations from stored artifacts: the ordered stream is given.
- AuthorityProfiles.HashesAlwaysVerify: the hash is modelled by its content; that recomputing it from the stored columns gives the same content is assumed for profiles, and proved only for the amount of a bootstrap grant.
- Writing of audit events and of last-run times, row locks and the retry after a key conflict: one transaction is one step.
- The identity state written at the action boundary and the shadow observation of authorities: diagnostics.
- Rate limits, HTTP routing, gateway and chain clients: input and output.
- Trajectory.AcceptedExactly: takes points that satisfy the checks of their constructor, as every point of the source does.
