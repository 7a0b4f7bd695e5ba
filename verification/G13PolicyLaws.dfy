/**
 What the longitudinal policy answers, told by the facts of the observations alone (backend/app/authority/autonomy.py):
 the counts over causal executions, the causes of each outcome, and the gate before the next action.
 */
module G13PolicyLaws {
  import opened Wrappers
  import opened Ordering
  import opened FiniteSets
  import opened G13Policy

  // ---------------------------------------------------------------------------------------------------
  // What one observation says
  // ---------------------------------------------------------------------------------------------------

  /** Projections of one causal execution: of the same run, or one and the same observation without a run. */
  ghost predicate SameExecution(a: Observation, b: Observation) {
    a.run == b.run && (a.run.None? ==> a.id == b.id)
  }

  /** A call went further than a request, a refusal, or a reconciliation without payment. */
  ghost predicate Ran(o: Observation) {
    Succeeded in o.facts.statuses || exists n :: OtherStatus(n) in o.facts.statuses
  }

  ghost predicate Refused(o: Observation) {
    NotExecuted in o.facts.statuses || ReconciledNoPayment in o.facts.statuses
  }

  /** The failure is that of a service the agent depends on. */
  ghost predicate DependencyFailed(o: Observation) {
    var code := o.facts.failureCode;
    || code == Some(GatewayUnavailable) || code == Some(TelegraphUnavailable) || code == Some(TelegraphRequestFailed)
    || code == Some(FacilitatorTimeout) || code == Some(PaymentFailed) || code == Some(PaymentRequired)
  }

  /** Three such failures excuse an execution by themselves, the others once it is settled that nothing was paid. */
  ghost predicate Excused(o: Observation) {
    var code := o.facts.failureCode;
    || code == Some(TelegraphRequestFailed) || code == Some(FacilitatorTimeout) || code == Some(PaymentFailed)
    || (DependencyFailed(o) && ReconciledNoPayment in o.facts.statuses)
  }

  /** The record of a denial by the policy itself, or of a dispatch that was lost track of. */
  ghost predicate NotOfTheAgent(o: Observation) {
    var code := o.facts.failureCode;
    || code == Some(DeniedByReview) || code == Some(DeniedByHalt) || code == Some(ThrottleConstraintsRequired)
    || code == Some(OrphanedMandate)
  }

  ghost predicate DecidesBlock(o: Observation) {
    o.facts.decision == Some(Block) && !Excused(o) && !NotOfTheAgent(o)
  }

  ghost predicate Fails(o: Observation) {
    !o.facts.recovered && (o.facts.failureCode.Some? || o.facts.failureEvents) && !DependencyFailed(o) && !NotOfTheAgent(o)
  }

  ghost predicate Succeeds(o: Observation) {
    o.facts.ticketedAndComplete && Succeeded in o.facts.statuses
  }

  ghost predicate Probes(o: Observation) {
    o.facts.probeEvent
  }

  // ---------------------------------------------------------------------------------------------------
  // Counting executions by their first projections
  // ---------------------------------------------------------------------------------------------------

  ghost predicate IsFirst(os: seq<Observation>, i: int) {
    0 <= i < |os| && forall j | 0 <= j < i :: !SameExecution(os[j], os[i])
  }

  /** Some projection of the execution says so. */
  ghost predicate Shows(os: seq<Observation>, o: Observation, p: Observation -> bool) {
    exists x :: x in os && SameExecution(x, o) && p(x)
  }

  /** Denied and merely requested executions do not count. */
  ghost predicate Counts(os: seq<Observation>, o: Observation) {
    Shows(os, o, Ran) || !Shows(os, o, Refused)
  }

  ghost predicate BlockedRun(os: seq<Observation>, o: Observation) {
    Counts(os, o) && Shows(os, o, DecidesBlock) && !Shows(os, o, Excused)
  }

  ghost predicate FailedRun(os: seq<Observation>, o: Observation) {
    Counts(os, o) && Shows(os, o, Fails) && !Shows(os, o, Excused) && !Shows(os, o, Succeeds)
  }

  ghost predicate ExecutedRun(os: seq<Observation>, o: Observation) {
    Shows(os, o, Ran)
  }

  ghost function Where(os: seq<Observation>, p: (seq<Observation>, Observation) -> bool): set<int> {
    set i | 0 <= i < |os| && IsFirst(os, i) && p(os, os[i])
  }

  lemma SameUnit(a: Observation, b: Observation)
    ensures UnitOf(a) == UnitOf(b) <==> SameExecution(a, b)
  {
  }

  lemma FlagsAreFacts(o: Observation)
    ensures FlagsOf(o).executed <==> Ran(o)
    ensures FlagsOf(o).notExecuted <==> Refused(o)
    ensures FlagsOf(o).external <==> Excused(o)
    ensures FlagsOf(o).block <==> DecidesBlock(o)
    ensures FlagsOf(o).failure <==> Fails(o)
    ensures FlagsOf(o).success <==> Succeeds(o)
  {
    var rest := o.facts.statuses - NON_EXECUTION;
    if rest != {} {
      var s :| s in rest;
      assert s == Succeeded || s == OtherStatus(s.status);
    }
    if Succeeded in o.facts.statuses {
      assert Succeeded in rest;
    }
    if n :| OtherStatus(n) in o.facts.statuses {
      assert OtherStatus(n) in rest;
    }
  }

  /** What an aspect of an execution is, in facts. */
  ghost function Saying(a: Aspect): Observation -> bool {
    match a
    case Blocking => DecidesBlock
    case Failing => Fails
    case Unexecuted => Refused
    case Executing => Ran
    case ExternalFault => Excused
    case TerminalSuccess => Succeeds
  }

  lemma RaisedIsShown(os: seq<Observation>, o: Observation, a: Aspect)
    ensures Raised(os, UnitOf(o), a) <==> Shows(os, o, Saying(a))
  {
    forall x | x in os ensures UnitOf(x) == UnitOf(o) && FlagsOf(x).At(a) <==> SameExecution(x, o) && Saying(a)(x) {
      SameUnit(x, o);
      FlagsAreFacts(x);
    }
  }

  lemma StandingIsShown(os: seq<Observation>, o: Observation)
    ensures IsBlocked(os, UnitOf(o)) <==> BlockedRun(os, o)
    ensures IsFailed(os, UnitOf(o)) <==> FailedRun(os, o)
    ensures Raised(os, UnitOf(o), Executing) <==> ExecutedRun(os, o)
  {
    forall a: Aspect ensures Raised(os, UnitOf(o), a) <==> Shows(os, o, Saying(a)) {
      RaisedIsShown(os, o, a);
    }
    assert Saying(Blocking) == DecidesBlock && Saying(Failing) == Fails && Saying(Unexecuted) == Refused;
    assert Saying(Executing) == Ran && Saying(ExternalFault) == Excused && Saying(TerminalSuccess) == Succeeds;
  }

  lemma {:induction false} FirstProjection(os: seq<Observation>, k: nat) returns (i: nat)
    requires k < |os|
    ensures IsFirst(os, i) && SameExecution(os[i], os[k])
    decreases k
  {
    if j :| 0 <= j < k && SameExecution(os[j], os[k]) {
      i := FirstProjection(os, j);
    } else {
      i := k;
    }
  }

  function UnitAt(os: seq<Observation>): int -> UnitId {
    (i: int) => if 0 <= i < |os| then UnitOf(os[i]) else OfObservation(0)
  }

  lemma UnitsAreFirsts(os: seq<Observation>, p: (seq<Observation>, Observation) -> bool, units: set<UnitId>)
    requires forall o | o in os :: UnitOf(o) in units <==> p(os, o)
    requires forall u | u in units :: exists o :: o in os && UnitOf(o) == u
    ensures |units| == |Where(os, p)|
  {
    var firsts := Where(os, p);
    forall i, j | i in firsts && j in firsts && UnitAt(os)(i) == UnitAt(os)(j) ensures i == j {
      SameUnit(os[i], os[j]);
      SameUnit(os[j], os[i]);
    }
    forall u | u in units ensures exists i :: i in firsts && UnitAt(os)(i) == u {
      var o :| o in os && UnitOf(o) == u;
      var k :| 0 <= k < |os| && os[k] == o;
      var i := FirstProjection(os, k);
      SameUnit(os[i], os[k]);
      assert os[i] in os && i in firsts && UnitAt(os)(i) == u;
    }
    forall i | i in firsts ensures UnitAt(os)(i) in units {
      assert os[i] in os;
    }
    ImageSize(firsts, UnitAt(os), units);
  }

  /**
   The three counts: executions, each counted at its first projection, that some projection blocks, or fails, with no
   projection that excuses it, and that ran or were never refused; a failed one also without a terminal success.
   */
  lemma CountsFromFacts(os: seq<Observation>)
    ensures StatsOf(os) == Stats(|Where(os, BlockedRun)|, |Where(os, FailedRun)|, |Where(os, ExecutedRun)|)
  {
    forall o | o in os
      ensures UnitOf(o) in Blocked(os) <==> BlockedRun(os, o)
      ensures UnitOf(o) in Failed(os) <==> FailedRun(os, o)
      ensures UnitOf(o) in Executed(os) <==> ExecutedRun(os, o)
    {
      StandingIsShown(os, o);
    }
    UnitsAreFirsts(os, BlockedRun, Blocked(os));
    UnitsAreFirsts(os, FailedRun, Failed(os));
    UnitsAreFirsts(os, ExecutedRun, Executed(os));
  }

  // ---------------------------------------------------------------------------------------------------
  // The other counts
  // ---------------------------------------------------------------------------------------------------

  /** The observations, by place, that say so. */
  ghost function Places(os: seq<Observation>, p: Observation -> bool): set<int> {
    set i | 0 <= i < |os| && p(os[i])
  }

  lemma FilterCounts(os: seq<Observation>, f: Observation -> bool, p: Observation -> bool)
    requires forall o :: f(o) <==> p(o)
    ensures |Filter(os, f)| == |Places(os, p)|
  {
    FilterCountsPlaces(os, f, Places(os, p));
  }

  ghost predicate SaysBlock(o: Observation) {
    o.facts.decision == Some(Block)
  }

  ghost predicate SaysFailure(o: Observation) {
    o.facts.failureCode.Some? || o.facts.failureEvents
  }

  /** The failure of a dependency for which no episode is named, or a name is missing. */
  ghost predicate Unnamed(o: Observation) {
    DependencyFailed(o) && (o.facts.episodes == [] || exists k :: 0 <= k < |o.facts.episodes| && o.facts.episodes[k].None?)
  }

  ghost function NamedEpisodes(os: seq<Observation>): set<EpisodeId> {
    set o, k | o in os && DependencyFailed(o) && 0 <= k < |o.facts.episodes| && o.facts.episodes[k].Some? :: o.facts.episodes[k].value
  }

  ghost function UnnamedIds(os: seq<Observation>): set<ObservationId> {
    set o | o in os && Unnamed(o) :: o.id
  }

  ghost predicate DependentRun(os: seq<Observation>, o: Observation) {
    Shows(os, o, DependencyFailed)
  }

  ghost predicate ProbingRun(os: seq<Observation>, o: Observation) {
    Shows(os, o, Probes)
  }

  lemma DependencyFacts(o: Observation)
    ensures IsExternalFailure(o) <==> DependencyFailed(o)
    ensures IsExternalFailure(o) && LacksIdentity(o) <==> Unnamed(o)
  {
  }

  function KnownKey(): EpisodeId -> EpisodeKey {
    (e: EpisodeId) => Known(e)
  }

  function UnknownKey(): ObservationId -> EpisodeKey {
    (id: ObservationId) => UnknownFor(id)
  }

  lemma KeysAreEpisodes(os: seq<Observation>)
    ensures |Episodes(os)| == |NamedEpisodes(os)| + |UnnamedIds(os)|
  {
    var named := set e | e in NamedEpisodes(os) :: KnownKey()(e);
    var unnamed := set id | id in UnnamedIds(os) :: UnknownKey()(id);
    ImageSize(NamedEpisodes(os), KnownKey(), named);
    ImageSize(UnnamedIds(os), UnknownKey(), unnamed);
    KeysSplit(os, named, unnamed);
    assert named !! unnamed;
  }

  lemma KeysSplit(os: seq<Observation>, named: set<EpisodeKey>, unnamed: set<EpisodeKey>)
    requires named == set e | e in NamedEpisodes(os) :: KnownKey()(e)
    requires unnamed == set id | id in UnnamedIds(os) :: UnknownKey()(id)
    ensures Episodes(os) == named + unnamed
  {
    forall k | k in Episodes(os) ensures k in named + unnamed {
      var o :| o in os && IsExternalFailure(o) && k in EpisodeKeys(o);
      DependencyFacts(o);
      if k.Known? {
        var j :| 0 <= j < |o.facts.episodes| && o.facts.episodes[j] == Some(k.episode);
        assert k.episode in NamedEpisodes(os);
      } else {
        assert o.id in UnnamedIds(os);
      }
    }
    forall k | k in named + unnamed ensures k in Episodes(os) {
      if k.Known? {
        var o, j :| o in os && DependencyFailed(o) && 0 <= j < |o.facts.episodes| && o.facts.episodes[j] == Some(k.episode);
        DependencyFacts(o);
        assert o.facts.episodes[j] in o.facts.episodes && k in EpisodeKeys(o);
      } else {
        var o :| o in os && Unnamed(o) && o.id == k.id;
        DependencyFacts(o);
        assert k in EpisodeKeys(o);
      }
    }
  }

  /** Under v0.4 and v0.5 the episodes of failed dependencies count, each unnamed one for itself; under v0.3 the executions that had one. */
  lemma DependenciesFromFacts(input: PolicyInput)
    ensures ExternalCount(input) ==
            (match input.version
             case V1 => 0
             case V2 => 0
             case V3 => |Where(input.observations, DependentRun)|
             case V4 => |NamedEpisodes(input.observations)| + |UnnamedIds(input.observations)|
             case V5 => |NamedEpisodes(input.observations)| + |UnnamedIds(input.observations)|)
    ensures MissingIdentities(input) == if input.version == V4 || input.version == V5 then |Places(input.observations, Unnamed)| else 0
  {
    var os := input.observations;
    KeysAreEpisodes(os);
    forall o ensures IsExternalFailure(o) <==> DependencyFailed(o)
             ensures IsExternalFailure(o) && LacksIdentity(o) <==> Unnamed(o)
    {
      DependencyFacts(o);
    }
    FilterCounts(os, (o: Observation) => IsExternalFailure(o) && LacksIdentity(o), Unnamed);
    ShownUnits(os, DependencyFailed, DependentRun, ExternalUnits(os));
  }

  lemma ShownUnits(os: seq<Observation>, p: Observation -> bool, shown: (seq<Observation>, Observation) -> bool, units: set<UnitId>)
    requires units == set o | o in os && p(o) :: UnitOf(o)
    requires forall o | o in os :: shown(os, o) <==> Shows(os, o, p)
    ensures |units| == |Where(os, shown)|
  {
    forall o | o in os ensures UnitOf(o) in units <==> shown(os, o) {
      forall x | x in os ensures UnitOf(x) == UnitOf(o) <==> SameExecution(x, o) {
        SameUnit(x, o);
      }
    }
    UnitsAreFirsts(os, shown, units);
  }

  /** Under v0.4 and v0.5 the executions that show a probe count, or the attempt carried in from the log. */
  lemma AttemptsFromFacts(input: PolicyInput)
    ensures var seen := |Where(input.observations, ProbingRun)|;
            ProbeAttempts(input) == if input.version != V4 && input.version != V5 then 0
                                    else if seen >= input.probeAttempts then seen else input.probeAttempts
  {
    ShownUnits(input.observations, Probes, ProbingRun, ProbeUnits(input.observations));
  }

  /** The legacy version counts observations, every other version executions. */
  lemma RuleCountsFromFacts(input: PolicyInput)
    ensures CountsOf(input) ==
            if input.version == V1 then Stats(|Places(input.observations, SaysBlock)|, |Places(input.observations, SaysFailure)|, 0)
            else Stats(|Where(input.observations, BlockedRun)|, |Where(input.observations, FailedRun)|, |Where(input.observations, ExecutedRun)|)
  {
    CountsFromFacts(input.observations);
    FilterCounts(input.observations, (o: Observation) => o.facts.decision == Some(Block), SaysBlock);
    FilterCounts(input.observations, (o: Observation) => o.facts.failureCode.Some? || o.facts.failureEvents, SaysFailure);
  }

  // ---------------------------------------------------------------------------------------------------
  // Why each rule fires
  // ---------------------------------------------------------------------------------------------------

  ghost predicate UnderRecovery(input: PolicyInput) {
    input.version == V3 || input.version == V4 || input.version == V5
  }

  ghost predicate UnderReviewRecovery(input: PolicyInput) {
    input.version == V4 || input.version == V5
  }

  /** The version asks for a recovery, and there is one that grants exactly one execution, one at a time unless of an endpoint. */
  ghost predicate Recovered(input: PolicyInput) {
    UnderRecovery(input) && exists r :: input.recovery == Some(r) && Grants(r)
  }

  ghost predicate Grants(r: Recovery) {
    && r.otherFieldsValid && r.executionLimit == 1
    && (r.contract == EndpointRecovery
        || ((r.contract == ReviewRecovery || r.contract == ReviewRecoveryV2 || r.contract == CurrentReviewRecovery) && r.concurrencyLimit == 1))
  }

  ghost predicate Last(os: seq<Observation>, o: Observation) {
    os != [] && o == os[|os| - 1]
  }

  /** The latest observation lacks data that were not expected to lack; under a pending recovery only if its call ran. */
  ghost predicate IncompleteNow(input: PolicyInput, o: Observation) {
    Last(input.observations, o) && (input.recovery.None? || Ran(o)) && exists m :: m in o.missing && m !in input.expectedMissing
  }

  /** A probe may go: the recovery holds, nothing ran since, and under the review recoveries none was tried. */
  ghost predicate MayProbe(input: PolicyInput) {
    && Recovered(input) && Where(input.observations, ExecutedRun) == {}
    && (UnderReviewRecovery(input) ==> Where(input.observations, ProbingRun) == {} && input.probeAttempts == 0)
  }

  ghost function BlockCount(input: PolicyInput): nat {
    if input.version == V1 then |Places(input.observations, SaysBlock)| else |Where(input.observations, BlockedRun)|
  }

  ghost function FailureCount(input: PolicyInput): nat {
    if input.version == V1 then |Places(input.observations, SaysFailure)| else |Where(input.observations, FailedRun)|
  }

  ghost function DependencyCount(input: PolicyInput): nat {
    var os := input.observations;
    if UnderReviewRecovery(input) then |NamedEpisodes(os)| + |UnnamedIds(os)|
    else if input.version == V3 then |Where(os, DependentRun)|
    else 0
  }

  /** The cause of each rule. */
  ghost predicate Cause(input: PolicyInput, rule: Rule) {
    match rule
    case IdentityOrTrajectoryIntegrity => input.integrity != {} || (UnderRecovery(input) && !Recovered(input))
    case TrajectoryMissing => input.observations == [] && !Recovered(input)
    case CurrentCriticalObservationMissing =>
      exists o :: IncompleteNow(input, o) && !(UnderRecovery(input) && DependencyFailed(o))
        && o.facts.failureCode !in {Some(TelegraphRequestFailed), Some(FacilitatorTimeout), Some(PaymentFailed)}
    case ExternalDegradation => exists o :: IncompleteNow(input, o) && UnderRecovery(input) && DependencyFailed(o)
    case RecoveryCanary => MayProbe(input)
    case ExternalRecurrence => DependencyCount(input) >= 3
    case EpisodeIdentityMissing =>
      && UnderReviewRecovery(input) && Places(input.observations, Unnamed) != {}
      && exists o :: Last(input.observations, o) && Ran(o) && o.missing == {}
    case RepeatedLocalBlock => BlockCount(input) >= 2
    case LocalBlockDegradation => BlockCount(input) == 1
    case RepeatedExecutionFailure => FailureCount(input) >= 2
    case ExecutionFailureDegradation => FailureCount(input) == 1
  }

  ghost function Consequence(rule: Rule): Outcome {
    match rule
    case IdentityOrTrajectoryIntegrity => Halt
    case TrajectoryMissing => Review
    case CurrentCriticalObservationMissing => Review
    case ExternalRecurrence => Review
    case EpisodeIdentityMissing => Review
    case RepeatedLocalBlock => Review
    case RepeatedExecutionFailure => Review
    case _ => Throttle
  }

  lemma RecoveredExactly(input: PolicyInput)
    ensures HasValidRecovery(input) <==> Recovered(input)
  {
  }

  lemma RanIsExecuted(o: Observation)
    ensures ExecutedNow(o) <==> Ran(o)
  {
    FlagsAreFacts(o);
  }

  lemma IncompleteExactly(input: PolicyInput, o: Observation)
    requires Last(input.observations, o)
    ensures IncompleteNow(input, o) <==> CurrentMissing(input) - input.expectedMissing != {}
  {
    RanIsExecuted(o);
    var missing := CurrentMissing(input) - input.expectedMissing;
    if m :| m in o.missing && m !in input.expectedMissing && IncompleteNow(input, o) {
      assert m in missing;
    }
    if missing != {} {
      var m :| m in missing;
      assert m in o.missing;
    }
  }

  lemma EmptySize<T>(a: set<T>)
    ensures |a| == 0 <==> a == {}
  {
  }

  lemma MayProbeExactly(input: PolicyInput)
    ensures ProbeAuthorized(input) <==> MayProbe(input)
  {
    RecoveredExactly(input);
    RuleCountsFromFacts(input);
    AttemptsFromFacts(input);
    EmptySize(Where(input.observations, ExecutedRun));
    EmptySize(Where(input.observations, ProbingRun));
  }

  lemma IdentityRuleExactly(input: PolicyInput)
    ensures IdentityRuleApplies(input) <==> Cause(input, EpisodeIdentityMissing)
  {
    DependenciesFromFacts(input);
    EmptySize(Places(input.observations, Unnamed));
    if input.observations != [] {
      var o := input.observations[|input.observations| - 1];
      RanIsExecuted(o);
      assert Last(input.observations, o);
    }
  }

  lemma MissingDataExactly(input: PolicyInput)
    ensures MissingThroughFault(input) <==> Cause(input, ExternalDegradation)
    ensures MissingUnexplained(input) <==> Cause(input, CurrentCriticalObservationMissing)
  {
    if input.observations != [] {
      var o := input.observations[|input.observations| - 1];
      assert Last(input.observations, o);
      IncompleteExactly(input, o);
      DependencyFacts(o);
    }
  }

  // ---------------------------------------------------------------------------------------------------
  // The rules and the outcome
  // ---------------------------------------------------------------------------------------------------

  ghost predicate Fired(ts: seq<Trigger>, rule: Rule) {
    exists t :: t in ts && t.rule == rule
  }

  lemma FiredByEither(a: seq<Trigger>, b: seq<Trigger>, rule: Rule)
    ensures Fired(a + b, rule) <==> Fired(a, rule) || Fired(b, rule)
  {
    if t :| t in a && t.rule == rule {
      assert t in a + b;
    }
    if t :| t in b && t.rule == rule {
      assert t in a + b;
    }
  }

  lemma FiredWhen(condition: bool, fires: Rule, result: Outcome, rule: Rule)
    ensures Fired(When(condition, fires, result), rule) <==> condition && fires == rule
  {
    if condition {
      assert Trigger(fires, result) in When(condition, fires, result);
    }
  }

  lemma RulesFired(ts: seq<Trigger>, rule: Rule)
    ensures rule in RulesOf(ts) <==> Fired(ts, rule)
  {
    if rule in RulesOf(ts) {
      var i :| 0 <= i < |ts| && RulesOf(ts)[i] == rule;
      assert ts[i] in ts;
    }
    if t :| t in ts && t.rule == rule {
      var i :| 0 <= i < |ts| && ts[i] == t;
      assert RulesOf(ts)[i] == rule;
    }
  }

  lemma MissingDataFires(input: PolicyInput, rule: Rule)
    ensures Fired(MissingDataTrigger(input), rule)
       <==> (rule == ExternalDegradation && MissingThroughFault(input)) || (rule == CurrentCriticalObservationMissing && MissingUnexplained(input))
  {
    var fault := Trigger(ExternalDegradation, Throttle);
    assert fault in [fault];
    if Latest(input.observations).Some? {
      FiredWhen(!CodeIn(Latest(input.observations).value.facts, NON_BLOCKING_CODES), CurrentCriticalObservationMissing, Review, rule);
    }
  }

  lemma TrajectoryFires(input: PolicyInput, rule: Rule)
    ensures Fired(TrajectoryTriggers(input), rule)
       <==> || (rule == IdentityOrTrajectoryIntegrity && HaltCause(input))
            || (rule == TrajectoryMissing && input.observations == [] && !HasValidRecovery(input))
            || (rule == ExternalDegradation && MissingThroughFault(input))
            || (rule == CurrentCriticalObservationMissing && MissingUnexplained(input))
  {
    var a := When(input.version.IsRecovery() && !HasValidRecovery(input), IdentityOrTrajectoryIntegrity, Halt);
    var b := When(input.observations == [] && !HasValidRecovery(input), TrajectoryMissing, Review);
    var c := When(input.integrity != {}, IdentityOrTrajectoryIntegrity, Halt);
    FiredByEither(a + b + c, MissingDataTrigger(input), rule);
    FiredByEither(a + b, c, rule);
    FiredByEither(a, b, rule);
    MissingDataFires(input, rule);
    FiredWhen(input.version.IsRecovery() && !HasValidRecovery(input), IdentityOrTrajectoryIntegrity, Halt, rule);
    FiredWhen(input.observations == [] && !HasValidRecovery(input), TrajectoryMissing, Review, rule);
    FiredWhen(input.integrity != {}, IdentityOrTrajectoryIntegrity, Halt, rule);
  }

  lemma ExternalsFire(input: PolicyInput, rule: Rule)
    ensures Fired(ExternalTriggers(input), rule)
       <==> || (rule == RecoveryCanary && ProbeAuthorized(input))
            || (rule == ExternalRecurrence && ExternalCount(input) >= RECURRENCE_THRESHOLD)
            || (rule == EpisodeIdentityMissing && IdentityRuleApplies(input))
  {
    var a := When(ProbeAuthorized(input), RecoveryCanary, Throttle);
    var b := When(ExternalCount(input) >= RECURRENCE_THRESHOLD, ExternalRecurrence, Review);
    FiredByEither(a + b, When(IdentityRuleApplies(input), EpisodeIdentityMissing, Review), rule);
    FiredByEither(a, b, rule);
    FiredWhen(ProbeAuthorized(input), RecoveryCanary, Throttle, rule);
    FiredWhen(ExternalCount(input) >= RECURRENCE_THRESHOLD, ExternalRecurrence, Review, rule);
    FiredWhen(IdentityRuleApplies(input), EpisodeIdentityMissing, Review, rule);
  }

  lemma CountFires(count: nat, repeated: Rule, single: Rule, rule: Rule)
    requires repeated != single
    ensures Fired(CountTrigger(count, repeated, single), rule) <==> (rule == repeated && count >= 2) || (rule == single && count == 1)
  {
    FiredWhen(true, repeated, Review, rule);
    FiredWhen(count == 1, single, Throttle, rule);
  }

  lemma CountsFire(counts: Stats, rule: Rule)
    ensures Fired(CountTriggers(counts), rule)
       <==> || (rule == RepeatedLocalBlock && counts.blocks >= 2) || (rule == LocalBlockDegradation && counts.blocks == 1)
            || (rule == RepeatedExecutionFailure && counts.failures >= 2) || (rule == ExecutionFailureDegradation && counts.failures == 1)
  {
    FiredByEither(CountTrigger(counts.blocks, RepeatedLocalBlock, LocalBlockDegradation),
                  CountTrigger(counts.failures, RepeatedExecutionFailure, ExecutionFailureDegradation), rule);
    CountFires(counts.blocks, RepeatedLocalBlock, LocalBlockDegradation, rule);
    CountFires(counts.failures, RepeatedExecutionFailure, ExecutionFailureDegradation, rule);
  }

  lemma CausesExactly(input: PolicyInput, rule: Rule)
    ensures Cause(input, rule) <==>
              match rule
              case IdentityOrTrajectoryIntegrity => HaltCause(input)
              case TrajectoryMissing => input.observations == [] && !HasValidRecovery(input)
              case CurrentCriticalObservationMissing => MissingUnexplained(input)
              case ExternalDegradation => MissingThroughFault(input)
              case RecoveryCanary => ProbeAuthorized(input)
              case ExternalRecurrence => ExternalCount(input) >= RECURRENCE_THRESHOLD
              case EpisodeIdentityMissing => IdentityRuleApplies(input)
              case RepeatedLocalBlock => CountsOf(input).blocks >= 2
              case LocalBlockDegradation => CountsOf(input).blocks == 1
              case RepeatedExecutionFailure => CountsOf(input).failures >= 2
              case ExecutionFailureDegradation => CountsOf(input).failures == 1
  {
    RecoveredExactly(input);
    MissingDataExactly(input);
    MayProbeExactly(input);
    DependenciesFromFacts(input);
    IdentityRuleExactly(input);
    RuleCountsFromFacts(input);
  }

  /** A rule fires exactly on its cause. */
  lemma RuleFiresExactly(input: PolicyInput, rule: Rule)
    ensures rule in EvaluationOf(input).triggered <==> Cause(input, rule)
  {
    RulesFired(Triggers(input), rule);
    FiredByEither(TrajectoryTriggers(input) + ExternalTriggers(input), CountTriggers(CountsOf(input)), rule);
    FiredByEither(TrajectoryTriggers(input), ExternalTriggers(input), rule);
    TrajectoryFires(input, rule);
    ExternalsFire(input, rule);
    CountsFire(CountsOf(input), rule);
    CausesExactly(input, rule);
  }

  /** Some rule with the outcome has its cause. */
  ghost predicate Called(input: PolicyInput, outcome: Outcome) {
    exists rule :: Consequence(rule) == outcome && ((r: Rule) => Cause(input, r))(rule)
  }

  lemma CalledExactly(input: PolicyInput)
    ensures Called(input, Halt) <==> HaltCause(input)
    ensures Called(input, Review) <==> ReviewCause(input)
    ensures Called(input, Throttle) <==> ThrottleCause(input)
  {
    CausesOf(input);
    ByConsequence((rule: Rule) => Cause(input, rule));
  }

  lemma ByConsequence(p: Rule -> bool)
    ensures (exists rule :: Consequence(rule) == Halt && p(rule)) <==> p(IdentityOrTrajectoryIntegrity)
    ensures (exists rule :: Consequence(rule) == Review && p(rule)) <==>
              || p(TrajectoryMissing) || p(CurrentCriticalObservationMissing) || p(ExternalRecurrence)
              || p(EpisodeIdentityMissing) || p(RepeatedLocalBlock) || p(RepeatedExecutionFailure)
    ensures (exists rule :: Consequence(rule) == Throttle && p(rule)) <==>
              || p(ExternalDegradation) || p(RecoveryCanary) || p(LocalBlockDegradation) || p(ExecutionFailureDegradation)
  {
    assert Consequence(IdentityOrTrajectoryIntegrity) == Halt;
    assert Consequence(TrajectoryMissing) == Review && Consequence(CurrentCriticalObservationMissing) == Review;
    assert Consequence(ExternalRecurrence) == Review && Consequence(EpisodeIdentityMissing) == Review;
    assert Consequence(RepeatedLocalBlock) == Review && Consequence(RepeatedExecutionFailure) == Review;
    assert Consequence(ExternalDegradation) == Throttle && Consequence(RecoveryCanary) == Throttle;
    assert Consequence(LocalBlockDegradation) == Throttle && Consequence(ExecutionFailureDegradation) == Throttle;
  }

  lemma CausesOf(input: PolicyInput)
    ensures HaltCause(input) <==> Cause(input, IdentityOrTrajectoryIntegrity)
    ensures ReviewCause(input) <==>
              || Cause(input, TrajectoryMissing) || Cause(input, CurrentCriticalObservationMissing) || Cause(input, ExternalRecurrence)
              || Cause(input, EpisodeIdentityMissing) || Cause(input, RepeatedLocalBlock) || Cause(input, RepeatedExecutionFailure)
    ensures ThrottleCause(input) <==>
              || Cause(input, ExternalDegradation) || Cause(input, RecoveryCanary)
              || Cause(input, LocalBlockDegradation) || Cause(input, ExecutionFailureDegradation)
  {
    CausesExactly(input, IdentityOrTrajectoryIntegrity);
    CausesExactly(input, TrajectoryMissing);
    CausesExactly(input, CurrentCriticalObservationMissing);
    CausesExactly(input, ExternalRecurrence);
    CausesExactly(input, EpisodeIdentityMissing);
    CausesExactly(input, RepeatedLocalBlock);
    CausesExactly(input, RepeatedExecutionFailure);
    CausesExactly(input, ExternalDegradation);
    CausesExactly(input, RecoveryCanary);
    CausesExactly(input, LocalBlockDegradation);
    CausesExactly(input, ExecutionFailureDegradation);
  }

  /** The outcome is the gravest consequence that some cause calls for, and CONTINUE without any. */
  lemma OutcomeFromFacts(input: PolicyInput)
    ensures EvaluationOf(input).outcome ==
            if Called(input, Halt) then Halt else if Called(input, Review) then Review else if Called(input, Throttle) then Throttle else Continue
  {
    OutcomeExactly(input);
    CalledExactly(input);
  }

  /** What the evaluation reports besides: the counts, the authorization of a probe, and the rule if there is only one. */
  lemma ReportFromFacts(input: PolicyInput)
    ensures var e, os := EvaluationOf(input), input.observations;
            && e.blocks == BlockCount(input) && e.failures == FailureCount(input)
            && e.executions == (if input.version == V1 then 0 else |Where(os, ExecutedRun)|)
            && e.externals == DependencyCount(input)
            && e.missingIdentities == (if UnderReviewRecovery(input) then |Places(os, Unnamed)| else 0)
            && (e.probeAuthorized <==> MayProbe(input))
            && (forall rule :: e.soleBlocker == Some(rule) <==> e.triggered == [rule])
  {
    RuleCountsFromFacts(input);
    DependenciesFromFacts(input);
    MayProbeExactly(input);
    var triggered := EvaluationOf(input).triggered;
    assert |triggered| == 1 ==> triggered == [triggered[0]];
  }

  // ---------------------------------------------------------------------------------------------------
  // Two streams, from end to end
  // ---------------------------------------------------------------------------------------------------

  /** A projection of a permitted execution that ended in a complete ticket. */
  ghost predicate PermittedSuccess(o: Observation) {
    && o.facts.decision == Some(Permit) && o.facts.failureCode.None?
    && o.facts.statuses == {Succeeded} && o.facts.ticketedAndComplete
  }

  lemma NothingWhere(os: seq<Observation>, p: (seq<Observation>, Observation) -> bool)
    requires forall o | o in os :: !p(os, o)
    ensures Where(os, p) == {}
  {
    forall i | 0 <= i < |os| ensures !p(os, os[i]) {
      assert os[i] in os;
    }
  }

  lemma SuccessesStandWell(os: seq<Observation>, o: Observation)
    requires (forall x | x in os :: PermittedSuccess(x)) && o in os
    ensures !BlockedRun(os, o) && !FailedRun(os, o)
  {
    assert SameExecution(o, o) && Succeeds(o);
    assert Shows(os, o, Succeeds);
  }

  lemma SuccessesGiveNoCause(input: PolicyInput, rule: Rule)
    requires input.version == V2 && input.integrity == {} && input.observations != []
    requires forall o | o in input.observations :: PermittedSuccess(o) && o.missing <= input.expectedMissing
    ensures !Cause(input, rule)
  {
    var os := input.observations;
    forall o | o in os ensures !BlockedRun(os, o) && !FailedRun(os, o) {
      SuccessesStandWell(os, o);
    }
    NothingWhere(os, BlockedRun);
    NothingWhere(os, FailedRun);
    assert os[|os| - 1] in os;
  }

  /** Under v0.2, permitted executions that all succeeded leave the agent alone, however many there are. */
  lemma SuccessesContinue(input: PolicyInput)
    requires input.version == V2 && input.integrity == {} && input.observations != []
    requires forall o | o in input.observations :: PermittedSuccess(o) && o.missing <= input.expectedMissing
    ensures EvaluationOf(input).outcome == Continue && EvaluationOf(input).triggered == []
  {
    var triggered := EvaluationOf(input).triggered;
    if triggered != [] {
      RuleFiresExactly(input, triggered[0]);
      SuccessesGiveNoCause(input, triggered[0]);
    }
    ContinueExactly(input);
  }

  /** The execution was blocked by the agent's own decision, ran, and nothing excuses it. */
  ghost predicate CleanBlock(os: seq<Observation>, o: Observation) {
    o in os && DecidesBlock(o) && Ran(o) && forall x | x in os && SameExecution(x, o) :: !Excused(x)
  }

  lemma TwoPlaces(os: seq<Observation>, a: Observation, b: Observation)
    requires CleanBlock(os, a) && CleanBlock(os, b) && !SameExecution(a, b)
    ensures |Where(os, BlockedRun)| >= 2
  {
    var k :| 0 <= k < |os| && os[k] == a;
    var l :| 0 <= l < |os| && os[l] == b;
    var i := FirstProjection(os, k);
    var j := FirstProjection(os, l);
    BlockIsShown(os, os[i], a);
    BlockIsShown(os, os[j], b);
    assert {i, j} <= Where(os, BlockedRun);
    SubsetSize({i, j}, Where(os, BlockedRun));
  }

  lemma BlockIsShown(os: seq<Observation>, o: Observation, a: Observation)
    requires CleanBlock(os, a) && SameExecution(o, a)
    ensures BlockedRun(os, o)
  {
    assert SameExecution(a, o);
    assert Shows(os, o, DecidesBlock) && Shows(os, o, Ran);
  }

  /** Two executions that the agent itself blocked call for a review, whatever else the stream holds. */
  lemma TwoBlocksReview(input: PolicyInput, a: Observation, b: Observation)
    requires input.version != V1 && input.integrity == {} && (UnderRecovery(input) ==> Recovered(input))
    requires CleanBlock(input.observations, a) && CleanBlock(input.observations, b) && !SameExecution(a, b)
    ensures EvaluationOf(input).outcome == Review && RepeatedLocalBlock in EvaluationOf(input).triggered
  {
    TwoPlaces(input.observations, a, b);
    assert Cause(input, RepeatedLocalBlock);
    CalledExactly(input);
    CausesOf(input);
    OutcomeFromFacts(input);
    RuleFiresExactly(input, RepeatedLocalBlock);
  }

  // ---------------------------------------------------------------------------------------------------
  // The gate before the next action
  // ---------------------------------------------------------------------------------------------------

  /** The action passes exactly if it is permitted locally and paid for, and no longitudinal outcome stands in its way. */
  lemma GatePassesExactly(g: Gate)
    ensures PreNextActionGate(g).0 <==>
              && g.local == Some(Permit) && g.economic && g.longitudinal != Halt
              && (g.longitudinal == Review ==> g.probeAuthorized || g.observationPermitted || g.bootstrap)
              && (g.longitudinal == Throttle ==> g.throttleSatisfied)
  {
  }

  /** The reason it gives: the first authority that refuses, and on passing whether a bootstrap grant overrode a review. */
  lemma GateReasonsExactly(g: Gate)
    ensures var (passes, reason) := PreNextActionGate(g);
            && (reason == LocalEpistemicDenial <==> g.local != Some(Permit))
            && (reason == EconomicDenial <==> g.local == Some(Permit) && !g.economic)
            && (reason.LongitudinalDenial? <==> !passes && g.local == Some(Permit) && g.economic)
            && (reason.LongitudinalDenial? ==>
                  reason.code == match g.longitudinal
                                 case Halt => DeniedByHalt
                                 case Review => DeniedByReview
                                 case _ => ThrottleConstraintsRequired)
            && (reason == BootstrapAuthorization <==> passes && g.longitudinal == Review && g.bootstrap)
            && (reason == NextActionAuthorized <==> passes && !(g.longitudinal == Review && g.bootstrap))
  {
  }
}
