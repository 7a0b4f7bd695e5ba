/**
 The longitudinal autonomy policy (backend/app/authority/autonomy.py): execution statistics over causal runs, the rules
 and their precedence, and the gate before the next action.

 An observation keeps the facts the policy reads. Codes and statuses that no rule names are numbered.
 */
module G13Policy {
  import opened Wrappers
  import opened Ordering
  import opened FiniteSets

  type Time = int
  type ObservationId = nat
  type SourceId = nat
  type RunId = nat
  type EpisodeId = nat
  type AgentId = nat

  datatype FailureCode =
    | GatewayUnavailable
    | TelegraphUnavailable
    | TelegraphRequestFailed
    | FacilitatorTimeout
    | PaymentFailed
    | PaymentRequired
    | OrphanedMandate
    | DeniedByReview
    | DeniedByHalt
    | ThrottleConstraintsRequired
    | OtherFailure(code: nat)

  datatype CallStatus = NotExecuted | Requested | ReconciledNoPayment | Succeeded | OtherStatus(status: nat)

  datatype LocalDecision = Permit | Block | OtherDecision

  datatype Missing =
    | EvidenceNotPresent
    | EvaluationNotPresent
    | DecisionNotPresent
    | LatencyNotAvailable
    | TicketNotPresent
    | OtherMissing(code: nat)

  /** Whether all six parts of a terminal success that are not call statuses are there is one flag; so is the presence of failure events. */
  datatype Facts = Facts(
    failureCode: Option<FailureCode>, failureEvents: bool, recovered: bool,
    statuses: set<CallStatus>, decision: Option<LocalDecision>, ticketedAndComplete: bool,
    episodes: seq<Option<EpisodeId>>, probeEvent: bool, runSkipped: bool)

  datatype Source = IdentityAnchor | OtherSource

  datatype Observation = Observation(id: ObservationId, source: Source, sourceId: SourceId, observedAt: Option<Time>,
                                     run: Option<RunId>, facts: Facts, missing: set<Missing>)

  /** The causal execution an observation is a projection of. */
  datatype UnitId = OfRun(run: RunId) | OfObservation(id: ObservationId)

  function UnitOf(o: Observation): UnitId {
    if o.run.Some? then OfRun(o.run.value) else OfObservation(o.id)
  }

  const EXTERNAL_CODES: set<FailureCode> :=
    {GatewayUnavailable, TelegraphUnavailable, TelegraphRequestFailed, FacilitatorTimeout, PaymentFailed, PaymentRequired}
  const NON_BLOCKING_CODES: set<FailureCode> := {TelegraphRequestFailed, FacilitatorTimeout, PaymentFailed}
  const BOOKKEEPING_CODES: set<FailureCode> := {OrphanedMandate}
  const DENIAL_CODES: set<FailureCode> := {DeniedByReview, DeniedByHalt, ThrottleConstraintsRequired}
  const NON_EXECUTION: set<CallStatus> := {NotExecuted, Requested, ReconciledNoPayment}

  predicate CodeIn(f: Facts, codes: set<FailureCode>) {
    f.failureCode.Some? && f.failureCode.value in codes
  }

  // ---------------------------------------------------------------------------------------------------
  // Execution statistics
  // ---------------------------------------------------------------------------------------------------

  datatype Aspect = Blocking | Failing | Unexecuted | Executing | ExternalFault | TerminalSuccess

  /** What is known of one causal execution. */
  datatype Flags = Flags(block: bool, failure: bool, notExecuted: bool, executed: bool, external: bool, success: bool) {
    function Or(f: Flags): Flags {
      Flags(block || f.block, failure || f.failure, notExecuted || f.notExecuted, executed || f.executed,
            external || f.external, success || f.success)
    }

    predicate At(a: Aspect) {
      match a
      case Blocking => block
      case Failing => failure
      case Unexecuted => notExecuted
      case Executing => executed
      case ExternalFault => external
      case TerminalSuccess => success
    }
  }

  const NO_FLAGS := Flags(false, false, false, false, false, false)

  predicate IsExternal(f: Facts) {
    CodeIn(f, NON_BLOCKING_CODES) || (ReconciledNoPayment in f.statuses && CodeIn(f, EXTERNAL_CODES))
  }

  predicate IsExempt(f: Facts) {
    CodeIn(f, EXTERNAL_CODES) || CodeIn(f, BOOKKEEPING_CODES) || CodeIn(f, DENIAL_CODES)
  }

  /** What one projection says about its execution. */
  function FlagsOf(o: Observation): Flags {
    var f := o.facts;
    Flags(
      f.decision == Some(Block) && !IsExternal(f) && !CodeIn(f, BOOKKEEPING_CODES) && !CodeIn(f, DENIAL_CODES),
      !f.recovered && !IsExempt(f) && (f.failureCode.Some? || f.failureEvents),
      NotExecuted in f.statuses || ReconciledNoPayment in f.statuses,
      f.statuses - NON_EXECUTION != {},
      IsExternal(f),
      f.ticketedAndComplete && Succeeded in f.statuses)
  }

  datatype Stats = Stats(blocks: nat, failures: nat, executions: nat)

  /** Some projection of the execution shows the aspect. */
  ghost predicate Raised(os: seq<Observation>, u: UnitId, a: Aspect) {
    exists o :: o in os && UnitOf(o) == u && FlagsOf(o).At(a)
  }

  function Units(os: seq<Observation>): set<UnitId> {
    set o | o in os :: UnitOf(o)
  }

  /** Denied and merely requested executions do not count. */
  ghost predicate Countable(os: seq<Observation>, u: UnitId) {
    Raised(os, u, Executing) || !Raised(os, u, Unexecuted)
  }

  ghost predicate IsBlocked(os: seq<Observation>, u: UnitId) {
    Countable(os, u) && Raised(os, u, Blocking) && !Raised(os, u, ExternalFault)
  }

  ghost predicate IsFailed(os: seq<Observation>, u: UnitId) {
    Countable(os, u) && Raised(os, u, Failing) && !Raised(os, u, ExternalFault) && !Raised(os, u, TerminalSuccess)
  }

  /** The causal executions counted as blocked, as failed and as executed. */
  ghost function Blocked(os: seq<Observation>): set<UnitId> {
    set u | u in Units(os) && IsBlocked(os, u)
  }

  ghost function Failed(os: seq<Observation>): set<UnitId> {
    set u | u in Units(os) && IsFailed(os, u)
  }

  ghost function Executed(os: seq<Observation>): set<UnitId> {
    set u | u in Units(os) && Raised(os, u, Executing)
  }

  ghost function StatsOf(os: seq<Observation>): Stats {
    Stats(|Blocked(os)|, |Failed(os)|, |Executed(os)|)
  }

  ghost predicate FoldedAt(f: Flags, os: seq<Observation>, u: UnitId) {
    forall a: Aspect :: f.At(a) <==> Raised(os, u, a)
  }

  /** The dictionary holds for every execution exactly the aspects its projections show. */
  ghost predicate Folded(units: map<UnitId, Flags>, os: seq<Observation>) {
    units.Keys == Units(os) && forall u | u in units :: FoldedAt(units[u], os, u)
  }

  lemma RaisedStep(os: seq<Observation>, o: Observation, u: UnitId, a: Aspect)
    ensures Raised(os + [o], u, a) <==> Raised(os, u, a) || (UnitOf(o) == u && FlagsOf(o).At(a))
  {
    if Raised(os, u, a) {
      var x :| x in os && UnitOf(x) == u && FlagsOf(x).At(a);
      assert x in os + [o];
    }
    if UnitOf(o) == u && FlagsOf(o).At(a) {
      assert o in os + [o];
    }
  }

  lemma OrShows(f: Flags, g: Flags, a: Aspect)
    ensures f.Or(g).At(a) <==> f.At(a) || g.At(a)
    ensures !NO_FLAGS.At(a)
  {
  }

  lemma FoldStep(units: map<UnitId, Flags>, os: seq<Observation>, o: Observation)
    requires Folded(units, os)
    ensures var u := UnitOf(o);
            Folded(units[u := (if u in units then units[u] else NO_FLAGS).Or(FlagsOf(o))], os + [o])
  {
    var u := UnitOf(o);
    var before := if u in units then units[u] else NO_FLAGS;
    var after := units[u := before.Or(FlagsOf(o))];
    assert Units(os + [o]) == Units(os) + {u};
    forall v | v in after ensures FoldedAt(after[v], os + [o], v) {
      forall a: Aspect ensures after[v].At(a) <==> Raised(os + [o], v, a) {
        RaisedStep(os, o, v, a);
        OrShows(before, FlagsOf(o), a);
        assert v in units ==> FoldedAt(units[v], os, v);
      }
    }
  }

  /** The loop over the projections, and the one that lets a terminal success clear the failure of its execution. */
  method DistinctExecutionStats(os: seq<Observation>) returns (stats: Stats)
    ensures stats == StatsOf(os)
  {
    var units: map<UnitId, Flags> := map[];
    for i := 0 to |os|
      invariant Folded(units, os[..i])
    {
      FoldStep(units, os[..i], os[i]);
      assert os[..i + 1] == os[..i] + [os[i]];
      var u := UnitOf(os[i]);
      units := units[u := (if u in units then units[u] else NO_FLAGS).Or(FlagsOf(os[i]))];
    }
    assert os[..|os|] == os;
    stats := CountFlags(units, os);
  }

  /** The second loop, and the three counts. */
  method CountFlags(folded: map<UnitId, Flags>, ghost os: seq<Observation>) returns (stats: Stats)
    requires Folded(folded, os)
    ensures stats == StatsOf(os)
  {
    var units := folded;
    units := map u | u in units :: if units[u].success then units[u].(failure := false) else units[u];
    var blocked := set u | u in units && (units[u].executed || !units[u].notExecuted) && units[u].block && !units[u].external;
    var failed := set u | u in units && (units[u].executed || !units[u].notExecuted) && units[u].failure && !units[u].external;
    var executed := set u | u in units && units[u].executed;
    forall u | u in folded
      ensures u in blocked <==> u in Blocked(os)
      ensures u in failed <==> u in Failed(os)
      ensures u in executed <==> u in Executed(os)
    {
      FoldedMeans(folded[u], os, u);
    }
    assert blocked == Blocked(os) && failed == Failed(os) && executed == Executed(os);
    return Stats(|blocked|, |failed|, |executed|);
  }

  lemma FoldedMeans(f: Flags, os: seq<Observation>, u: UnitId)
    requires FoldedAt(f, os, u)
    ensures IsBlocked(os, u) <==> (f.executed || !f.notExecuted) && f.block && !f.external
    ensures IsFailed(os, u) <==> (f.executed || !f.notExecuted) && f.failure && !f.external && !f.success
    ensures Raised(os, u, Executing) <==> f.executed
  {
    assert f.block == f.At(Blocking) && f.failure == f.At(Failing) && f.notExecuted == f.At(Unexecuted);
    assert f.executed == f.At(Executing) && f.external == f.At(ExternalFault) && f.success == f.At(TerminalSuccess);
  }

  // ---------------------------------------------------------------------------------------------------
  // What the statistics depend on
  // ---------------------------------------------------------------------------------------------------

  /** The order of the projections, and how often each occurs, is irrelevant. */
  lemma StatsForgetOrder(a: seq<Observation>, b: seq<Observation>)
    requires forall o :: o in a <==> o in b
    ensures StatsOf(a) == StatsOf(b)
  {
    forall u, x: Aspect ensures Raised(a, u, x) <==> Raised(b, u, x) {
    }
    assert Units(a) == Units(b);
    assert Blocked(a) == Blocked(b) && Failed(a) == Failed(b) && Executed(a) == Executed(b);
  }

  lemma OtherUnitsKeepTheirStanding(os: seq<Observation>, o: Observation, u: UnitId)
    requires u != UnitOf(o)
    ensures u in Units(os + [o]) <==> u in Units(os)
    ensures IsBlocked(os + [o], u) <==> IsBlocked(os, u)
    ensures IsFailed(os + [o], u) <==> IsFailed(os, u)
    ensures Raised(os + [o], u, Executing) <==> Raised(os, u, Executing)
  {
    forall a: Aspect ensures Raised(os + [o], u, a) <==> Raised(os, u, a) {
      RaisedStep(os, o, u, a);
    }
    assert Units(os + [o]) == Units(os) + {UnitOf(o)};
  }

  lemma ExecutedGrows(os: seq<Observation>, o: Observation)
    ensures Executed(os) <= Executed(os + [o])
  {
    forall u | u in Executed(os) ensures u in Executed(os + [o]) {
      RaisedStep(os, o, u, Executing);
      assert Units(os + [o]) == Units(os) + {UnitOf(o)};
    }
  }

  lemma OthersKeepTheirCounts(os: seq<Observation>, o: Observation)
    ensures var u := UnitOf(o);
            && Blocked(os + [o]) - {u} == Blocked(os) - {u}
            && Failed(os + [o]) - {u} == Failed(os) - {u}
            && Executed(os + [o]) - {u} == Executed(os) - {u}
  {
    var u := UnitOf(o);
    forall v | v != u
      ensures v in Blocked(os + [o]) <==> v in Blocked(os)
      ensures v in Failed(os + [o]) <==> v in Failed(os)
      ensures v in Executed(os + [o]) <==> v in Executed(os)
    {
      OtherUnitsKeepTheirStanding(os, o, v);
    }
  }

  /** Statistics count executions, not projections: one more projection changes each count by at most one. */
  lemma OneProjectionChangesOneExecution(os: seq<Observation>, o: Observation)
    ensures var before, after := StatsOf(os), StatsOf(os + [o]);
            && before.blocks - 1 <= after.blocks <= before.blocks + 1
            && before.failures - 1 <= after.failures <= before.failures + 1
            && before.executions <= after.executions <= before.executions + 1
  {
    var u := UnitOf(o);
    OthersKeepTheirCounts(os, o);
    SetSizes(Blocked(os + [o]), Blocked(os), u);
    SetSizes(Failed(os + [o]), Failed(os), u);
    SetSizes(Executed(os + [o]), Executed(os), u);
    ExecutedGrows(os, o);
    SubsetSize(Executed(os), Executed(os + [o]));
  }

  predicate NoneExecuted(os: seq<Observation>) {
    forall o | o in os :: !FlagsOf(o).executed
  }

  lemma NoExecutionsExactly(os: seq<Observation>)
    ensures StatsOf(os).executions == 0 <==> NoneExecuted(os)
  {
    if o :| o in os && FlagsOf(o).executed {
      assert FlagsOf(o).At(Executing);
      assert UnitOf(o) in Executed(os);
    }
    if u :| u in Executed(os) {
      var o :| o in os && UnitOf(o) == u && FlagsOf(o).At(Executing);
      assert FlagsOf(o).executed;
    }
  }

  /** A terminal success clears the failure of its execution, wherever among the projections it occurs. */
  lemma SuccessClearsFailure(os: seq<Observation>, o: Observation)
    requires o in os && FlagsOf(o).success
    ensures UnitOf(o) !in Failed(os)
  {
    assert FlagsOf(o).At(TerminalSuccess);
  }

  /** Denials, bookkeeping outcomes and external faults never are failures or add one, unless they show that a failed execution took place. */
  lemma ExemptCodesAddNoFailure(os: seq<Observation>, o: Observation)
    requires IsExempt(o.facts)
    ensures !FlagsOf(o).failure
    ensures var u := UnitOf(o);
            u in Failed(os + [o]) && u !in Failed(os) <==>
              && !Countable(os, u) && FlagsOf(o).executed && !FlagsOf(o).external && !FlagsOf(o).success
              && Raised(os, u, Failing) && !Raised(os, u, ExternalFault) && !Raised(os, u, TerminalSuccess)
  {
    var u := UnitOf(o);
    RaisedStep(os, o, u, Failing);
    RaisedStep(os, o, u, Unexecuted);
    RaisedStep(os, o, u, Executing);
    RaisedStep(os, o, u, ExternalFault);
    RaisedStep(os, o, u, TerminalSuccess);
    assert Units(os + [o]) == Units(os) + {u};
    assert Raised(os, u, Failing) ==> u in Units(os);
    assert FlagsOf(o).At(Failing) == FlagsOf(o).failure && FlagsOf(o).At(Executing) == FlagsOf(o).executed;
    assert FlagsOf(o).At(ExternalFault) == FlagsOf(o).external && FlagsOf(o).At(TerminalSuccess) == FlagsOf(o).success;
  }

  // ---------------------------------------------------------------------------------------------------
  // The policy input
  // ---------------------------------------------------------------------------------------------------

  /** The five policy versions, from the legacy v0.1 to v0.5. */
  datatype Version = V1 | V2 | V3 | V4 | V5 {
    predicate IsRecovery() { V3? || V4? || V5? }
    predicate IsReviewRecovery() { V4? || V5? }
  }

  datatype Contract = EndpointRecovery | ReviewRecovery | ReviewRecoveryV2 | CurrentReviewRecovery | UnknownContract

  /** A recovery payload; the checks on fields that no rule reads are one flag. */
  datatype Recovery = Recovery(contract: Contract, otherFieldsValid: bool, executionLimit: nat, concurrencyLimit: nat)

  predicate ValidRecovery(r: Recovery) {
    && !r.contract.UnknownContract? && r.otherFieldsValid && r.executionLimit == 1
    && (r.contract.EndpointRecovery? || r.concurrencyLimit == 1)
  }

  datatype Violation = AgentIdentityMismatch | DuplicateHashConflict | UnsupportedObservationVersion | SequenceNotContiguous

  datatype PolicyInput = PolicyInput(version: Version, observations: seq<Observation>, integrity: set<Violation>,
                                     expectedMissing: set<Missing>, recovery: Option<Recovery>, probeAttempts: nat)

  /** An observation as recorded in a stream. */
  datatype Recorded = Recorded(sequence: nat, agent: AgentId, lineageAgent: AgentId, supported: bool, hash: nat, observation: Observation)

  predicate BySequence(a: Recorded, b: Recorded) {
    a.sequence < b.sequence || (a.sequence == b.sequence && a.observation.id <= b.observation.id)
  }

  predicate Seen(rs: seq<Recorded>, id: ObservationId) {
    exists r | r in rs :: r.observation.id == id
  }

  /** The first record of each observation. */
  function FirstRecords(rs: seq<Recorded>): seq<Recorded> {
    if rs == [] then []
    else
      var n := |rs| - 1;
      var earlier := FirstRecords(rs[..n]);
      if Seen(rs[..n], rs[n].observation.id) then earlier else earlier + [rs[n]]
  }

  lemma {:induction false} FirstRecordsExact(rs: seq<Recorded>)
    ensures forall id :: Seen(FirstRecords(rs), id) <==> Seen(rs, id)
    ensures forall r | r in FirstRecords(rs) :: r in rs
    ensures forall x, y | x in FirstRecords(rs) && y in FirstRecords(rs) && x.observation.id == y.observation.id :: x == y
  {
    if rs != [] {
      var n := |rs| - 1;
      FirstRecordsExact(rs[..n]);
      assert rs == rs[..n] + [rs[n]];
      forall id ensures Seen(FirstRecords(rs), id) <==> Seen(rs, id) {
        if r :| r in rs[..n] && r.observation.id == id {
          assert Seen(rs[..n], id);
          var q :| q in FirstRecords(rs[..n]) && q.observation.id == id;
          assert q in FirstRecords(rs);
        }
      }
    }
  }

  ghost predicate HashConflict(rs: seq<Recorded>) {
    exists r, q :: r in rs && q in FirstRecords(rs) && r.observation.id == q.observation.id && r.hash != q.hash
  }

  ghost predicate ForeignIdentity(rs: seq<Recorded>, agent: AgentId) {
    exists r :: r in rs && (r.agent != agent || r.lineageAgent != agent)
  }

  ghost predicate Unsupported(rs: seq<Recorded>) {
    exists r :: r in FirstRecords(rs) && !r.supported
  }

  predicate OutOfSequence(rs: seq<Recorded>) {
    exists i | 0 <= i < |rs| :: rs[i].sequence != i + 1
  }

  ghost predicate ViolationIn(rs: seq<Recorded>, agent: AgentId, sparse: bool, v: Violation) {
    match v
    case AgentIdentityMismatch => ForeignIdentity(rs, agent)
    case DuplicateHashConflict => HashConflict(rs)
    case UnsupportedObservationVersion => Unsupported(rs)
    case SequenceNotContiguous => !sparse && OutOfSequence(FirstRecords(rs))
  }

  function ObservationsOf(rs: seq<Recorded>): (os: seq<Observation>)
    ensures |os| == |rs|
  {
    seq(|rs|, i requires 0 <= i < |rs| => rs[i].observation)
  }

  /** The hash kept for each observation so far, and the violations met. */
  ghost predicate Scanned(rs: seq<Recorded>, agent: AgentId, seen: map<ObservationId, nat>, integrity: set<Violation>) {
    && Kept(rs, seen)
    && (AgentIdentityMismatch in integrity <==> ForeignIdentity(rs, agent))
    && (DuplicateHashConflict in integrity <==> HashConflict(rs))
    && (UnsupportedObservationVersion in integrity <==> Unsupported(rs))
    && SequenceNotContiguous !in integrity
  }

  ghost predicate Kept(rs: seq<Recorded>, seen: map<ObservationId, nat>) {
    && (forall id :: id in seen <==> Seen(rs, id))
    && (forall r | r in FirstRecords(rs) :: r.observation.id in seen && seen[r.observation.id] == r.hash)
  }

  lemma {:induction false} NewIsNotAmongFirst(rs: seq<Recorded>, id: ObservationId)
    requires !Seen(rs, id)
    ensures forall q | q in FirstRecords(rs) :: q.observation.id != id
  {
    FirstRecordsExact(rs);
  }

  lemma KeptStep(rs: seq<Recorded>, r: Recorded, seen: map<ObservationId, nat>)
    requires Kept(rs, seen)
    ensures Kept(rs + [r], if r.observation.id in seen then seen else seen[r.observation.id := r.hash])
  {
    RecordStep(rs, r);
    if r.observation.id !in seen {
      NewIsNotAmongFirst(rs, r.observation.id);
    }
  }

  lemma ConflictMet(rs: seq<Recorded>, r: Recorded, seen: map<ObservationId, nat>)
    requires Kept(rs, seen)
    ensures HashConflict(rs + [r]) <==> HashConflict(rs) || (r.observation.id in seen && seen[r.observation.id] != r.hash)
  {
    ConflictStep(rs, r);
    FirstRecordsExact(rs);
    if r.observation.id in seen {
      assert Seen(FirstRecords(rs), r.observation.id);
      var q :| q in FirstRecords(rs) && q.observation.id == r.observation.id;
    }
  }

  lemma IdentityStep(rs: seq<Recorded>, r: Recorded, agent: AgentId)
    ensures ForeignIdentity(rs + [r], agent) <==> ForeignIdentity(rs, agent) || r.agent != agent || r.lineageAgent != agent
  {
    if x :| x in rs && (x.agent != agent || x.lineageAgent != agent) {
      assert x in rs + [r];
    }
    assert r in rs + [r];
  }

  lemma SupportStep(rs: seq<Recorded>, r: Recorded)
    ensures Unsupported(rs + [r]) <==> Unsupported(rs) || (!Seen(rs, r.observation.id) && !r.supported)
  {
    assert (rs + [r])[..|rs|] == rs;
    var firsts := FirstRecords(rs + [r]);
    if x :| x in FirstRecords(rs) && !x.supported {
      assert x in firsts;
    }
    if !Seen(rs, r.observation.id) {
      assert r in firsts;
    }
  }

  /** The violations one record adds to those before it. */
  function ViolationsAt(r: Recorded, agent: AgentId, seen: map<ObservationId, nat>): set<Violation> {
    var id := r.observation.id;
    (if r.agent != agent || r.lineageAgent != agent then {AgentIdentityMismatch} else {})
    + (if id in seen && seen[id] != r.hash then {DuplicateHashConflict} else {})
    + (if id !in seen && !r.supported then {UnsupportedObservationVersion} else {})
  }

  lemma ViolationsMean(r: Recorded, agent: AgentId, seen: map<ObservationId, nat>)
    ensures var found, id := ViolationsAt(r, agent, seen), r.observation.id;
            && (AgentIdentityMismatch in found <==> r.agent != agent || r.lineageAgent != agent)
            && (DuplicateHashConflict in found <==> id in seen && seen[id] != r.hash)
            && (UnsupportedObservationVersion in found <==> id !in seen && !r.supported)
            && SequenceNotContiguous !in found
  {
  }

  lemma ScannedMeans(rs: seq<Recorded>, agent: AgentId, seen: map<ObservationId, nat>, integrity: set<Violation>)
    requires Scanned(rs, agent, seen, integrity)
    ensures forall v: Violation :: v in integrity <==> ViolationIn(rs, agent, true, v)
  {
  }

  lemma ViolationsStep(rs: seq<Recorded>, r: Recorded, agent: AgentId, seen: map<ObservationId, nat>)
    requires Kept(rs, seen)
    ensures var found := ViolationsAt(r, agent, seen);
            && (ForeignIdentity(rs + [r], agent) <==> ForeignIdentity(rs, agent) || AgentIdentityMismatch in found)
            && (HashConflict(rs + [r]) <==> HashConflict(rs) || DuplicateHashConflict in found)
            && (Unsupported(rs + [r]) <==> Unsupported(rs) || UnsupportedObservationVersion in found)
            && SequenceNotContiguous !in found
  {
    ViolationsMean(r, agent, seen);
    ConflictMet(rs, r, seen);
    IdentityStep(rs, r, agent);
    SupportStep(rs, r);
  }

  lemma ScanStep(rs: seq<Recorded>, r: Recorded, agent: AgentId, seen: map<ObservationId, nat>, integrity: set<Violation>)
    requires Scanned(rs, agent, seen, integrity)
    ensures FirstRecords(rs + [r]) == if r.observation.id in seen then FirstRecords(rs) else FirstRecords(rs) + [r]
    ensures Scanned(rs + [r], agent, if r.observation.id in seen then seen else seen[r.observation.id := r.hash],
                    integrity + ViolationsAt(r, agent, seen))
  {
    KeptStep(rs, r, seen);
    ViolationsStep(rs, r, agent, seen);
    assert (rs + [r])[..|rs|] == rs;
  }

  /** What the loop has found out so far. */
  datatype Pass = Pass(seen: map<ObservationId, nat>, firsts: seq<Recorded>, integrity: set<Violation>)

  function PassOver(agent: AgentId, before: Pass, r: Recorded): Pass {
    var isNew := r.observation.id !in before.seen;
    Pass(if isNew then before.seen[r.observation.id := r.hash] else before.seen,
         if isNew then before.firsts + [r] else before.firsts,
         before.integrity + ViolationsAt(r, agent, before.seen))
  }

  ghost function PassOf(agent: AgentId, rs: seq<Recorded>): Pass {
    if rs == [] then Pass(map[], [], {}) else PassOver(agent, PassOf(agent, rs[..|rs| - 1]), rs[|rs| - 1])
  }

  lemma {:induction false} PassMeans(agent: AgentId, rs: seq<Recorded>)
    ensures PassOf(agent, rs).firsts == FirstRecords(rs)
    ensures Scanned(rs, agent, PassOf(agent, rs).seen, PassOf(agent, rs).integrity)
  {
    if rs != [] {
      var n := |rs| - 1;
      PassMeans(agent, rs[..n]);
      assert rs == rs[..n] + [rs[n]];
      ScanStep(rs[..n], rs[n], agent, PassOf(agent, rs[..n]).seen, PassOf(agent, rs[..n]).integrity);
    }
  }

  /** The loop over the ordered records. */
  method Scan(agent: AgentId, ordered: seq<Recorded>) returns (deduped: seq<Recorded>, integrity: set<Violation>)
    ensures deduped == FirstRecords(ordered)
    ensures forall v: Violation :: v in integrity <==> ViolationIn(ordered, agent, true, v)
  {
    var seen: map<ObservationId, nat> := map[];
    deduped, integrity := [], {};
    for i := 0 to |ordered|
      invariant Pass(seen, deduped, integrity) == PassOf(agent, ordered[..i])
    {
      var item := ordered[i];
      assert ordered[..i + 1][..i] == ordered[..i];
      if item.agent != agent || item.lineageAgent != agent {
        integrity := integrity + {AgentIdentityMismatch};
      }
      if item.observation.id in seen {
        if seen[item.observation.id] != item.hash {
          integrity := integrity + {DuplicateHashConflict};
        }
      } else {
        seen := seen[item.observation.id := item.hash];
        deduped := deduped + [item];
        if !item.supported {
          integrity := integrity + {UnsupportedObservationVersion};
        }
      }
    }
    assert ordered[..|ordered|] == ordered;
    PassMeans(agent, ordered);
    ScannedMeans(ordered, agent, seen, integrity);
  }

  /** The ordered records without repetitions, and every violation found among them. */
  method FromObservations(agent: AgentId, recorded: seq<Recorded>, sparse: bool)
    returns (observations: seq<Observation>, integrity: set<Violation>)
    ensures observations == ObservationsOf(FirstRecords(SortBy(recorded, BySequence)))
    ensures forall v: Violation :: v in integrity <==> ViolationIn(SortBy(recorded, BySequence), agent, sparse, v)
  {
    var ordered := SortBy(recorded, BySequence);
    var deduped, violations := Scan(agent, ordered);
    integrity := violations + (if !sparse && OutOfSequence(deduped) then {SequenceNotContiguous} else {});
    forall v: Violation ensures v in integrity <==> ViolationIn(ordered, agent, sparse, v) {
      assert v in violations <==> ViolationIn(ordered, agent, true, v);
    }
    return ObservationsOf(deduped), integrity;
  }

  lemma RecordStep(rs: seq<Recorded>, r: Recorded)
    ensures FirstRecords(rs + [r]) == if Seen(rs, r.observation.id) then FirstRecords(rs) else FirstRecords(rs) + [r]
    ensures forall id :: Seen(rs + [r], id) <==> Seen(rs, id) || id == r.observation.id
    ensures HashConflict(rs + [r]) <==>
              HashConflict(rs) || exists q :: q in FirstRecords(rs) && q.observation.id == r.observation.id && q.hash != r.hash
  {
    assert (rs + [r])[..|rs|] == rs;
    FirstRecordsExact(rs);
    forall id ensures Seen(rs + [r], id) <==> Seen(rs, id) || id == r.observation.id {
      if x :| x in rs && x.observation.id == id {
        assert x in rs + [r];
      }
      assert r in rs + [r];
    }
    ConflictStep(rs, r);
  }

  lemma ConflictStep(rs: seq<Recorded>, r: Recorded)
    ensures HashConflict(rs + [r]) <==>
              HashConflict(rs) || exists q :: q in FirstRecords(rs) && q.observation.id == r.observation.id && q.hash != r.hash
  {
    assert (rs + [r])[..|rs|] == rs;
    FirstRecordsExact(rs);
    var firsts := FirstRecords(rs + [r]);
    if HashConflict(rs) {
      var x, q :| x in rs && q in FirstRecords(rs) && x.observation.id == q.observation.id && x.hash != q.hash;
      assert x in rs + [r] && q in firsts;
    }
    if q :| q in FirstRecords(rs) && q.observation.id == r.observation.id && q.hash != r.hash {
      assert r in rs + [r] && q in firsts;
    }
    if HashConflict(rs + [r]) {
      var x, q :| x in rs + [r] && q in firsts && x.observation.id == q.observation.id && x.hash != q.hash;
      if q !in FirstRecords(rs) {
        assert q == r && !Seen(rs, r.observation.id);
        assert x !in rs;
      }
    }
  }

  /** Records of one agent's stream, or of a window of it: in rising sequence, one per artifact, of the known schema. */
  ghost predicate Emitted(agent: AgentId, rs: seq<Recorded>) {
    && (forall r | r in rs :: r.agent == r.lineageAgent == agent && r.supported)
    && (forall i, j | 0 <= i < j < |rs| :: rs[i].sequence < rs[j].sequence && rs[i].observation.id != rs[j].observation.id)
  }

  lemma EmittedIsSorted(agent: AgentId, rs: seq<Recorded>)
    requires Emitted(agent, rs)
    ensures SortBy(rs, BySequence) == rs && FirstRecords(rs) == rs
  {
    assert Total(BySequence);
    SortOfSorted(rs, BySequence);
    NoRepetitionKept(rs);
  }

  lemma EmittedHasNoConflict(agent: AgentId, rs: seq<Recorded>)
    requires Emitted(agent, rs)
    ensures !HashConflict(rs)
  {
    EmittedIsSorted(agent, rs);
    FirstRecordsExact(rs);
    forall x, q | x in rs && q in FirstRecords(rs) && x.observation.id == q.observation.id ensures x.hash == q.hash {
      assert x in FirstRecords(rs);
    }
  }

  /** Any window of an emitted stream passes unchanged and, taken as sparse, without violations; so does the stream numbered from one. */
  lemma EmittedStreamsPass(agent: AgentId, recorded: seq<Recorded>, sparse: bool, v: Violation)
    requires Emitted(agent, recorded)
    requires sparse || forall i | 0 <= i < |recorded| :: recorded[i].sequence == i + 1
    ensures FirstRecords(SortBy(recorded, BySequence)) == recorded
    ensures !ViolationIn(SortBy(recorded, BySequence), agent, sparse, v)
  {
    EmittedIsSorted(agent, recorded);
    match v
    case AgentIdentityMismatch =>
    case DuplicateHashConflict => EmittedHasNoConflict(agent, recorded);
    case UnsupportedObservationVersion => EmittedIsSupported(agent, recorded);
    case SequenceNotContiguous => EmittedIsInSequence(agent, recorded);
  }

  lemma EmittedIsSupported(agent: AgentId, rs: seq<Recorded>)
    requires Emitted(agent, rs)
    ensures !Unsupported(rs)
  {
    FirstRecordsExact(rs);
  }

  lemma EmittedIsInSequence(agent: AgentId, rs: seq<Recorded>)
    requires Emitted(agent, rs)
    ensures (forall i | 0 <= i < |rs| :: rs[i].sequence == i + 1) ==> !OutOfSequence(FirstRecords(rs))
  {
    EmittedIsSorted(agent, rs);
  }

  lemma {:induction false} NoRepetitionKept(rs: seq<Recorded>)
    requires forall i, j | 0 <= i < j < |rs| :: rs[i].observation.id != rs[j].observation.id
    ensures FirstRecords(rs) == rs
  {
    if rs != [] {
      var n := |rs| - 1;
      NoRepetitionKept(rs[..n]);
      assert rs == rs[..n] + [rs[n]];
    }
  }

  // ---------------------------------------------------------------------------------------------------
  // The rules
  // ---------------------------------------------------------------------------------------------------

  datatype Outcome = Continue | Throttle | Review | Halt {
    function Rank(): nat {
      match this
      case Continue => 0
      case Throttle => 1
      case Review => 2
      case Halt => 3
    }
  }

  datatype Rule =
    | RecoveryCanary
    | TrajectoryMissing
    | IdentityOrTrajectoryIntegrity
    | CurrentCriticalObservationMissing
    | ExternalDegradation
    | ExternalRecurrence
    | EpisodeIdentityMissing
    | RepeatedLocalBlock
    | LocalBlockDegradation
    | RepeatedExecutionFailure
    | ExecutionFailureDegradation

  const RECURRENCE_THRESHOLD := 3

  datatype Trigger = Trigger(rule: Rule, outcome: Outcome)

  datatype Evaluation = Evaluation(outcome: Outcome, triggered: seq<Rule>, soleBlocker: Option<Rule>,
                                   blocks: nat, failures: nat, executions: nat, externals: nat,
                                   missingIdentities: nat, probeAuthorized: bool)

  function Latest(os: seq<Observation>): Option<Observation> {
    if os == [] then None else Some(os[|os| - 1])
  }

  predicate ExecutedNow(o: Observation) {
    o.facts.statuses - NON_EXECUTION != {}
  }

  predicate HasValidRecovery(input: PolicyInput) {
    input.version.IsRecovery() && input.recovery.Some? && ValidRecovery(input.recovery.value)
  }

  /** The missing data of the latest observation, unless a recovery is pending and the observation precedes any action. */
  function CurrentMissing(input: PolicyInput): set<Missing> {
    match Latest(input.observations)
    case None => {}
    case Some(o) => if input.recovery.Some? && !ExecutedNow(o) then {} else o.missing
  }

  /** An external failure's causal episode, or a stand-in for an observation without a trusted one. */
  datatype EpisodeKey = Known(episode: EpisodeId) | UnknownFor(id: ObservationId)

  predicate LacksIdentity(o: Observation) {
    o.facts.episodes == [] || None in o.facts.episodes
  }

  function EpisodeKeys(o: Observation): set<EpisodeKey> {
    (set e | e in o.facts.episodes && e.Some? :: Known(e.value)) + (if LacksIdentity(o) then {UnknownFor(o.id)} else {})
  }

  predicate IsExternalFailure(o: Observation) {
    CodeIn(o.facts, EXTERNAL_CODES)
  }

  function Episodes(os: seq<Observation>): set<EpisodeKey> {
    set o, k | o in os && IsExternalFailure(o) && k in EpisodeKeys(o) :: k
  }

  function UnidentifiedFailures(os: seq<Observation>): nat {
    |Filter(os, (o: Observation) => IsExternalFailure(o) && LacksIdentity(o))|
  }

  function ExternalUnits(os: seq<Observation>): set<UnitId> {
    set o | o in os && IsExternalFailure(o) :: UnitOf(o)
  }

  function ProbeUnits(os: seq<Observation>): set<UnitId> {
    set o | o in os && o.facts.probeEvent :: UnitOf(o)
  }

  function ProbeAttempts(input: PolicyInput): nat {
    if !input.version.IsReviewRecovery() then 0
    else if |ProbeUnits(input.observations)| >= input.probeAttempts then |ProbeUnits(input.observations)|
    else input.probeAttempts
  }

  /** The counts the rules look at. The legacy version counts observations. */
  ghost function CountsOf(input: PolicyInput): Stats {
    if input.version.V1? then
      Stats(|Filter(input.observations, (o: Observation) => o.facts.decision == Some(Block))|,
            |Filter(input.observations, (o: Observation) => o.facts.failureCode.Some? || o.facts.failureEvents)|, 0)
    else StatsOf(input.observations)
  }

  function ExternalCount(input: PolicyInput): nat {
    if input.version.IsReviewRecovery() then |Episodes(input.observations)|
    else if input.version.V3? then |ExternalUnits(input.observations)|
    else 0
  }

  function MissingIdentities(input: PolicyInput): nat {
    if input.version.IsReviewRecovery() then UnidentifiedFailures(input.observations) else 0
  }

  ghost predicate ProbeAuthorized(input: PolicyInput) {
    && HasValidRecovery(input) && CountsOf(input).executions == 0
    && (input.version.IsReviewRecovery() ==> ProbeAttempts(input) < input.recovery.value.executionLimit)
  }

  predicate IdentityRuleApplies(input: PolicyInput) {
    && input.version.IsReviewRecovery() && MissingIdentities(input) > 0
    && CurrentMissing(input) == {}
    && Latest(input.observations).Some? && ExecutedNow(Latest(input.observations).value)
  }

  function When(condition: bool, rule: Rule, outcome: Outcome): seq<Trigger> {
    if condition then [Trigger(rule, outcome)] else []
  }

  function MissingDataTrigger(input: PolicyInput): seq<Trigger> {
    var latest := Latest(input.observations);
    if CurrentMissing(input) - input.expectedMissing == {} || latest.None? then []
    else if input.version.IsRecovery() && IsExternalFailure(latest.value) then [Trigger(ExternalDegradation, Throttle)]
    else When(!CodeIn(latest.value.facts, NON_BLOCKING_CODES), CurrentCriticalObservationMissing, Review)
  }

  function CountTrigger(count: nat, repeated: Rule, single: Rule): seq<Trigger> {
    if count >= 2 then [Trigger(repeated, Review)] else When(count == 1, single, Throttle)
  }

  function TrajectoryTriggers(input: PolicyInput): seq<Trigger> {
    When(input.version.IsRecovery() && !HasValidRecovery(input), IdentityOrTrajectoryIntegrity, Halt)
    + When(input.observations == [] && !HasValidRecovery(input), TrajectoryMissing, Review)
    + When(input.integrity != {}, IdentityOrTrajectoryIntegrity, Halt)
    + MissingDataTrigger(input)
  }

  ghost function ExternalTriggers(input: PolicyInput): seq<Trigger> {
    When(ProbeAuthorized(input), RecoveryCanary, Throttle)
    + When(ExternalCount(input) >= RECURRENCE_THRESHOLD, ExternalRecurrence, Review)
    + When(IdentityRuleApplies(input), EpisodeIdentityMissing, Review)
  }

  function CountTriggers(counts: Stats): seq<Trigger> {
    CountTrigger(counts.blocks, RepeatedLocalBlock, LocalBlockDegradation)
    + CountTrigger(counts.failures, RepeatedExecutionFailure, ExecutionFailureDegradation)
  }

  /** Every rule that fires, in the order in which the rules are tried. */
  ghost function Triggers(input: PolicyInput): seq<Trigger> {
    TrajectoryTriggers(input) + ExternalTriggers(input) + CountTriggers(CountsOf(input))
  }

  /** The gravest outcome among the triggers. */
  function Join(ts: seq<Trigger>): Outcome {
    if ts == [] then Continue
    else
      var n := |ts| - 1;
      var earlier := Join(ts[..n]);
      if ts[n].outcome.Rank() > earlier.Rank() then ts[n].outcome else earlier
  }

  function RulesOf(ts: seq<Trigger>): (rules: seq<Rule>)
    ensures |rules| == |ts|
  {
    seq(|ts|, i requires 0 <= i < |ts| => ts[i].rule)
  }

  ghost function EvaluationOf(input: PolicyInput): Evaluation {
    var ts, counts := Triggers(input), CountsOf(input);
    Evaluation(Join(ts), RulesOf(ts), if |ts| == 1 then Some(ts[0].rule) else None,
               counts.blocks, counts.failures, counts.executions, ExternalCount(input), MissingIdentities(input), ProbeAuthorized(input))
  }

  lemma Associate(ts: seq<Trigger>, a: seq<Trigger>, b: seq<Trigger>, c: seq<Trigger>, d: seq<Trigger>)
    ensures ts + a + b + c + d == ts + (a + b + c + d)
  {
  }

  lemma AssociateThree(ts: seq<Trigger>, a: seq<Trigger>, b: seq<Trigger>, c: seq<Trigger>)
    ensures ts + a + b + c == ts + (a + b + c)
  {
  }

  lemma OneMoreTrigger(ts: seq<Trigger>, t: Trigger)
    ensures RulesOf(ts + [t]) == RulesOf(ts) + [t.rule]
    ensures Join(ts + [t]) == if t.outcome.Rank() > Join(ts).Rank() then t.outcome else Join(ts)
  {
    assert (ts + [t])[..|ts|] == ts;
  }

  /** The rules fired so far and the gravest outcome among them. */
  class Verdict {
    var triggered: seq<Rule>
    var outcome: Outcome
    ghost var fired: seq<Trigger>

    ghost predicate Valid()
      reads this
    {
      triggered == RulesOf(fired) && outcome == Join(fired)
    }

    constructor ()
      ensures Valid() && fired == []
    {
      triggered, outcome, fired := [], Continue, [];
    }

    method Fire(condition: bool, rule: Rule, result: Outcome)
      requires Valid()
      modifies this
      ensures Valid() && fired == old(fired) + When(condition, rule, result)
    {
      if condition {
        OneMoreTrigger(fired, Trigger(rule, result));
        triggered := triggered + [rule];
        if result.Rank() > outcome.Rank() {
          outcome := result;
        }
        fired := fired + [Trigger(rule, result)];
      }
    }

    method FireOnCount(count: nat, repeated: Rule, single: Rule)
      requires Valid()
      modifies this
      ensures Valid() && fired == old(fired) + CountTrigger(count, repeated, single)
    {
      if count >= 2 {
        Fire(true, repeated, Review);
      } else {
        Fire(count == 1, single, Throttle);
      }
    }

    method FireOnMissingData(input: PolicyInput)
      requires Valid()
      modifies this
      ensures Valid() && fired == old(fired) + MissingDataTrigger(input)
    {
      var latest := Latest(input.observations);
      if CurrentMissing(input) - input.expectedMissing != {} && latest.Some? {
        if input.version.IsRecovery() && IsExternalFailure(latest.value) {
          Fire(true, ExternalDegradation, Throttle);
        } else {
          Fire(!CodeIn(latest.value.facts, NON_BLOCKING_CODES), CurrentCriticalObservationMissing, Review);
        }
      }
    }

    method FireOnTrajectory(input: PolicyInput, valid: bool)
      requires Valid() && valid == HasValidRecovery(input)
      modifies this
      ensures Valid() && fired == old(fired) + TrajectoryTriggers(input)
    {
      Fire(input.version.IsRecovery() && !valid, IdentityOrTrajectoryIntegrity, Halt);
      Fire(input.observations == [] && !valid, TrajectoryMissing, Review);
      Fire(input.integrity != {}, IdentityOrTrajectoryIntegrity, Halt);
      FireOnMissingData(input);
      Associate(old(fired), When(input.version.IsRecovery() && !valid, IdentityOrTrajectoryIntegrity, Halt),
                When(input.observations == [] && !valid, TrajectoryMissing, Review),
                When(input.integrity != {}, IdentityOrTrajectoryIntegrity, Halt), MissingDataTrigger(input));
    }

    method FireOnExternals(authorized: bool, recurrent: bool, unidentified: bool)
      requires Valid()
      modifies this
      ensures Valid()
      ensures fired == old(fired) + (When(authorized, RecoveryCanary, Throttle) + When(recurrent, ExternalRecurrence, Review)
                                     + When(unidentified, EpisodeIdentityMissing, Review))
    {
      Fire(authorized, RecoveryCanary, Throttle);
      Fire(recurrent, ExternalRecurrence, Review);
      Fire(unidentified, EpisodeIdentityMissing, Review);
      AssociateThree(old(fired), When(authorized, RecoveryCanary, Throttle), When(recurrent, ExternalRecurrence, Review),
                     When(unidentified, EpisodeIdentityMissing, Review));
    }

    method FireOnCounts(counts: Stats)
      requires Valid()
      modifies this
      ensures Valid() && fired == old(fired) + CountTriggers(counts)
    {
      FireOnCount(counts.blocks, RepeatedLocalBlock, LocalBlockDegradation);
      FireOnCount(counts.failures, RepeatedExecutionFailure, ExecutionFailureDegradation);
    }
  }

  method CountForRules(input: PolicyInput) returns (counts: Stats)
    ensures counts == CountsOf(input)
  {
    if input.version.V1? {
      var blocks := Filter(input.observations, (o: Observation) => o.facts.decision == Some(Block));
      var failures := Filter(input.observations, (o: Observation) => o.facts.failureCode.Some? || o.facts.failureEvents);
      return Stats(|blocks|, |failures|, 0);
    }
    counts := DistinctExecutionStats(input.observations);
  }

  method EvaluatePolicy(input: PolicyInput) returns (evaluation: Evaluation)
    ensures evaluation == EvaluationOf(input)
  {
    var verdict := new Verdict();
    var valid := HasValidRecovery(input);
    verdict.FireOnTrajectory(input, valid);
    var counts := CountForRules(input);
    var externals, attempts := ExternalCount(input), ProbeAttempts(input);
    var authorized := valid && counts.executions == 0
      && (!input.version.IsReviewRecovery() || attempts < input.recovery.value.executionLimit);
    verdict.FireOnExternals(authorized, externals >= RECURRENCE_THRESHOLD, IdentityRuleApplies(input));
    verdict.FireOnCounts(counts);
    assert verdict.fired == Triggers(input);
    var sole := if |verdict.triggered| == 1 then Some(verdict.triggered[0]) else None;
    return Evaluation(verdict.outcome, verdict.triggered, sole, counts.blocks, counts.failures, counts.executions,
                      externals, MissingIdentities(input), authorized);
  }

  // ---------------------------------------------------------------------------------------------------
  // What the outcome means
  // ---------------------------------------------------------------------------------------------------

  /** The outcome is the least one that every fired rule demands: each is respected, and nothing graver is imposed. */
  lemma {:induction false} JoinIsLeast(ts: seq<Trigger>)
    ensures forall t | t in ts :: t.outcome.Rank() <= Join(ts).Rank()
    ensures Join(ts) == Continue || exists t :: t in ts && t.outcome == Join(ts)
  {
    if ts != [] {
      var n := |ts| - 1;
      JoinIsLeast(ts[..n]);
      assert ts == ts[..n] + [ts[n]];
      assert ts[n] in ts;
      if Join(ts) == Join(ts[..n]) && Join(ts) != Continue {
        var t :| t in ts[..n] && t.outcome == Join(ts[..n]);
        assert t in ts;
      }
    }
  }

  lemma TriggersApart(input: PolicyInput, t: Trigger)
    ensures t in Triggers(input) <==> t in TrajectoryTriggers(input) || t in ExternalTriggers(input) || t in CountTriggers(CountsOf(input))
  {
  }

  /** Some rule that fired demands the outcome. */
  ghost predicate Demanded(ts: seq<Trigger>, outcome: Outcome) {
    exists t :: t in ts && t.outcome == outcome
  }

  lemma DemandedByEither(a: seq<Trigger>, b: seq<Trigger>, outcome: Outcome)
    ensures Demanded(a + b, outcome) <==> Demanded(a, outcome) || Demanded(b, outcome)
  {
    if t :| t in a && t.outcome == outcome {
      assert t in a + b;
    }
    if t :| t in b && t.outcome == outcome {
      assert t in a + b;
    }
  }

  lemma DemandedWhen(condition: bool, rule: Rule, result: Outcome, outcome: Outcome)
    ensures Demanded(When(condition, rule, result), outcome) <==> condition && result == outcome
  {
    if condition {
      assert Trigger(rule, result) in When(condition, rule, result);
    }
  }

  lemma GravestDemanded(ts: seq<Trigger>)
    ensures Join(ts) == if Demanded(ts, Halt) then Halt else if Demanded(ts, Review) then Review
                        else if Demanded(ts, Throttle) then Throttle else Continue
  {
    JoinIsLeast(ts);
  }

  /** Missing data of the latest observation that an external failure explains, under a recovery. */
  predicate MissingThroughFault(input: PolicyInput) {
    && CurrentMissing(input) - input.expectedMissing != {}
    && input.version.IsRecovery() && IsExternalFailure(Latest(input.observations).value)
  }

  /** Missing data that nothing explains. */
  predicate MissingUnexplained(input: PolicyInput) {
    && CurrentMissing(input) - input.expectedMissing != {} && !MissingThroughFault(input)
    && !CodeIn(Latest(input.observations).value.facts, NON_BLOCKING_CODES)
  }

  predicate HaltCause(input: PolicyInput) {
    input.integrity != {} || (input.version.IsRecovery() && !HasValidRecovery(input))
  }

  ghost predicate ReviewCause(input: PolicyInput) {
    || (input.observations == [] && !HasValidRecovery(input))
    || MissingUnexplained(input)
    || ExternalCount(input) >= RECURRENCE_THRESHOLD
    || IdentityRuleApplies(input)
    || CountsOf(input).blocks >= 2 || CountsOf(input).failures >= 2
  }

  ghost predicate ThrottleCause(input: PolicyInput) {
    MissingThroughFault(input) || ProbeAuthorized(input) || CountsOf(input).blocks == 1 || CountsOf(input).failures == 1
  }

  lemma MissingDataDemands(input: PolicyInput, outcome: Outcome)
    ensures Demanded(MissingDataTrigger(input), outcome)
       <==> (MissingThroughFault(input) && outcome == Throttle) || (MissingUnexplained(input) && outcome == Review)
  {
    var fault := Trigger(ExternalDegradation, Throttle);
    assert fault in [fault];
    if Latest(input.observations).Some? {
      DemandedWhen(!CodeIn(Latest(input.observations).value.facts, NON_BLOCKING_CODES), CurrentCriticalObservationMissing, Review, outcome);
    }
  }

  lemma TrajectoryDemands(input: PolicyInput, outcome: Outcome)
    ensures Demanded(TrajectoryTriggers(input), outcome)
       <==> || (HaltCause(input) && outcome == Halt)
            || (((input.observations == [] && !HasValidRecovery(input)) || MissingUnexplained(input)) && outcome == Review)
            || (MissingThroughFault(input) && outcome == Throttle)
  {
    var a := When(input.version.IsRecovery() && !HasValidRecovery(input), IdentityOrTrajectoryIntegrity, Halt);
    var b := When(input.observations == [] && !HasValidRecovery(input), TrajectoryMissing, Review);
    var c := When(input.integrity != {}, IdentityOrTrajectoryIntegrity, Halt);
    DemandedByEither(a + b + c, MissingDataTrigger(input), outcome);
    DemandedByEither(a + b, c, outcome);
    DemandedByEither(a, b, outcome);
    MissingDataDemands(input, outcome);
    DemandedWhen(input.version.IsRecovery() && !HasValidRecovery(input), IdentityOrTrajectoryIntegrity, Halt, outcome);
    DemandedWhen(input.observations == [] && !HasValidRecovery(input), TrajectoryMissing, Review, outcome);
    DemandedWhen(input.integrity != {}, IdentityOrTrajectoryIntegrity, Halt, outcome);
  }

  lemma ExternalDemands(input: PolicyInput, outcome: Outcome)
    ensures Demanded(ExternalTriggers(input), outcome)
       <==> || (ProbeAuthorized(input) && outcome == Throttle)
            || ((ExternalCount(input) >= RECURRENCE_THRESHOLD || IdentityRuleApplies(input)) && outcome == Review)
  {
    var a := When(ProbeAuthorized(input), RecoveryCanary, Throttle);
    var b := When(ExternalCount(input) >= RECURRENCE_THRESHOLD, ExternalRecurrence, Review);
    DemandedByEither(a + b, When(IdentityRuleApplies(input), EpisodeIdentityMissing, Review), outcome);
    DemandedByEither(a, b, outcome);
    DemandedWhen(ProbeAuthorized(input), RecoveryCanary, Throttle, outcome);
    DemandedWhen(ExternalCount(input) >= RECURRENCE_THRESHOLD, ExternalRecurrence, Review, outcome);
    DemandedWhen(IdentityRuleApplies(input), EpisodeIdentityMissing, Review, outcome);
  }

  lemma CountDemands(count: nat, repeated: Rule, single: Rule, outcome: Outcome)
    ensures Demanded(CountTrigger(count, repeated, single), outcome)
       <==> (count >= 2 && outcome == Review) || (count == 1 && outcome == Throttle)
  {
    DemandedWhen(true, repeated, Review, outcome);
    DemandedWhen(count == 1, single, Throttle, outcome);
  }

  lemma CountsDemand(counts: Stats, outcome: Outcome)
    ensures Demanded(CountTriggers(counts), outcome)
       <==> || ((counts.blocks >= 2 || counts.failures >= 2) && outcome == Review)
            || ((counts.blocks == 1 || counts.failures == 1) && outcome == Throttle)
  {
    DemandedByEither(CountTrigger(counts.blocks, RepeatedLocalBlock, LocalBlockDegradation),
                     CountTrigger(counts.failures, RepeatedExecutionFailure, ExecutionFailureDegradation), outcome);
    CountDemands(counts.blocks, RepeatedLocalBlock, LocalBlockDegradation, outcome);
    CountDemands(counts.failures, RepeatedExecutionFailure, ExecutionFailureDegradation, outcome);
  }

  lemma DemandedExactly(input: PolicyInput, outcome: Outcome)
    ensures Demanded(Triggers(input), outcome)
       <==> || (HaltCause(input) && outcome == Halt) || (ReviewCause(input) && outcome == Review)
            || (ThrottleCause(input) && outcome == Throttle)
  {
    DemandedByEither(TrajectoryTriggers(input) + ExternalTriggers(input), CountTriggers(CountsOf(input)), outcome);
    DemandedByEither(TrajectoryTriggers(input), ExternalTriggers(input), outcome);
    TrajectoryDemands(input, outcome);
    ExternalDemands(input, outcome);
    CountsDemand(CountsOf(input), outcome);
  }

  /** Each outcome is reached exactly on its own causes, unless a graver one has a cause: HALT, REVIEW, THROTTLE, CONTINUE. */
  lemma OutcomeExactly(input: PolicyInput)
    ensures EvaluationOf(input).outcome ==
            if HaltCause(input) then Halt else if ReviewCause(input) then Review else if ThrottleCause(input) then Throttle else Continue
  {
    GravestDemanded(Triggers(input));
    DemandedExactly(input, Halt);
    DemandedExactly(input, Review);
    DemandedExactly(input, Throttle);
  }

  /** HALT means exactly an integrity violation or a recovery version without a valid recovery. */
  lemma HaltExactly(input: PolicyInput)
    ensures EvaluationOf(input).outcome == Halt <==> input.integrity != {} || (input.version.IsRecovery() && !HasValidRecovery(input))
  {
    OutcomeExactly(input);
  }

  /** CONTINUE means exactly that no rule fired. */
  lemma ContinueExactly(input: PolicyInput)
    ensures EvaluationOf(input).outcome == Continue <==> EvaluationOf(input).triggered == []
  {
    var ts := Triggers(input);
    GravestDemanded(ts);
    DemandedExactly(input, Continue);
    if ts != [] {
      assert ts[0] in ts;
      assert Demanded(ts, ts[0].outcome);
    }
  }

  // ---------------------------------------------------------------------------------------------------
  // The gate before the next action
  // ---------------------------------------------------------------------------------------------------

  datatype GateReason =
    | LocalEpistemicDenial
    | EconomicDenial
    | LongitudinalDenial(code: FailureCode)
    | BootstrapAuthorization
    | NextActionAuthorized

  datatype Gate = Gate(local: Option<LocalDecision>, economic: bool, longitudinal: Outcome, throttleSatisfied: bool,
                       probeAuthorized: bool, observationPermitted: bool, bootstrap: bool)

  function PreNextActionGate(g: Gate): (bool, GateReason) {
    if g.local != Some(Permit) then (false, LocalEpistemicDenial)
    else if !g.economic then (false, EconomicDenial)
    else if g.longitudinal == Halt then (false, LongitudinalDenial(DeniedByHalt))
    else if g.longitudinal == Review && !g.probeAuthorized && !g.observationPermitted && !g.bootstrap then
      (false, LongitudinalDenial(DeniedByReview))
    else if g.longitudinal == Throttle && !g.throttleSatisfied then (false, LongitudinalDenial(ThrottleConstraintsRequired))
    else if g.longitudinal == Review && g.bootstrap then (true, BootstrapAuthorization)
    else (true, NextActionAuthorized)
  }

  /** A refusal that the longitudinal policy causes is recorded under a code that never counts as a failure or a block. */
  lemma GateRefusalsAreExempt(g: Gate, o: Observation)
    requires PreNextActionGate(g).1.LongitudinalDenial? && o.facts.failureCode == Some(PreNextActionGate(g).1.code)
    ensures !PreNextActionGate(g).0 && !FlagsOf(o).failure && !FlagsOf(o).block
  {
  }
}
