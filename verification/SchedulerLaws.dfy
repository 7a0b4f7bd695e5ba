/**
 What the steps of the autonomy scheduler do, told by the fields of the request and of the stored rows alone
 (backend/app/autonomy/service.py): when a run is created and in which state, and how a run ends.
 */
module SchedulerLaws {
  import opened Wrappers
  import opened Ordering
  import opened Slots
  import opened Scheduler
  import G13Policy

  // ---------------------------------------------------------------------------------------------------
  // What applies to a request
  // ---------------------------------------------------------------------------------------------------

  ghost predicate SwitchedOn(q: Request) {
    q.globalEnabled && q.policy.enabled && q.policy.active
  }

  /** Nothing overrides a review: no probe, no recovery observation, no bootstrap grant. */
  ghost predicate Bare(a: Authority) {
    !a.probe && !a.observation && !a.bootstrap
  }

  /** A halted identity gets nothing, one under stored review only the record of a current review, and autonomy needs a profile. */
  ghost predicate Admissible(a: Authority) {
    && a.identity != Some(HaltedIdentity)
    && (a.identity == Some(ReviewRequired) && Bare(a) ==> a.longitudinal == Some(G13Policy.Review))
    && (a.fullAutonomy && a.identity.Some? ==> a.profile.Some?)
    && (!a.fullAutonomy ==> a.profile.None?)
  }

  /** The cadence of the profile counts if it limits the rate and is at least a second. */
  ghost function CadenceFor(q: Request): Cadence {
    match q.authority.profile
    case Some(Profile(false, Some(c), _, _, _, _, _)) => if c >= 1 then c else q.policy.cadence
    case _ => q.policy.cadence
  }

  ghost function RunLimit(q: Request): int {
    match q.authority.profile
    case Some(Profile(_, _, _, Some(n), _, _, _)) => n
    case _ => q.policy.maxRuns
  }

  ghost function ConcurrencyLimit(q: Request): int {
    match q.authority.profile
    case Some(Profile(_, _, _, _, Some(n), _, _)) => n
    case _ => q.policy.maxConcurrent
  }

  ghost function RunBudget(q: Request): int {
    match q.authority.profile
    case Some(Profile(_, _, false, _, _, Some(x), _)) => x
    case _ => q.policy.perRun
  }

  ghost function DayBudget(q: Request): int {
    match q.authority.profile
    case Some(Profile(_, _, false, _, _, _, Some(x))) => x
    case _ => q.policy.daily
  }

  ghost function Price(q: Request): int {
    if q.policy.mode == ReplayOnly then 0 else q.policy.perRun
  }

  ghost function SlotFor(q: Request): Time {
    Slot(q.instant, CadenceFor(q))
  }

  /** The runs whose slot lies in the day of the instant. */
  ghost predicate OfDay(r: Run, q: Request) {
    r.policy == q.policy.id && Day(r.slot) == Day(q.instant)
  }

  ghost predicate UnderWay(r: Run) {
    r.state in {Scheduled, Claimed, Running, WaitingExternal}
  }

  ghost function RunsOfDay(runs: seq<Run>, q: Request): nat {
    |set i | 0 <= i < |runs| && OfDay(runs[i], q)|
  }

  ghost function UnderWayOfDay(runs: seq<Run>, q: Request): nat {
    |set i | 0 <= i < |runs| && OfDay(runs[i], q) && UnderWay(runs[i])|
  }

  /** What completed runs of the day have cost, and what those under way are planned to cost. */
  ghost function CostOfDay(runs: seq<Run>, q: Request): int {
    if runs == [] then 0
    else
      var r := runs[|runs| - 1];
      CostOfDay(runs[..|runs| - 1], q)
      + (if !OfDay(r, q) then 0 else if r.state == Completed then r.actual else if UnderWay(r) then r.planned else 0)
  }

  /** The first of the reasons for which the run would only be recorded. */
  ghost function ReasonFor(runs: seq<Run>, q: Request): Option<SkipReason> {
    if q.authority.longitudinal == Some(G13Policy.Review) && Bare(q.authority) then Some(BlockedByReview)
    else if 0 < RunLimit(q) <= RunsOfDay(runs, q) then Some(DailyRunCap)
    else if ConcurrencyLimit(q) != 0 && ConcurrencyLimit(q) <= UnderWayOfDay(runs, q) then Some(ConcurrencyCap)
    else if RunBudget(q) < Price(q) then Some(RunBudgetCap)
    else if DayBudget(q) < CostOfDay(runs, q) + Price(q) then Some(DailyBudgetCap)
    else None
  }

  /** No run of the policy waits to be worked on. */
  ghost predicate NoneLive(runs: seq<Run>, p: PolicyId) {
    forall r | r in runs && r.policy == p :: r.state != Scheduled && r.state != Claimed && r.state != Running
  }

  ghost predicate SlotTaken(runs: seq<Run>, q: Request) {
    exists r :: r in runs && r.policy == q.policy.id && r.version == q.policy.version && r.slot == SlotFor(q)
  }

  /** A run is created for the request. */
  ghost predicate Creates(s: State, q: Request) {
    && SwitchedOn(q) && Admissible(q.authority) && q.authority.longitudinal != Some(G13Policy.Halt)
    && (q.policy.mode == TelegraphHttp ==> NoneLive(s.runs, q.policy.id))
    && !SlotTaken(s.runs, q)
    && (q.policy.id in s.nextRunAt ==> s.nextRunAt[q.policy.id] <= q.instant)
  }

  // ---------------------------------------------------------------------------------------------------
  // The step does exactly that
  // ---------------------------------------------------------------------------------------------------

  lemma {:induction false} FilterTwice(runs: seq<Run>, f: Run -> bool, g: Run -> bool, h: Run -> bool)
    requires forall r :: h(r) <==> f(r) && g(r)
    ensures Filter(Filter(runs, f), g) == Filter(runs, h)
  {
    if runs != [] {
      var n := |runs| - 1;
      FilterTwice(runs[..n], f, g, h);
      if f(runs[n]) {
        FilterLast(Filter(runs[..n], f), runs[n], g);
      }
    }
  }

  function ActiveOnDay(p: PolicyId, day: int): Run -> bool {
    (r: Run) => IsOn(r, p, day) && r.state.IsActive()
  }

  lemma CountsOfDay(runs: seq<Run>, q: Request)
    ensures |Filter(runs, OnDay(q.policy.id, Day(q.instant)))| == RunsOfDay(runs, q)
    ensures |Filter(Filter(runs, OnDay(q.policy.id, Day(q.instant))), IsActiveRun())| == UnderWayOfDay(runs, q)
  {
    var p, day := q.policy.id, Day(q.instant);
    FilterCountsPlaces(runs, OnDay(p, day), set i | 0 <= i < |runs| && OfDay(runs[i], q));
    FilterTwice(runs, OnDay(p, day), IsActiveRun(), ActiveOnDay(p, day));
    FilterCountsPlaces(runs, ActiveOnDay(p, day), set i | 0 <= i < |runs| && OfDay(runs[i], q) && UnderWay(runs[i]));
  }

  lemma OneMore(runs: seq<Run>, r: Run, f: Run -> int)
    ensures SumOver(runs + [r], f) == SumOver(runs, f) + f(r)
  {
    assert (runs + [r])[..|runs|] == runs;
  }

  lemma {:induction false} SumsOfDay(runs: seq<Run>, q: Request)
    ensures var dayRuns := Filter(runs, OnDay(q.policy.id, Day(q.instant)));
            SumOver(dayRuns, Spent()) + SumOver(dayRuns, Reserved()) == CostOfDay(runs, q)
  {
    if runs != [] {
      var n := |runs| - 1;
      SumsOfDay(runs[..n], q);
      var earlier := Filter(runs[..n], OnDay(q.policy.id, Day(q.instant)));
      OneMore(earlier, runs[n], Spent());
      OneMore(earlier, runs[n], Reserved());
    }
  }

  lemma LimitsFor(q: Request)
    ensures EffectiveCadence(q.policy, q.authority.profile) == CadenceFor(q)
    ensures EffectiveLimits(q.policy, q.authority.profile) == Limits(RunLimit(q), ConcurrencyLimit(q), RunBudget(q), DayBudget(q))
    ensures PlannedCost(q.policy) == Price(q)
  {
  }

  /** The new run: for the slot of the instant, at the planned price, waiting to be claimed unless a reason speaks against it. */
  lemma NewRunExactly(runs: seq<Run>, q: Request)
    ensures NewRun(runs, q) == Run(q.policy.id, q.policy.version, SlotFor(q), if ReasonFor(runs, q).Some? then Skipped else Scheduled,
                                   Price(q), 0, None, ReasonFor(runs, q), None)
  {
    LimitsFor(q);
    CountsOfDay(runs, q);
    SumsOfDay(runs, q);
  }

  lemma LiveExactly(runs: seq<Run>, p: PolicyId)
    ensures FirstLive(runs, p).None? <==> NoneLive(runs, p)
  {
    if FirstLive(runs, p).Some? {
      assert runs[FirstLive(runs, p).value] in runs;
    }
  }

  lemma TakenExactly(runs: seq<Run>, q: Request)
    ensures FindKey(runs, q.policy.id, q.policy.version, SlotFor(q)).Some? <==> SlotTaken(runs, q)
  {
    var found := FindKey(runs, q.policy.id, q.policy.version, SlotFor(q));
    if found.Some? {
      assert runs[found.value] in runs;
    }
    if r :| r in runs && r.policy == q.policy.id && r.version == q.policy.version && r.slot == SlotFor(q) {
      var i :| 0 <= i < |runs| && runs[i] == r;
      assert HasKey(runs[i], q.policy.id, q.policy.version, SlotFor(q));
    }
  }

  /** Scheduling appends this one run and sets the next due time exactly under these conditions, and else changes nothing. */
  lemma ScheduledExactly(s: State, q: Request)
    ensures ScheduleStep(s, q).0 ==
            if Creates(s, q) then
              s.(runs := s.runs + [Run(q.policy.id, q.policy.version, SlotFor(q), if ReasonFor(s.runs, q).Some? then Skipped else Scheduled,
                                       Price(q), 0, None, ReasonFor(s.runs, q), None)],
                 nextRunAt := s.nextRunAt[q.policy.id := SlotFor(q) + CadenceFor(q) * SECOND])
            else s
  {
    LimitsFor(q);
    NewRunExactly(s.runs, q);
    LiveExactly(s.runs, q.policy.id);
    TakenExactly(s.runs, q);
  }

  /** What the caller gets: the earliest live run of an HTTP policy, the run of the slot, the new run, or nothing. */
  lemma ReturnedExactly(s: State, q: Request)
    ensures var r := ScheduleStep(s, q).1;
            var considered := SwitchedOn(q) && Admissible(q.authority);
            var resumed := q.policy.mode == TelegraphHttp && !NoneLive(s.runs, q.policy.id);
            if considered && resumed then
              && r.Some? && r.value < |s.runs| && LiveOf(s.runs[r.value], q.policy.id)
              && forall i | 0 <= i < r.value :: !LiveOf(s.runs[i], q.policy.id)
            else if considered && q.authority.longitudinal != Some(G13Policy.Halt) && SlotTaken(s.runs, q) then
              r.Some? && r.value < |s.runs| && HasKey(s.runs[r.value], q.policy.id, q.policy.version, SlotFor(q))
            else r == if Creates(s, q) then Some(|s.runs|) else None
  {
    LimitsFor(q);
    LiveExactly(s.runs, q.policy.id);
    TakenExactly(s.runs, q);
  }

  // ---------------------------------------------------------------------------------------------------
  // Whole histories
  // ---------------------------------------------------------------------------------------------------

  /** The request finds its policy stopped: switched off, or halted by its identity or by the longitudinal policy. */
  ghost predicate Stopped(q: Request) {
    !SwitchedOn(q) || q.authority.identity == Some(HaltedIdentity) || q.authority.longitudinal == Some(G13Policy.Halt)
  }

  ghost predicate AllStopped(ops: seq<Op>, p: PolicyId) {
    forall op | op in ops && op.Schedule? && op.request.policy.id == p :: Stopped(op.request)
  }

  /** While a policy is stopped no run of it is created, whatever happens otherwise. */
  lemma {:induction false} NothingWhileStopped(ops: seq<Op>, later: seq<Op>, p: PolicyId)
    requires AllStopped(later, p)
    ensures |After(ops).runs| <= |After(ops + later).runs|
    ensures forall i | |After(ops).runs| <= i < |After(ops + later).runs| :: After(ops + later).runs[i].policy != p
  {
    if later == [] {
      assert ops + later == ops;
    } else {
      var n := |later| - 1;
      assert later[n] in later && AllStopped(later[..n], p);
      NothingWhileStopped(ops, later[..n], p);
      assert ops + later == ops + later[..n] + [later[n]];
      AfterAppend(ops + later[..n], later[n]);
      StepAddsNoneOf(After(ops + later[..n]), later[n], p);
    }
  }

  lemma StepAddsNoneOf(s: State, op: Op, p: PolicyId)
    requires op.Schedule? && op.request.policy.id == p ==> Stopped(op.request)
    ensures |s.runs| <= |Apply(s, op).runs|
    ensures forall i | 0 <= i < |s.runs| :: Apply(s, op).runs[i].policy == s.runs[i].policy
    ensures forall i | |s.runs| <= i < |Apply(s, op).runs| :: Apply(s, op).runs[i].policy != p
  {
    if op.Schedule? {
      ScheduledExactly(s, op.request);
    } else {
      StepMoves(s, op);
      forall i | 0 <= i < |s.runs| ensures Apply(s, op).runs[i].policy == s.runs[i].policy {
        assert Moves(s.runs[i], Apply(s, op).runs[i]);
      }
    }
  }

  /** The k-th operation asked for the run, was admitted, and recorded it as skipped exactly for a reason. */
  ghost predicate CreatedBy(ops: seq<Op>, k: nat, r: Run) {
    && k < |ops| && ops[k].Schedule?
    && var s, q := After(ops[..k]), ops[k].request;
    && Creates(s, q)
    && r.policy == q.policy.id && r.version == q.policy.version && r.slot == SlotFor(q) && r.planned == Price(q)
    && (r.state == Skipped <==> ReasonFor(s.runs, q).Some?)
  }

  /** Every run that was ever created goes back to a request that was admitted and, unless it was skipped, within all caps. */
  lemma {:induction false} EveryRunWasCreated(ops: seq<Op>, i: RunId) returns (k: nat)
    requires i < |After(ops).runs|
    ensures CreatedBy(ops, k, After(ops).runs[i])
  {
    var before, op := ops[..|ops| - 1], ops[|ops| - 1];
    if i < |After(before).runs| {
      k := EveryRunWasCreated(before, i);
      StepMoves(After(before), op);
      assert Moves(After(before).runs[i], After(ops).runs[i]);
      assert before[..k] == ops[..k] && before[k] == ops[k];
    } else {
      k := |ops| - 1;
      NewRunWasCreated(After(before), op, i);
    }
  }

  lemma NewRunWasCreated(s: State, op: Op, i: RunId)
    requires |s.runs| <= i < |Apply(s, op).runs|
    ensures op.Schedule? && Creates(s, op.request)
    ensures var r, q := Apply(s, op).runs[i], op.request;
            && r.policy == q.policy.id && r.version == q.policy.version && r.slot == SlotFor(q) && r.planned == Price(q)
            && (r.state == Skipped <==> ReasonFor(s.runs, q).Some?)
  {
    StepMoves(s, op);
    ScheduledExactly(s, op.request);
  }

  // ---------------------------------------------------------------------------------------------------
  // How a run ends
  // ---------------------------------------------------------------------------------------------------

  ghost predicate HasQueuedTask(s: State, m: MandateId) {
    exists k :: 0 <= k < |s.tasks| && s.tasks[k].mandate == m && s.tasks[k].status == Queued
  }

  /** The pipeline has finished the mandate: it is ticketed, and the ticket is there. */
  ghost predicate Delivered(s: State, m: MandateId) {
    m < |s.mandates| && s.mandates[m].status == Ticketed && s.mandates[m].hasTicket
  }

  ghost predicate OnlyRunOf(s: State, i: RunId, m: MandateId) {
    && i < |s.runs| && s.runs[i].mandate == Some(m)
    && forall j | 0 <= j < |s.runs| && s.runs[j].mandate == Some(m) :: j == i
  }

  ghost predicate Closed(r: Run) {
    r.state in {Completed, Failed, Skipped}
  }

  /** Finalizing closes exactly the one open run that carries the mandate, completed if nothing failed and the mandate was delivered. */
  lemma FinalizedExactly(s: State, m: MandateId, failure: Option<nat>, spent: int)
    ensures var s' := FinalizeStep(s, m, failure, spent);
            && s' == s.(runs := s'.runs) && |s'.runs| == |s.runs|
            && forall i: nat | i < |s.runs| ::
                 s'.runs[i] == if !OnlyRunOf(s, i, m) || Closed(s.runs[i]) then s.runs[i]
                               else if failure.Some? then s.runs[i].(state := Failed, actual := spent, failure := Some(Reported(failure.value)))
                               else if Delivered(s, m) then s.runs[i].(state := Completed, actual := spent, failure := None)
                               else s.runs[i].(state := Failed, actual := spent, failure := Some(PipelineIncomplete))
  {
    forall i: nat | i < |s.runs| ensures OnlyRunOf(s, i, m) <==> RunsOf(s.runs, m) == [i] {
      OnlyRunExactly(s, i, m);
    }
  }

  lemma OnlyRunExactly(s: State, i: RunId, m: MandateId)
    ensures OnlyRunOf(s, i, m) <==> RunsOf(s.runs, m) == [i]
  {
    var ids := RunsOf(s.runs, m);
    RunsOfRise(s.runs, m);
    if OnlyRunOf(s, i, m) {
      assert i in ids;
    }
    if ids == [i] {
      assert s.runs[ids[0]].mandate == Some(m);
    }
  }

  lemma {:induction false} RunsOfRise(runs: seq<Run>, m: MandateId)
    ensures forall k, l | 0 <= k < l < |RunsOf(runs, m)| :: RunsOf(runs, m)[k] < RunsOf(runs, m)[l]
    ensures |RunsOf(runs, m)| > 1 ==> RunsOf(runs, m)[0] < RunsOf(runs, m)[1]
  {
    if runs != [] {
      RunsOfRise(runs[..|runs| - 1], m);
    }
  }

  /** The HTTP rail is open to the policy. */
  ghost predicate RailOpen(p: Policy, c: Context) {
    c.globalEnabled && p.enabled && p.active && p.allowHttp && !p.readOnlyReplay
  }

  ghost predicate CanReplay(p: Policy) {
    p.mode == ReplayOnly && p.readOnlyReplay
  }

  /** Executing touches the one claimed run, and closes it completed only for a delivered mandate or a replay that matches. */
  lemma ExecutionCompletesExactly(s: State, r: RunId, policy: Option<Policy>, c: Context)
    requires r < |s.runs| && s.runs[r].state == Claimed
    ensures var run, s' := s.runs[r], ExecuteStep(s, r, policy, c);
            && |s'.runs| == |s.runs| && (forall i | 0 <= i < |s.runs| && i != r :: s'.runs[i] == s.runs[i])
            && (s'.runs[r].state == Completed <==>
                  && policy.Some?
                  && ((policy.value.mode == TelegraphHttp && RailOpen(policy.value, c) && run.mandate.Some?
                       && !HasQueuedTask(s, run.mandate.value) && Delivered(s, run.mandate.value))
                      || (CanReplay(policy.value) && c.replay.Matches?)))
            && (s'.runs[r].state == WaitingExternal <==> policy.Some? && policy.value.mode != TelegraphHttp && !CanReplay(policy.value))
            && (s'.runs[r].state == Completed ==>
                  s'.runs[r].actual == (if policy.value.mode == TelegraphHttp then c.spent else 0)
                  && s'.runs[r].mandate == (if policy.value.mode == TelegraphHttp then run.mandate else Some(c.replay.mandate)))
  {
  }

  /** A run of the HTTP rail without a mandate may start: the template, the identity and its delegated authority are in order. */
  ghost predicate Startable(c: Context) {
    c.instructionValid && c.identityFound && c.fullAutonomy && c.profileFound && c.actionAllowed
  }

  ghost predicate TemplateHolds(c: Context) {
    forall k | 0 <= k < |c.acquisitions| :: c.acquisitions[k]
  }

  /** It is running exactly if its queued task is taken up again or it is started, with all that a start needs. */
  lemma ExecutionRunsExactly(s: State, r: RunId, policy: Option<Policy>, c: Context)
    requires r < |s.runs| && s.runs[r].state == Claimed
    ensures var run, s' := s.runs[r], ExecuteStep(s, r, policy, c);
            s'.runs[r].state == Running <==>
              && policy.Some? && policy.value.mode == TelegraphHttp && RailOpen(policy.value, c)
              && if run.mandate.Some? then HasQueuedTask(s, run.mandate.value)
                 else Startable(c) && c.reservationGranted && TemplateHolds(c)
  {
    if false in c.acquisitions {
      var k :| 0 <= k < |c.acquisitions| && c.acquisitions[k] == false;
    }
  }

  /** The failure names what stood in the way, in the order in which it is asked for. */
  lemma ExecutionFailuresExactly(s: State, r: RunId, policy: Option<Policy>, c: Context)
    requires r < |s.runs| && s.runs[r].state == Claimed
    ensures var run, run' := s.runs[r], ExecuteStep(s, r, policy, c).runs[r];
            var http := policy.Some? && policy.value.mode == TelegraphHttp;
            var begins := http && RailOpen(policy.value, c) && run.mandate.None?;
            run'.state == Failed ==>
              && run' == run.(state := Failed, failure := run'.failure) && run'.failure.Some?
              && match run'.failure.value
                 case PolicyMissing => policy.None?
                 case AutonomyDisabled => http && !(c.globalEnabled && policy.value.enabled && policy.value.active)
                 case RailNotAllowed => http && (!policy.value.allowHttp || policy.value.readOnlyReplay)
                 case OrphanedMandate =>
                   http && run.mandate.Some? && !HasQueuedTask(s, run.mandate.value) && !Delivered(s, run.mandate.value)
                 case TemplateInvalid => begins && (!c.instructionValid || (Startable(c) && c.reservationGranted && !TemplateHolds(c)))
                 case IdentityMissing => begins && c.instructionValid && !c.identityFound
                 case FullAutonomyDisabled => begins && c.identityFound && !c.fullAutonomy
                 case ProfileUnavailable => begins && c.fullAutonomy && !c.profileFound
                 case ActionNotAllowed => begins && c.profileFound && !c.actionAllowed
                 case ReservationRefused => begins && Startable(c) && !c.reservationGranted
                 case ReplaySourceMissing => policy.Some? && CanReplay(policy.value) && c.replay.NoSource?
                 case ReplayFailed => policy.Some? && CanReplay(policy.value) && c.replay.Raises?
                 case ReplayMismatch => policy.Some? && CanReplay(policy.value) && c.replay.Mismatch?
                 case _ => false
  {
    if false in c.acquisitions {
      var k :| 0 <= k < |c.acquisitions| && c.acquisitions[k] == false;
    }
  }

  /** Starting creates one mandate for the run, holds its reservation if it was granted, and queues the tasks if the template holds. */
  lemma StartExactly(s: State, r: RunId, policy: Policy, c: Context)
    requires r < |s.runs| && s.runs[r].state == Claimed && s.runs[r].mandate.None?
    requires policy.mode == TelegraphHttp && RailOpen(policy, c) && Startable(c)
    ensures var m, s' := |s.mandates|, ExecuteStep(s, r, Some(policy), c);
            && |s'.mandates| == m + 1 && s'.mandates[..m] == s.mandates
            && s'.mandates[m] == Mandate(r, if c.reservationGranted then Received else MandateFailed, false)
            && s'.reserved == s.reserved + (if c.reservationGranted then {m} else {})
            && (s'.runs[r].mandate == Some(m) <==> c.reservationGranted && TemplateHolds(c))
            && |s'.tasks| == |s.tasks| + (if !c.reservationGranted || !TemplateHolds(c) then 0 else if c.acquisitions == [] then 1 else |c.acquisitions|)
            && s'.tasks[..|s.tasks|] == s.tasks
            && forall k | |s.tasks| <= k < |s'.tasks| :: s'.tasks[k] == Task(m, Queued)
  {
    if false in c.acquisitions {
      var k :| 0 <= k < |c.acquisitions| && c.acquisitions[k] == false;
    }
  }

  /** A claim takes exactly a scheduled run. */
  lemma ClaimedExactly(s: State, r: RunId)
    ensures ClaimStep(s, r) == if r < |s.runs| && s.runs[r].state == Scheduled then s.(runs := s.runs[r := s.runs[r].(state := Claimed)]) else s
  {
  }

  /** The lease of the run holds: one of its tasks is running, and it was updated within the grace period. */
  ghost predicate Leased(s: State, i: RunId, w: Watch) {
    && i < |s.runs| && i in w.leases
    && exists k :: 0 <= k < |s.tasks| && Some(s.tasks[k].mandate) == s.runs[i].mandate && s.tasks[k].status == TaskRunning
  }

  /** Recovery hands back exactly the claimed and running runs whose lease does not hold. */
  lemma RecoveredExactly(s: State, w: Watch, i: RunId)
    requires i < |s.runs|
    ensures |RecoverStep(s, w).runs| == |s.runs|
    ensures RecoverStep(s, w).runs[i] ==
            if s.runs[i].state in {Claimed, Running} && !Leased(s, i, w) then s.runs[i].(state := Scheduled) else s.runs[i]
  {
    if KeepsLease(s, i, w.leases) {
      var t :| t in s.tasks && t.mandate == s.runs[i].mandate.value && t.status == TaskRunning;
      var k :| 0 <= k < |s.tasks| && s.tasks[k] == t;
      assert Leased(s, i, w);
    }
  }

  /** A running task is queued again exactly if a run of its mandate waits to be claimed after recovery. */
  lemma RequeuedExactly(s: State, w: Watch, k: nat)
    requires k < |s.tasks|
    ensures |RecoverStep(s, w).tasks| == |s.tasks|
    ensures RecoverStep(s, w).tasks[k].status == Queued <==>
              || s.tasks[k].status == Queued
              || (s.tasks[k].status == TaskRunning
                  && exists r :: r in RecoverStep(s, w).runs && r.state == Scheduled && r.mandate == Some(s.tasks[k].mandate))
  {
    var requeued := Requeue(s, w.leases);
    OrphansFail(requeued, |s.tasks|, w, k);
  }

  /** The latest run that carries the mandate is closed. */
  ghost predicate LatestClosed(runs: seq<Run>, m: MandateId) {
    exists i :: 0 <= i < |runs| && runs[i].mandate == Some(m) && Closed(runs[i]) && NoneAfter(runs, i, m)
  }

  ghost predicate NoneAfter(runs: seq<Run>, i: int, m: MandateId) {
    forall j | i < j < |runs| && 0 <= j :: runs[j].mandate != Some(m)
  }

  lemma {:induction false} RunsOfEnd(runs: seq<Run>, m: MandateId)
    ensures var ids := RunsOf(runs, m);
            && (ids == [] <==> forall i | 0 <= i < |runs| :: runs[i].mandate != Some(m))
            && (ids != [] ==> NoneAfter(runs, ids[|ids| - 1], m))
  {
    if runs != [] {
      var n := |runs| - 1;
      RunsOfEnd(runs[..n], m);
      assert forall i | 0 <= i < n :: runs[..n][i] == runs[i];
    }
  }

  lemma ParentExactly(runs: seq<Run>, m: MandateId)
    ensures ParentIsClosed(runs, m) <==> LatestClosed(runs, m)
  {
    var ids := RunsOf(runs, m);
    RunsOfEnd(runs, m);
    if ids != [] {
      var last := ids[|ids| - 1];
      assert runs[last].mandate == Some(m) && NoneAfter(runs, last, m);
      if i :| 0 <= i < |runs| && runs[i].mandate == Some(m) && Closed(runs[i]) && NoneAfter(runs, i, m) {
        assert i == last;
      }
    }
  }

  /** The task runs on although no run of its mandate waits and the latest one is closed, and its grace period is over. */
  ghost predicate Abandoned(s: State, w: Watch, k: nat) {
    && k < |s.tasks| && s.tasks[k].status == TaskRunning && k !in w.recentTasks
    && var runs := RecoverStep(s, w).runs;
    && LatestClosed(runs, s.tasks[k].mandate)
    && forall r | r in runs && r.mandate == Some(s.tasks[k].mandate) :: r.state != Scheduled
  }

  lemma AbandonedExactly(s: State, w: Watch, k: nat)
    requires k < |s.tasks|
    ensures Abandoned(s, w, k) <==> IsOrphan(Requeue(s, w.leases), k, w)
  {
    ParentExactly(Requeue(s, w.leases).runs, s.tasks[k].mandate);
  }

  /** Recovery fails exactly the abandoned tasks. */
  lemma AbandonedTasksFail(s: State, w: Watch, k: nat)
    requires k < |s.tasks|
    ensures |RecoverStep(s, w).tasks| == |s.tasks|
    ensures RecoverStep(s, w).tasks[k].status == TaskFailed <==> s.tasks[k].status == TaskFailed || Abandoned(s, w, k)
  {
    OrphansFail(Requeue(s, w.leases), |s.tasks|, w, k);
    AbandonedExactly(s, w, k);
  }

  ghost predicate FirstAbandoned(s: State, w: Watch, m: MandateId, k: nat) {
    && Abandoned(s, w, k) && s.tasks[k].mandate == m
    && forall j: nat | j < k && s.tasks[j].mandate == m :: !Abandoned(s, w, j)
  }

  lemma {:induction false} FirstOrphanExactly(s: State, w: Watch, m: MandateId, n: nat)
    requires n <= |s.tasks|
    ensures var first := FirstOrphan(Requeue(s, w.leases), n, w, m);
            && (first.Some? ==> first.value < n && FirstAbandoned(s, w, m, first.value))
            && (first.None? ==> forall k: nat | k < n && s.tasks[k].mandate == m :: !Abandoned(s, w, k))
  {
    if n > 0 {
      FirstOrphanExactly(s, w, m, n - 1);
      AbandonedExactly(s, w, n - 1);
    }
  }

  /** A mandate that is neither ticketed nor failed fails exactly with its first abandoned task, and is released if that was not paid. */
  lemma AbandonedMandatesFail(s: State, w: Watch, m: MandateId)
    requires m < |s.mandates|
    ensures |RecoverStep(s, w).mandates| == |s.mandates|
    ensures var s', open := RecoverStep(s, w), s.mandates[m].status != Ticketed && s.mandates[m].status != MandateFailed;
            && s'.mandates[m] == s.mandates[m].(status := s'.mandates[m].status)
            && (s'.mandates[m].status != s.mandates[m].status <==> open && exists k: nat :: FirstAbandoned(s, w, m, k))
            && (s'.mandates[m].status != s.mandates[m].status ==> s'.mandates[m].status == MandateFailed)
            && (m in s'.reserved <==> m in s.reserved && !(open && exists k: nat :: FirstAbandoned(s, w, m, k) && k in w.unpaidTasks))
  {
    OrphanedMandatesFail(Requeue(s, w.leases), |s.tasks|, w, m);
    FirstOrphanExactly(s, w, m, |s.tasks|);
  }
}
