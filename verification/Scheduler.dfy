/**
 The autonomy scheduler (backend/app/autonomy/service.py): due slots, claims, execution, finalization and recovery.

 One committed transaction is one step. Money is in micro-USDC. What other components decide or persist meanwhile
 (authority verdicts, task and mandate progress, tickets, costs) are arguments of the steps or steps of their own.
 */
module Scheduler {
  import opened Wrappers
  import opened Ordering
  import opened Slots
  import G13Policy

  type PolicyId = nat
  type RunId = nat
  type MandateId = nat

  datatype Mode = TelegraphHttp | TelegraphErc8183 | ReplayOnly

  /** An autonomy policy; the checks on it when it is saved make the cadence positive. */
  datatype Policy = Policy(id: PolicyId, version: nat, mode: Mode, enabled: bool, active: bool, cadence: Cadence,
                           maxRuns: int, maxConcurrent: int, perRun: int, daily: int, allowHttp: bool, readOnlyReplay: bool)

  /** The limits of an authority profile that the scheduler reads. */
  datatype Profile = Profile(unlimitedRate: bool, cadence: Option<int>, unlimitedBudget: bool, maxRuns: Option<int>,
                             concurrency: Option<int>, perAction: Option<int>, daily: Option<int>)

  datatype RunState = Scheduled | Claimed | Running | WaitingExternal | Completed | Failed | Skipped {
    predicate IsLive() { Scheduled? || Claimed? || Running? }
    predicate IsActive() { IsLive() || WaitingExternal? }
    predicate IsTerminal() { Completed? || Failed? || Skipped? }
  }

  datatype SkipReason = BlockedByReview | DailyRunCap | ConcurrencyCap | RunBudgetCap | DailyBudgetCap

  datatype Failure =
    | PolicyMissing
    | AutonomyDisabled
    | RailNotAllowed
    | OrphanedMandate
    | TemplateInvalid
    | IdentityMissing
    | FullAutonomyDisabled
    | ProfileUnavailable
    | ActionNotAllowed
    | ReservationRefused
    | ReplaySourceMissing
    | ReplayFailed
    | ReplayMismatch
    | PipelineIncomplete
    | Reported(code: nat)

  datatype Run = Run(policy: PolicyId, version: nat, slot: Time, state: RunState, planned: int, actual: int,
                     mandate: Option<MandateId>, skip: Option<SkipReason>, failure: Option<Failure>)

  datatype MandateStatus = Received | Ticketed | MandateFailed | OtherMandate

  /** A mandate the scheduler created for a run. */
  datatype Mandate = Mandate(run: RunId, status: MandateStatus, hasTicket: bool)

  datatype TaskStatus = Queued | TaskRunning | TaskFailed | OtherTask

  datatype Task = Task(mandate: MandateId, status: TaskStatus)

  datatype State = State(runs: seq<Run>, nextRunAt: map<PolicyId, Time>, mandates: seq<Mandate>, reserved: set<MandateId>, tasks: seq<Task>)

  // ---------------------------------------------------------------------------------------------------
  // Scheduling
  // ---------------------------------------------------------------------------------------------------

  datatype IdentityState = ActiveIdentity | ReviewRequired | HaltedIdentity | OtherIdentity

  /** What the authorities say about the policy's agent at the moment of scheduling. */
  datatype Authority = Authority(identity: Option<IdentityState>, longitudinal: Option<G13Policy.Outcome>, probe: bool,
                                 observation: bool, bootstrap: bool, fullAutonomy: bool, profile: Option<Profile>)
  {
    /** A permitted recovery observation lifts the stored review. */
    function EffectiveIdentity(): Option<IdentityState> {
      if identity == Some(ReviewRequired) && observation then Some(ActiveIdentity) else identity
    }

    predicate StoredReviewBinds() {
      EffectiveIdentity() == Some(ReviewRequired) && !probe && !bootstrap
    }

    predicate Admits() {
      && EffectiveIdentity() != Some(HaltedIdentity)
      && (StoredReviewBinds() ==> longitudinal == Some(G13Policy.Review))
      && (identity.Some? && fullAutonomy ==> profile.Some?)
      && (profile.Some? ==> fullAutonomy)
    }

    predicate Blocks() {
      longitudinal == Some(G13Policy.Review) && (StoredReviewBinds() || (!probe && !observation && !bootstrap))
    }
  }

  datatype Request = Request(policy: Policy, authority: Authority, instant: Time, globalEnabled: bool)

  function EffectiveCadence(policy: Policy, profile: Option<Profile>): Cadence {
    if profile.Some? && !profile.value.unlimitedRate && profile.value.cadence.Some? && profile.value.cadence.value >= 1
    then profile.value.cadence.value else policy.cadence
  }

  datatype Limits = Limits(maxRuns: int, concurrency: int, perRun: int, daily: int)

  function EffectiveLimits(policy: Policy, profile: Option<Profile>): Limits {
    var capped := profile.Some? && !profile.value.unlimitedBudget;
    Limits(if profile.Some? then profile.value.maxRuns.GetOr(policy.maxRuns) else policy.maxRuns,
           if profile.Some? then profile.value.concurrency.GetOr(policy.maxConcurrent) else policy.maxConcurrent,
           if capped then profile.value.perAction.GetOr(policy.perRun) else policy.perRun,
           if capped then profile.value.daily.GetOr(policy.daily) else policy.daily)
  }

  function PlannedCost(policy: Policy): int {
    if policy.mode == ReplayOnly then 0 else policy.perRun
  }

  predicate IsOn(r: Run, p: PolicyId, day: int) {
    r.policy == p && Day(r.slot) == day
  }

  function OnDay(p: PolicyId, day: int): Run -> bool {
    (r: Run) => IsOn(r, p, day)
  }

  function IsActiveRun(): Run -> bool {
    (r: Run) => r.state.IsActive()
  }

  function SpentBy(r: Run): int {
    if r.state == Completed then r.actual else 0
  }

  function ReservedBy(r: Run): int {
    if r.state.IsActive() then r.planned else 0
  }

  function Spent(): Run -> int {
    (r: Run) => SpentBy(r)
  }

  function Reserved(): Run -> int {
    (r: Run) => ReservedBy(r)
  }

  function SumOver(runs: seq<Run>, f: Run -> int): int {
    if runs == [] then 0 else SumOver(runs[..|runs| - 1], f) + f(runs[|runs| - 1])
  }

  function BudgetReason(runs: seq<Run>, p: PolicyId, limits: Limits, instant: Time, planned: int): Option<SkipReason> {
    var dayRuns := Filter(runs, OnDay(p, Day(instant)));
    if limits.maxRuns > 0 && |dayRuns| >= limits.maxRuns then Some(DailyRunCap)
    else if limits.concurrency != 0 && |Filter(dayRuns, IsActiveRun())| >= limits.concurrency then Some(ConcurrencyCap)
    else if planned > limits.perRun then Some(RunBudgetCap)
    else if SumOver(dayRuns, Spent()) + SumOver(dayRuns, Reserved()) + planned > limits.daily then Some(DailyBudgetCap)
    else None
  }

  predicate LiveOf(r: Run, p: PolicyId) {
    r.policy == p && r.state.IsLive()
  }

  /** The earliest live run of the policy. */
  function FirstLive(runs: seq<Run>, p: PolicyId): (found: Option<RunId>)
    ensures found.Some? ==> found.value < |runs| && LiveOf(runs[found.value], p) && forall i | 0 <= i < found.value :: !LiveOf(runs[i], p)
    ensures found.None? ==> forall i | 0 <= i < |runs| :: !LiveOf(runs[i], p)
  {
    if runs == [] then None
    else
      var n := |runs| - 1;
      match FirstLive(runs[..n], p)
      case Some(i) => Some(i)
      case None =>
        assert forall i | 0 <= i < n :: runs[i] == runs[..n][i];
        if LiveOf(runs[n], p) then Some(n) else None
  }

  predicate HasKey(r: Run, p: PolicyId, version: nat, slot: Time) {
    r.policy == p && r.version == version && r.slot == slot
  }

  /** The run stored under an idempotency key, which the source derives by hashing policy, version and slot. */
  function FindKey(runs: seq<Run>, p: PolicyId, version: nat, slot: Time): (found: Option<RunId>)
    ensures found.Some? ==> found.value < |runs| && HasKey(runs[found.value], p, version, slot)
    ensures found.None? ==> forall i | 0 <= i < |runs| :: !HasKey(runs[i], p, version, slot)
  {
    if runs == [] then None
    else
      var n := |runs| - 1;
      match FindKey(runs[..n], p, version, slot)
      case Some(i) => Some(i)
      case None =>
        assert forall i | 0 <= i < n :: runs[i] == runs[..n][i];
        if HasKey(runs[n], p, version, slot) then Some(n) else None
  }

  function NewRun(runs: seq<Run>, q: Request): Run {
    var p := q.policy;
    var planned := PlannedCost(p);
    var reason := if q.authority.Blocks() then Some(BlockedByReview)
                  else BudgetReason(runs, p.id, EffectiveLimits(p, q.authority.profile), q.instant, planned);
    Run(p.id, p.version, Slot(q.instant, EffectiveCadence(p, q.authority.profile)),
        if reason.Some? then Skipped else Scheduled, planned, 0, None, reason, None)
  }

  /** What scheduling finds before it creates a run: nothing to do, a run that exists already, or a free due slot. */
  datatype Finding = Nothing | Existing(run: RunId) | Due

  function Look(s: State, q: Request): Finding {
    var p := q.policy;
    if !q.globalEnabled || !p.enabled || !p.active || !q.authority.Admits() then Nothing
    else if p.mode == TelegraphHttp && FirstLive(s.runs, p.id).Some? then Existing(FirstLive(s.runs, p.id).value)
    else if q.authority.longitudinal == Some(G13Policy.Halt) then Nothing
    else
      var slot := Slot(q.instant, EffectiveCadence(p, q.authority.profile));
      var existing := FindKey(s.runs, p.id, p.version, slot);
      if existing.Some? then Existing(existing.value)
      else if p.id in s.nextRunAt && q.instant < s.nextRunAt[p.id] then Nothing
      else Due
  }

  function ScheduleStep(s: State, q: Request): (State, Option<RunId>) {
    match Look(s, q)
    case Nothing => (s, None)
    case Existing(r) => (s, Some(r))
    case Due =>
      var run := NewRun(s.runs, q);
      (s.(runs := s.runs + [run],
          nextRunAt := s.nextRunAt[q.policy.id := NextSlot(run.slot, EffectiveCadence(q.policy, q.authority.profile))]),
       Some(|s.runs|))
  }

  // ---------------------------------------------------------------------------------------------------
  // Claiming and executing
  // ---------------------------------------------------------------------------------------------------

  datatype Replay = NoSource | Raises | Mismatch | Matches(mandate: MandateId)

  /** What a worker meets while it executes a run; the list says which acquisitions of the template are valid. */
  datatype Context = Context(globalEnabled: bool, instructionValid: bool, identityFound: bool, fullAutonomy: bool, profileFound: bool,
                             actionAllowed: bool, reservationGranted: bool, acquisitions: seq<bool>, spent: int, replay: Replay)

  function ClaimStep(s: State, r: RunId): State {
    if r < |s.runs| && s.runs[r].state == Scheduled then s.(runs := s.runs[r := s.runs[r].(state := Claimed)]) else s
  }

  function Fail(s: State, r: RunId, failure: Failure): State
    requires r < |s.runs|
  {
    s.(runs := s.runs[r := s.runs[r].(state := Failed, failure := Some(failure))])
  }

  /** Why a claimed run of the HTTP rail may not start, before anything is created. */
  function Refusal(p: Policy, c: Context): Option<Failure> {
    if !c.instructionValid then Some(TemplateInvalid)
    else if !c.identityFound then Some(IdentityMissing)
    else if !c.fullAutonomy then Some(FullAutonomyDisabled)
    else if !c.profileFound then Some(ProfileUnavailable)
    else if !c.actionAllowed then Some(ActionNotAllowed)
    else None
  }

  function NewTasks(m: MandateId, n: nat): seq<Task> {
    seq(n, i requires 0 <= i < n => Task(m, Queued))
  }

  /** A template without acquisitions stands for one acquisition of the instruction itself. */
  function TaskCount(c: Context): nat {
    if c.acquisitions == [] then 1 else |c.acquisitions|
  }

  function StartMandate(s: State, r: RunId, c: Context): State
    requires r < |s.runs|
  {
    var m := |s.mandates|;
    if !c.reservationGranted then
      Fail(s.(mandates := s.mandates + [Mandate(r, MandateFailed, false)]), r, ReservationRefused)
    else
      var created := s.(mandates := s.mandates + [Mandate(r, Received, false)], reserved := s.reserved + {m});
      if false in c.acquisitions then Fail(created, r, TemplateInvalid)
      else
        created.(tasks := created.tasks + NewTasks(m, TaskCount(c)),
                 runs := created.runs[r := created.runs[r].(mandate := Some(m), state := Running, skip := None)])
  }

  predicate HasTask(tasks: seq<Task>, m: MandateId, status: TaskStatus) {
    exists t | t in tasks :: t.mandate == m && t.status == status
  }

  predicate IsTicketed(s: State, m: MandateId) {
    m < |s.mandates| && s.mandates[m].status == Ticketed && s.mandates[m].hasTicket
  }

  /** A run that has its mandate already resumes its queued task or is closed by what became of the mandate. */
  function ResumeMandate(s: State, r: RunId, m: MandateId, c: Context): State
    requires r < |s.runs|
  {
    if HasTask(s.tasks, m, Queued) then s.(runs := s.runs[r := s.runs[r].(state := Running)])
    else if IsTicketed(s, m) then
      s.(runs := s.runs[r := s.runs[r].(state := Completed, actual := c.spent, failure := None)])
    else Fail(s, r, OrphanedMandate)
  }

  function ExecuteHttp(s: State, r: RunId, p: Policy, c: Context): State
    requires r < |s.runs|
  {
    if !c.globalEnabled || !p.enabled || !p.active then Fail(s, r, AutonomyDisabled)
    else if !p.allowHttp || p.readOnlyReplay then Fail(s, r, RailNotAllowed)
    else if s.runs[r].mandate.Some? then ResumeMandate(s, r, s.runs[r].mandate.value, c)
    else if Refusal(p, c).Some? then Fail(s, r, Refusal(p, c).value)
    else StartMandate(s, r, c)
  }

  function ExecuteReplay(s: State, r: RunId, p: Policy, c: Context): State
    requires r < |s.runs|
  {
    if p.mode != ReplayOnly || !p.readOnlyReplay then s.(runs := s.runs[r := s.runs[r].(state := WaitingExternal)])
    else
      match c.replay
      case NoSource => Fail(s, r, ReplaySourceMissing)
      case Raises => Fail(s, r, ReplayFailed)
      case Mismatch => Fail(s, r, ReplayMismatch)
      case Matches(m) => s.(runs := s.runs[r := s.runs[r].(state := Completed, mandate := Some(m), actual := 0)])
  }

  /** Executing a run that was claimed. */
  function ExecuteStep(s: State, r: RunId, policy: Option<Policy>, c: Context): State {
    if r >= |s.runs| || s.runs[r].state != Claimed then s
    else if policy.None? then Fail(s, r, PolicyMissing)
    else if policy.value.mode == TelegraphHttp then ExecuteHttp(s, r, policy.value, c)
    else ExecuteReplay(s, r, policy.value, c)
  }

  // ---------------------------------------------------------------------------------------------------
  // Finalizing and recovering
  // ---------------------------------------------------------------------------------------------------

  function RunsOf(runs: seq<Run>, m: MandateId): (ids: seq<RunId>)
    ensures forall k | 0 <= k < |ids| :: ids[k] < |runs| && runs[ids[k]].mandate == Some(m)
    ensures forall i: nat | i < |runs| && runs[i].mandate == Some(m) :: i in ids
  {
    if runs == [] then []
    else
      var n := |runs| - 1;
      assert forall i | 0 <= i < n :: runs[i] == runs[..n][i];
      RunsOf(runs[..n], m) + (if runs[n].mandate == Some(m) then [n] else [])
  }

  /** Closing the one run that carries the mandate; with several the lookup raises and nothing changes. */
  function FinalizeStep(s: State, m: MandateId, failure: Option<nat>, spent: int): State {
    var ids := RunsOf(s.runs, m);
    if |ids| != 1 || s.runs[ids[0]].state.IsTerminal() then s
    else
      var r := ids[0];
      var closed := s.runs[r].(actual := spent);
      s.(runs := s.runs[r := if failure.Some? then closed.(state := Failed, failure := Some(Reported(failure.value)))
                             else if !IsTicketed(s, m) then closed.(state := Failed, failure := Some(PipelineIncomplete))
                             else closed.(state := Completed, failure := None)])
  }

  /** A run that keeps its lease while its task is running. */
  predicate KeepsLease(s: State, r: RunId, leases: set<RunId>)
    requires r < |s.runs|
  {
    s.runs[r].mandate.Some? && HasTask(s.tasks, s.runs[r].mandate.value, TaskRunning) && r in leases
  }

  function RecoveredRun(s: State, r: RunId, leases: set<RunId>): Run
    requires r < |s.runs|
  {
    var run := s.runs[r];
    if (run.state == Claimed || run.state == Running) && !KeepsLease(s, r, leases) then run.(state := Scheduled) else run
  }

  function RecoveredRuns(s: State, leases: set<RunId>): (runs: seq<Run>)
    ensures |runs| == |s.runs| && forall i | 0 <= i < |runs| :: runs[i] == RecoveredRun(s, i, leases)
  {
    seq(|s.runs|, i requires 0 <= i < |s.runs| => RecoveredRun(s, i, leases))
  }

  predicate AwaitsDispatch(runs: seq<Run>, m: MandateId) {
    exists r | r in runs :: r.state == Scheduled && r.mandate == Some(m)
  }

  function RecoveredTask(runs: seq<Run>, t: Task): Task {
    if t.status == TaskRunning && AwaitsDispatch(runs, t.mandate) then t.(status := Queued) else t
  }

  function RecoveredTasks(runs: seq<Run>, tasks: seq<Task>): (after: seq<Task>)
    ensures |after| == |tasks| && forall i | 0 <= i < |after| :: after[i] == RecoveredTask(runs, tasks[i])
  {
    seq(|tasks|, i requires 0 <= i < |tasks| => RecoveredTask(runs, tasks[i]))
  }

  /** What recovery finds out about leases and payments. */
  datatype Watch = Watch(leases: set<RunId>, recentTasks: set<nat>, unpaidTasks: set<nat>)

  /** The latest run of the mandate is closed. */
  predicate ParentIsClosed(runs: seq<Run>, m: MandateId) {
    var ids := RunsOf(runs, m);
    ids != [] && !runs[ids[|ids| - 1]].state.IsActive()
  }

  /** The task is running although the run it belongs to is closed, and its grace period is over. */
  predicate IsOrphan(s: State, k: nat, w: Watch)
    requires k < |s.tasks|
  {
    s.tasks[k].status == TaskRunning && ParentIsClosed(s.runs, s.tasks[k].mandate) && k !in w.recentTasks
  }

  predicate IsOpen(mandates: seq<Mandate>, m: MandateId) {
    m < |mandates| && mandates[m].status != Ticketed && mandates[m].status != MandateFailed
  }

  /** An orphaned task fails, and with it a mandate that is still open; what was certainly not spent is released. */
  function CloseOrphan(s: State, k: nat, w: Watch): State
    requires k < |s.tasks|
  {
    if !IsOrphan(s, k, w) then s
    else
      var m := s.tasks[k].mandate;
      var closed := s.(tasks := s.tasks[k := s.tasks[k].(status := TaskFailed)]);
      if !IsOpen(s.mandates, m) then closed
      else closed.(mandates := s.mandates[m := s.mandates[m].(status := MandateFailed)],
                   reserved := if k in w.unpaidTasks then s.reserved - {m} else s.reserved)
  }

  /** The first n tasks have been looked at. */
  function CloseOrphans(s: State, n: nat, w: Watch): (s': State)
    requires n <= |s.tasks|
    ensures s'.runs == s.runs && s'.nextRunAt == s.nextRunAt && s'.reserved <= s.reserved
    ensures |s'.tasks| == |s.tasks| && |s'.mandates| == |s.mandates|
    ensures forall k | 0 <= k < |s.tasks| :: s'.tasks[k].mandate == s.tasks[k].mandate && (n <= k ==> s'.tasks[k] == s.tasks[k])
    ensures forall m | 0 <= m < |s.mandates| :: s'.mandates[m].run == s.mandates[m].run
  {
    if n == 0 then s else CloseOrphan(CloseOrphans(s, n - 1, w), n - 1, w)
  }

  /** The runs and tasks that go back to the queue. */
  function Requeue(s: State, leases: set<RunId>): State {
    var runs := RecoveredRuns(s, leases);
    s.(runs := runs, tasks := RecoveredTasks(runs, s.tasks))
  }

  function RecoverStep(s: State, w: Watch): State {
    CloseOrphans(Requeue(s, w.leases), |s.tasks|, w)
  }

  /** What becomes of a task. */
  function Judged(s: State, w: Watch, k: nat): Task
    requires k < |s.tasks|
  {
    if IsOrphan(s, k, w) then s.tasks[k].(status := TaskFailed) else s.tasks[k]
  }

  lemma OneTaskJudged(s: State, before: State, n: nat, w: Watch, k: nat)
    requires before.runs == s.runs && |before.tasks| == |s.tasks| && k <= n < |s.tasks| && before.tasks[n] == s.tasks[n]
    requires k < n ==> before.tasks[k] == Judged(s, w, k)
    ensures CloseOrphan(before, n, w).tasks[k] == Judged(s, w, k)
  {
  }

  /** Looking at the tasks fails exactly the orphans among them. */
  lemma {:induction false} OrphansFail(s: State, n: nat, w: Watch, k: nat)
    requires k < n <= |s.tasks|
    ensures CloseOrphans(s, n, w).tasks[k] == Judged(s, w, k)
  {
    if k < n - 1 {
      OrphansFail(s, n - 1, w, k);
    }
    OneTaskJudged(s, CloseOrphans(s, n - 1, w), n - 1, w, k);
  }

  /** The first orphan among the mandate's tasks. */
  function FirstOrphan(s: State, n: nat, w: Watch, m: MandateId): Option<nat>
    requires n <= |s.tasks|
  {
    if n == 0 then None
    else
      var earlier := FirstOrphan(s, n - 1, w, m);
      if earlier.Some? then earlier
      else if s.tasks[n - 1].mandate == m && IsOrphan(s, n - 1, w) then Some(n - 1)
      else None
  }

  /**
   What closing orphans does to one mandate: it fails exactly if it was open and has an orphan, and loses its reservation
   exactly if besides nothing was spent on the first one.
   */
  ghost predicate MandateClosed(s: State, s': State, n: nat, w: Watch, m: MandateId)
    requires n <= |s.tasks| && m < |s.mandates| && m < |s'.mandates|
  {
    var first := FirstOrphan(s, n, w, m);
    var fails := IsOpen(s.mandates, m) && first.Some?;
    && s'.mandates[m] == (if fails then s.mandates[m].(status := MandateFailed) else s.mandates[m])
    && (m in s'.reserved <==> m in s.reserved && !(fails && first.value in w.unpaidTasks))
  }

  lemma OneMandateClosed(s: State, before: State, n: nat, w: Watch, m: MandateId)
    requires before.runs == s.runs && |before.tasks| == |s.tasks| && n < |s.tasks| && before.tasks[n] == s.tasks[n]
    requires m < |s.mandates| && |before.mandates| == |s.mandates| && MandateClosed(s, before, n, w, m)
    ensures MandateClosed(s, CloseOrphan(before, n, w), n + 1, w, m)
  {
    assert IsOrphan(before, n, w) == IsOrphan(s, n, w);
  }

  lemma {:induction false} OrphanedMandatesFail(s: State, n: nat, w: Watch, m: MandateId)
    requires n <= |s.tasks| && m < |s.mandates|
    ensures MandateClosed(s, CloseOrphans(s, n, w), n, w, m)
  {
    if n > 0 {
      OrphanedMandatesFail(s, n - 1, w, m);
      OneMandateClosed(s, CloseOrphans(s, n - 1, w), n - 1, w, m);
    }
  }

  // ---------------------------------------------------------------------------------------------------
  // The stored tables, updated in place
  // ---------------------------------------------------------------------------------------------------

  class Store {
    var runs: seq<Run>
    var nextRunAt: map<PolicyId, Time>
    var mandates: seq<Mandate>
    var reserved: set<MandateId>
    var tasks: seq<Task>

    ghost function Contents(): State
      reads this
    {
      State(runs, nextRunAt, mandates, reserved, tasks)
    }

    constructor ()
      ensures Contents() == State([], map[], [], {}, [])
    {
      runs, nextRunAt, mandates, reserved, tasks := [], map[], [], {}, [];
    }

    method ScheduleDue(q: Request) returns (r: Option<RunId>)
      modifies this
      ensures (Contents(), r) == ScheduleStep(old(Contents()), q)
    {
      var p := q.policy;
      if !q.globalEnabled || !p.enabled || !p.active || !q.authority.Admits() {
        return None;
      }
      if p.mode == TelegraphHttp {
        var live := FirstLive(runs, p.id);
        if live.Some? {
          return live;
        }
      }
      if q.authority.longitudinal == Some(G13Policy.Halt) {
        return None;
      }
      var cadence := EffectiveCadence(p, q.authority.profile);
      var slot := Slot(q.instant, cadence);
      var existing := FindKey(runs, p.id, p.version, slot);
      if existing.Some? {
        return existing;
      }
      if p.id in nextRunAt && q.instant < nextRunAt[p.id] {
        return None;
      }
      var run := NewRun(runs, q);
      r := Some(|runs|);
      runs := runs + [run];
      var next := NextSlot(slot, cadence);
      if q.authority.Blocks() {
        next := SkipMissed(next, q.instant, cadence);
      }
      nextRunAt := nextRunAt[p.id := next];
    }

    method ClaimRun(r: RunId) returns (claimed: bool)
      modifies this`runs
      ensures Contents() == ClaimStep(old(Contents()), r)
      ensures claimed <==> r < |old(runs)| && old(runs)[r].state == Scheduled
    {
      if r >= |runs| || runs[r].state != Scheduled {
        return false;
      }
      runs := runs[r := runs[r].(state := Claimed)];
      return true;
    }

    method FailRun(r: RunId, failure: Failure)
      requires r < |runs|
      modifies this`runs
      ensures Contents() == Fail(old(Contents()), r, failure)
    {
      runs := runs[r := runs[r].(state := Failed, failure := Some(failure))];
    }

    method CreateMandate(r: RunId, c: Context)
      requires r < |runs|
      modifies this
      ensures Contents() == StartMandate(old(Contents()), r, c)
    {
      var m := |mandates|;
      mandates := mandates + [Mandate(r, Received, false)];
      if !c.reservationGranted {
        mandates := mandates[m := mandates[m].(status := MandateFailed)];
        FailRun(r, ReservationRefused);
        return;
      }
      reserved := reserved + {m};
      var created: seq<Task> := [];
      var count := TaskCount(c);
      for i := 0 to count
        invariant created == NewTasks(m, i) && !(false in c.acquisitions[..if i <= |c.acquisitions| then i else |c.acquisitions|])
        invariant unchanged(`runs) && unchanged(`nextRunAt) && unchanged(`tasks)
        invariant mandates == old(mandates) + [Mandate(r, Received, false)] && reserved == old(reserved) + {m}
      {
        if i < |c.acquisitions| && !c.acquisitions[i] {
          FailRun(r, TemplateInvalid);
          return;
        }
        created := created + [Task(m, Queued)];
      }
      assert c.acquisitions[..|c.acquisitions|] == c.acquisitions;
      tasks := tasks + created;
      runs := runs[r := runs[r].(mandate := Some(m), state := Running, skip := None)];
    }

    method ExecuteClaimed(r: RunId, policy: Option<Policy>, c: Context)
      requires r < |runs| && runs[r].state == Claimed
      modifies this
      ensures Contents() == ExecuteStep(old(Contents()), r, policy, c)
    {
      if policy.None? {
        FailRun(r, PolicyMissing);
        return;
      }
      var p := policy.value;
      if p.mode != TelegraphHttp {
        if p.mode != ReplayOnly || !p.readOnlyReplay {
          runs := runs[r := runs[r].(state := WaitingExternal)];
        } else if c.replay.Matches? {
          runs := runs[r := runs[r].(state := Completed, mandate := Some(c.replay.mandate), actual := 0)];
        } else {
          FailRun(r, if c.replay.NoSource? then ReplaySourceMissing else if c.replay.Raises? then ReplayFailed else ReplayMismatch);
        }
        return;
      }
      if !c.globalEnabled || !p.enabled || !p.active {
        FailRun(r, AutonomyDisabled);
      } else if !p.allowHttp || p.readOnlyReplay {
        FailRun(r, RailNotAllowed);
      } else if runs[r].mandate.Some? {
        var m := runs[r].mandate.value;
        if HasTask(tasks, m, Queued) {
          runs := runs[r := runs[r].(state := Running)];
        } else if m < |mandates| && mandates[m].status == Ticketed && mandates[m].hasTicket {
          runs := runs[r := runs[r].(state := Completed, actual := c.spent, failure := None)];
        } else {
          FailRun(r, OrphanedMandate);
        }
      } else {
        var refusal := Refusal(p, c);
        if refusal.Some? {
          FailRun(r, refusal.value);
        } else {
          CreateMandate(r, c);
        }
      }
    }

    method FinalizeHttpRun(m: MandateId, failure: Option<nat>, spent: int)
      modifies this`runs
      ensures Contents() == FinalizeStep(old(Contents()), m, failure, spent)
    {
      var ids := RunsOf(runs, m);
      if |ids| != 1 || runs[ids[0]].state.IsTerminal() {
        return;
      }
      var r := ids[0];
      runs := runs[r := runs[r].(actual := spent)];
      if failure.Some? {
        runs := runs[r := runs[r].(state := Failed, failure := Some(Reported(failure.value)))];
      } else if m >= |mandates| || mandates[m].status != Ticketed || !mandates[m].hasTicket {
        runs := runs[r := runs[r].(state := Failed, failure := Some(PipelineIncomplete))];
      } else {
        runs := runs[r := runs[r].(state := Completed, failure := None)];
      }
    }

    method RecoverRuns(w: Watch)
      modifies this
      ensures Contents() == RecoverStep(old(Contents()), w)
    {
      ghost var before := Contents();
      for i := 0 to |runs|
        invariant |runs| == |before.runs|
        invariant forall j | 0 <= j < i :: runs[j] == RecoveredRun(before, j, w.leases)
        invariant forall j | i <= j < |runs| :: runs[j] == before.runs[j]
        invariant Contents() == before.(runs := runs)
      {
        var run := runs[i];
        if run.state == Claimed || run.state == Running {
          var leased := run.mandate.Some? && HasTask(tasks, run.mandate.value, TaskRunning) && i in w.leases;
          if !leased {
            runs := runs[i := run.(state := Scheduled)];
          }
        }
      }
      assert runs == RecoveredRuns(before, w.leases);
      ghost var recovered := runs;
      for k := 0 to |tasks|
        invariant |tasks| == |before.tasks| && Contents() == before.(runs := recovered, tasks := tasks)
        invariant forall j | 0 <= j < k :: tasks[j] == RecoveredTask(runs, before.tasks[j])
        invariant forall j | k <= j < |tasks| :: tasks[j] == before.tasks[j]
      {
        if tasks[k].status == TaskRunning && AwaitsDispatch(runs, tasks[k].mandate) {
          tasks := tasks[k := tasks[k].(status := Queued)];
        }
      }
      assert tasks == RecoveredTasks(runs, before.tasks);
      FailOrphans(w);
    }

    /** The last recovery loop. */
    method FailOrphans(w: Watch)
      modifies this`tasks, this`mandates, this`reserved
      ensures Contents() == CloseOrphans(old(Contents()), |old(tasks)|, w)
    {
      for k := 0 to |tasks|
        invariant |tasks| == |old(tasks)| && Contents() == CloseOrphans(old(Contents()), k, w)
      {
        CloseTask(k, w);
      }
    }

    /** One round of the last recovery loop. */
    method CloseTask(k: nat, w: Watch)
      requires k < |tasks|
      modifies this`tasks, this`mandates, this`reserved
      ensures Contents() == CloseOrphan(old(Contents()), k, w)
    {
      var m := tasks[k].mandate;
      if tasks[k].status != TaskRunning || !ParentIsClosed(runs, m) || k in w.recentTasks {
        return;
      }
      tasks := tasks[k := tasks[k].(status := TaskFailed)];
      if m < |mandates| && mandates[m].status != Ticketed && mandates[m].status != MandateFailed {
        mandates := mandates[m := mandates[m].(status := MandateFailed)];
        if k in w.unpaidTasks {
          reserved := reserved - {m};
        }
      }
    }
  }

  // ---------------------------------------------------------------------------------------------------
  // Histories: any interleaving of the operations and of what other components persist
  // ---------------------------------------------------------------------------------------------------

  datatype Op =
    | Schedule(request: Request)
    | Claim(run: RunId)
    | Execute(run: RunId, policy: Option<Policy>, context: Context)
    | Finalize(mandate: MandateId, failure: Option<nat>, spent: int)
    | Recover(watch: Watch)
    | MandateProgress(mandate: MandateId, status: MandateStatus, hasTicket: bool)
    | TaskProgress(task: nat, taskStatus: TaskStatus)

  function Apply(s: State, op: Op): State {
    match op
    case Schedule(q) => ScheduleStep(s, q).0
    case Claim(r) => ClaimStep(s, r)
    case Execute(r, policy, c) => ExecuteStep(s, r, policy, c)
    case Finalize(m, failure, spent) => FinalizeStep(s, m, failure, spent)
    case Recover(w) => RecoverStep(s, w)
    case MandateProgress(m, status, ticket) =>
      if m < |s.mandates| then s.(mandates := s.mandates[m := s.mandates[m].(status := status, hasTicket := ticket)]) else s
    case TaskProgress(k, status) =>
      if k < |s.tasks| then s.(tasks := s.tasks[k := s.tasks[k].(status := status)]) else s
  }

  const EMPTY := State([], map[], [], {}, [])

  function After(ops: seq<Op>): State {
    if ops == [] then EMPTY else Apply(After(ops[..|ops| - 1]), ops[|ops| - 1])
  }

  /** What a step may do to one run. */
  ghost predicate Moves(r: Run, r': Run) {
    && r'.policy == r.policy && r'.version == r.version && r'.slot == r.slot && r'.planned == r.planned
    && (r.state.IsTerminal() ==> r' == r)
    && (r'.state.IsLive() ==> r.state.IsLive())
    && (r'.state == Skipped <==> r.state == Skipped)
    && (!r'.state.IsTerminal() && r.mandate.Some? ==> r'.mandate == r.mandate)
  }

  ghost predicate AllMove(runs: seq<Run>, runs': seq<Run>) {
    |runs| <= |runs'| && forall i | 0 <= i < |runs| :: Moves(runs[i], runs'[i])
  }

  /** The step changes at most the one run, in a way it may. */
  ghost predicate MovesOne(runs: seq<Run>, runs': seq<Run>, r: RunId) {
    runs' == runs || (r < |runs| && exists x :: runs' == runs[r := x] && Moves(runs[r], x))
  }

  lemma MovingOneMovesAll(runs: seq<Run>, runs': seq<Run>, r: RunId)
    requires MovesOne(runs, runs', r)
    ensures |runs'| == |runs| && AllMove(runs, runs')
  {
  }

  lemma ExecuteMoves(s: State, r: RunId, policy: Option<Policy>, c: Context)
    ensures MovesOne(s.runs, ExecuteStep(s, r, policy, c).runs, r)
  {
    var runs' := ExecuteStep(s, r, policy, c).runs;
    if runs' != s.runs {
      assert runs' == s.runs[r := runs'[r]] && Moves(s.runs[r], runs'[r]);
    }
  }

  lemma FinalizeMoves(s: State, m: MandateId, failure: Option<nat>, spent: int) returns (r: RunId)
    ensures MovesOne(s.runs, FinalizeStep(s, m, failure, spent).runs, r)
  {
    var ids, runs' := RunsOf(s.runs, m), FinalizeStep(s, m, failure, spent).runs;
    r := if |ids| == 1 then ids[0] else 0;
    if runs' != s.runs {
      assert runs' == s.runs[r := runs'[r]] && Moves(s.runs[r], runs'[r]);
    }
  }

  lemma StepMoves(s: State, op: Op)
    ensures AllMove(s.runs, Apply(s, op).runs)
    ensures !op.Schedule? ==> |Apply(s, op).runs| == |s.runs|
  {
    match op
    case Execute(r, policy, c) =>
      ExecuteMoves(s, r, policy, c);
      MovingOneMovesAll(s.runs, Apply(s, op).runs, r);
    case Finalize(m, failure, spent) =>
      var r := FinalizeMoves(s, m, failure, spent);
      MovingOneMovesAll(s.runs, Apply(s, op).runs, r);
    case _ =>
  }

  /** A completed, failed or skipped run is never touched again, by any later operations. */
  lemma {:induction false} TerminalForever(ops: seq<Op>, later: seq<Op>, i: RunId)
    requires i < |After(ops).runs| && After(ops).runs[i].state.IsTerminal()
    ensures i < |After(ops + later).runs| && After(ops + later).runs[i] == After(ops).runs[i]
  {
    if later == [] {
      assert ops + later == ops;
    } else {
      var n := |later| - 1;
      TerminalForever(ops, later[..n], i);
      assert (ops + later)[..|ops + later| - 1] == ops + later[..n];
      StepMoves(After(ops + later[..n]), later[n]);
      assert Moves(After(ops + later[..n]).runs[i], After(ops + later).runs[i]);
    }
  }

  // ---------------------------------------------------------------------------------------------------
  // One live run per HTTP policy, and one run per slot
  // ---------------------------------------------------------------------------------------------------

  /** The policy is an HTTP policy whenever it is scheduled. */
  ghost predicate AlwaysHttp(ops: seq<Op>, p: PolicyId) {
    forall op | op in ops && op.Schedule? && op.request.policy.id == p :: op.request.policy.mode == TelegraphHttp
  }

  ghost predicate AtMostOneLive(runs: seq<Run>, p: PolicyId) {
    forall i, j | 0 <= i < j < |runs| :: !(LiveOf(runs[i], p) && LiveOf(runs[j], p))
  }

  lemma MovesKeepOneLive(runs: seq<Run>, runs': seq<Run>, p: PolicyId)
    requires AllMove(runs, runs') && |runs'| == |runs| && AtMostOneLive(runs, p)
    ensures AtMostOneLive(runs', p)
  {
    forall i | 0 <= i < |runs| ensures LiveOf(runs'[i], p) ==> LiveOf(runs[i], p) {
      assert Moves(runs[i], runs'[i]);
    }
  }

  /** An HTTP policy has at most one run scheduled, claimed or running, in every history. */
  lemma {:induction false} OneLiveRunPerHttpPolicy(ops: seq<Op>, p: PolicyId)
    requires AlwaysHttp(ops, p)
    ensures AtMostOneLive(After(ops).runs, p)
  {
    if ops != [] {
      var before, op := ops[..|ops| - 1], ops[|ops| - 1];
      OneLiveRunPerHttpPolicy(before, p);
      var s := After(before);
      if op.Schedule? {
        assert op in ops;
        if Look(s, op.request).Due? {
          assert op.request.policy.id == p ==> forall i | 0 <= i < |s.runs| :: !LiveOf(s.runs[i], p);
        }
      } else {
        StepMoves(s, op);
        MovesKeepOneLive(s.runs, Apply(s, op).runs, p);
      }
    }
  }

  ghost predicate UniqueKeys(runs: seq<Run>) {
    forall i, j | 0 <= i < j < |runs| :: !HasKey(runs[i], runs[j].policy, runs[j].version, runs[j].slot)
  }

  lemma MovesKeepKeys(runs: seq<Run>, runs': seq<Run>)
    requires AllMove(runs, runs') && |runs'| == |runs| && UniqueKeys(runs)
    ensures UniqueKeys(runs')
  {
    forall i, j | 0 <= i < j < |runs| ensures !HasKey(runs'[i], runs'[j].policy, runs'[j].version, runs'[j].slot) {
      assert Moves(runs[i], runs'[i]) && Moves(runs[j], runs'[j]);
      assert !HasKey(runs[i], runs[j].policy, runs[j].version, runs[j].slot);
    }
  }

  /** No slot of a policy version is ever given two runs. */
  lemma {:induction false} OneRunPerSlot(ops: seq<Op>)
    ensures UniqueKeys(After(ops).runs)
  {
    if ops != [] {
      var before, op := ops[..|ops| - 1], ops[|ops| - 1];
      OneRunPerSlot(before);
      if !op.Schedule? {
        StepMoves(After(before), op);
        MovesKeepKeys(After(before).runs, After(ops).runs);
      }
    }
  }

  // ---------------------------------------------------------------------------------------------------
  // One mandate and one reservation per run
  // ---------------------------------------------------------------------------------------------------

  ghost predicate MandateAt(s: State, k: MandateId)
    requires k < |s.mandates|
  {
    var r := s.mandates[k].run;
    r < |s.runs| && (s.runs[r].state.IsTerminal() || s.runs[r].mandate == Some(k))
  }

  ghost predicate MandatesKept(s: State) {
    && (forall k | 0 <= k < |s.mandates| :: MandateAt(s, k))
    && (forall k, l | 0 <= k < l < |s.mandates| :: s.mandates[k].run != s.mandates[l].run)
    && (forall m | m in s.reserved :: m < |s.mandates|)
  }

  /** Steps that create no mandate. */
  lemma MovesKeepMandates(s: State, s': State)
    requires MandatesKept(s) && AllMove(s.runs, s'.runs) && s'.reserved <= s.reserved && |s'.mandates| == |s.mandates|
    requires forall k | 0 <= k < |s.mandates| :: s'.mandates[k].run == s.mandates[k].run
    ensures MandatesKept(s')
  {
    forall k | 0 <= k < |s.mandates| ensures MandateAt(s', k) {
      assert MandateAt(s, k);
      var r := s.mandates[k].run;
      assert Moves(s.runs[r], s'.runs[r]);
    }
  }

  lemma StartKeepsMandates(s: State, r: RunId, c: Context)
    requires MandatesKept(s) && r < |s.runs| && s.runs[r].state == Claimed && s.runs[r].mandate.None?
    ensures MandatesKept(StartMandate(s, r, c))
  {
    var s' := StartMandate(s, r, c);
    assert |s'.mandates| == |s.mandates| + 1 && s'.mandates[..|s.mandates|] == s.mandates;
    forall k | 0 <= k < |s.mandates| ensures MandateAt(s', k) && s.mandates[k].run != r {
      assert MandateAt(s, k);
      assert s'.mandates[k] == s.mandates[k];
    }
  }

  /** The operation creates a mandate. */
  ghost predicate Starts(s: State, op: Op) {
    && op.Execute? && op.run < |s.runs| && s.runs[op.run].state == Claimed && s.runs[op.run].mandate.None?
    && Apply(s, op) == StartMandate(s, op.run, op.context)
  }

  lemma OtherwiseNoMandate(s: State, op: Op)
    requires !Starts(s, op)
    ensures Apply(s, op).reserved <= s.reserved && |Apply(s, op).mandates| == |s.mandates|
    ensures forall k | 0 <= k < |s.mandates| :: Apply(s, op).mandates[k].run == s.mandates[k].run
  {
  }

  lemma {:induction false} MandatesAreKept(ops: seq<Op>)
    ensures MandatesKept(After(ops))
  {
    if ops != [] {
      var before, op := After(ops[..|ops| - 1]), ops[|ops| - 1];
      MandatesAreKept(ops[..|ops| - 1]);
      if Starts(before, op) {
        StartKeepsMandates(before, op.run, op.context);
      } else {
        OtherwiseNoMandate(before, op);
        StepMoves(before, op);
        MovesKeepMandates(before, Apply(before, op));
      }
    }
  }

  /** In every history each run creates at most one mandate and holds at most one reservation. */
  lemma OneMandatePerRun(ops: seq<Op>, k: MandateId, l: MandateId)
    requires k < |After(ops).mandates| && l < |After(ops).mandates| && After(ops).mandates[k].run == After(ops).mandates[l].run
    ensures k == l
    ensures forall m | m in After(ops).reserved :: m < |After(ops).mandates|
  {
    MandatesAreKept(ops);
  }

  /** A template that proves invalid after the reservation leaves it held, under a failed run that does not know its mandate. */
  lemma InvalidTemplateLeavesReservation(s: State, r: RunId, p: Policy, c: Context)
    requires r < |s.runs| && s.runs[r].state == Claimed && s.runs[r].mandate.None?
    requires p.mode == TelegraphHttp && c.globalEnabled && p.enabled && p.active && p.allowHttp && !p.readOnlyReplay
    requires Refusal(p, c).None? && c.reservationGranted
    ensures var s' := ExecuteStep(s, r, Some(p), c);
            false in c.acquisitions <==> s'.runs[r].state == Failed && s'.runs[r].mandate.None? && |s.mandates| in s'.reserved
  {
  }

  lemma AfterAppend(ops: seq<Op>, op: Op)
    ensures After(ops + [op]) == Apply(After(ops), op)
  {
    assert (ops + [op])[..|ops|] == ops;
  }
}
