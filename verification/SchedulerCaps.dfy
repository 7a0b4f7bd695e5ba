/**
 The daily caps of the autonomy scheduler (backend/app/autonomy/service.py, _budget_reason). The cap on runs and the budget
 of a day are checked against the runs whose slot lies in the day of the instant, and the new run is then counted in the
 day of its own slot. For a policy whose cadence and limits stay as they are, the lemmas say exactly when that is enough.
 */
module SchedulerCaps {
  import opened Wrappers
  import opened Ordering
  import opened Slots
  import opened Scheduler
  import opened SchedulerSlots

  function NotSkippedOn(p: PolicyId, day: int): Run -> bool {
    (r: Run) => IsOn(r, p, day) && r.state != Skipped
  }

  function RunsOn(runs: seq<Run>, p: PolicyId, day: int): nat {
    |Filter(runs, NotSkippedOn(p, day))|
  }

  /** The policy keeps its cadence and its cap on runs. */
  ghost predicate Paced(ops: seq<Op>, p: PolicyId, c: Cadence, maxRuns: int) {
    forall op | op in ops && op.Schedule? && op.request.policy.id == p ::
      && op.request.instant >= 0
      && EffectiveCadence(op.request.policy, op.request.authority.profile) == c
      && EffectiveLimits(op.request.policy, op.request.authority.profile).maxRuns == maxRuns
  }

  /** The runs that a day can hold: one more than the cap when a slot of the day is due on the next day only. */
  function DayHolds(c: Cadence, maxRuns: nat): nat {
    var slots := DAY_SECONDS / c;
    var capped := if maxRuns < slots then maxRuns else slots;
    if DAY_SECONDS % c == 0 then capped else capped + 1
  }

  // ---------------------------------------------------------------------------------------------------
  // The grid within a day
  // ---------------------------------------------------------------------------------------------------

  /** The first and the last multiple of the cadence that lies in the day, counted in steps of the cadence. */
  function FirstCell(day: int, c: Cadence): int {
    (day * DAY_SECONDS + c - 1) / c
  }

  function LastCell(day: int, c: Cadence): int {
    ((day + 1) * DAY_SECONDS - 1) / c
  }

  lemma Quotient(x: int, j: int, c: Cadence)
    ensures j * c <= x <==> j <= x / c
  {
    assert x == (x / c) * c + x % c;
    BelowMeansSmaller(x / c, j, c);
    if j <= x / c {
      ProductMonotone(j, x / c, c);
    }
  }

  lemma DayCells(day: int, c: Cadence, j: int)
    requires (j * c) / DAY_SECONDS == day
    ensures FirstCell(day, c) <= j <= LastCell(day, c)
  {
    var s := j * c;
    assert day * DAY_SECONDS <= s < (day + 1) * DAY_SECONDS;
    Quotient((day + 1) * DAY_SECONDS - 1, j, c);
    var start := day * DAY_SECONDS;
    Quotient(start + c - 1, j + 1, c);
    assert (j + 1) * c == s + c;
  }

  /** A day holds at most as many multiples of the cadence as fit, and one more unless the cadence divides the day. */
  lemma CellsOfDay(day: int, c: Cadence)
    ensures LastCell(day, c) - FirstCell(day, c) + 1 <= DAY_SECONDS / c + (if DAY_SECONDS % c == 0 then 0 else 1)
  {
    var start, first, last := day * DAY_SECONDS, FirstCell(day, c), LastCell(day, c);
    Quotient(start + DAY_SECONDS - 1, last, c);
    Quotient(start + c - 1, first, c);
    Quotient(start + c - 1, first + 1, c);
    assert (first + 1) * c == first * c + c;
    assert first * c >= start && last * c <= start + DAY_SECONDS - 1;
    assert (last - first) * c == last * c - first * c;
    Quotient(DAY_SECONDS - 1, last - first, c);
    LessOneQuotient(c);
  }

  lemma LessOneQuotient(c: Cadence)
    ensures (DAY_SECONDS - 1) / c + 1 == DAY_SECONDS / c + (if DAY_SECONDS % c == 0 then 0 else 1)
  {
    var q, r := DAY_SECONDS / c, DAY_SECONDS % c;
    assert DAY_SECONDS == q * c + r;
    Quotient(DAY_SECONDS - 1, q, c);
    Quotient(DAY_SECONDS - 1, q + 1, c);
    Quotient(DAY_SECONDS - 1, q - 1, c);
    assert (q + 1) * c == q * c + c && (q - 1) * c == q * c - c;
  }

  lemma PrefixRises(runs: seq<Run>, p: PolicyId, c: Cadence)
    requires runs != [] && RisingSlots(runs, p) && OnGrid(runs, p, c)
    ensures RisingSlots(runs[..|runs| - 1], p) && OnGrid(runs[..|runs| - 1], p, c)
  {
  }

  ghost predicate UpTo(runs: seq<Run>, p: PolicyId, day: int, c: Cadence, top: int) {
    forall i | 0 <= i < |runs| && IsOn(runs[i], p, day) :: runs[i].slot <= (top * c) * SECOND
  }

  lemma EarlierCell(r: Run, s: Run, p: PolicyId, c: Cadence, j: int)
    requires r.policy == p && s.slot == (j * c) * SECOND && r.slot < s.slot && OnGrid([r], p, c)
    ensures r.slot <= ((j - 1) * c) * SECOND
  {
    assert [r][0] == r;
    var i: int :| r.slot == (i * c) * SECOND;
    assert i * c < j * c;
    if i >= j {
      ProductMonotone(j, i, c);
    }
    ProductMonotone(i, j - 1, c);
  }

  /** Rising slots take one cell each. */
  lemma {:induction false} OneRunPerCell(runs: seq<Run>, p: PolicyId, day: int, c: Cadence, top: int)
    requires RisingSlots(runs, p) && OnGrid(runs, p, c) && UpTo(runs, p, day, c, top) && top >= FirstCell(day, c) - 1
    ensures RunsOn(runs, p, day) <= top - FirstCell(day, c) + 1
  {
    if runs != [] {
      var n := |runs| - 1;
      PrefixRises(runs, p, c);
      if NotSkippedOn(p, day)(runs[n]) {
        var j: int :| runs[n].slot == (j * c) * SECOND;
        DayOfSlot(j * c);
        DayCells(day, c, j);
        Quotient(top * c, j, c);
        ExactQuotient(top, c);
        forall i | 0 <= i < n && IsOn(runs[i], p, day) ensures runs[i].slot <= ((j - 1) * c) * SECOND {
          assert OnGrid([runs[i]], p, c);
          EarlierCell(runs[i], runs[n], p, c, j);
        }
        OneRunPerCell(runs[..n], p, day, c, j - 1);
      } else {
        OneRunPerCell(runs[..n], p, day, c, top);
      }
    }
  }

  lemma ExactQuotient(q: int, c: Cadence)
    ensures (q * c) / c == q
  {
    Quotient(q * c, q, c);
    Quotient(q * c, q + 1, c);
    assert (q + 1) * c == q * c + c;
  }

  lemma RunsWithinCells(runs: seq<Run>, p: PolicyId, day: int, c: Cadence)
    requires RisingSlots(runs, p) && OnGrid(runs, p, c)
    ensures RunsOn(runs, p, day) <= DAY_SECONDS / c + (if DAY_SECONDS % c == 0 then 0 else 1)
  {
    var last := LastCell(day, c);
    if exists i :: 0 <= i < |runs| && IsOn(runs[i], p, day) {
      forall i | 0 <= i < |runs| && IsOn(runs[i], p, day)
        ensures runs[i].slot <= (last * c) * SECOND && FirstCell(day, c) <= last
      {
        var j: int :| runs[i].slot == (j * c) * SECOND;
        DayOfSlot(j * c);
        DayCells(day, c, j);
        ProductMonotone(j, last, c);
      }
      OneRunPerCell(runs, p, day, c, last);
    } else {
      FilterNone(runs, NotSkippedOn(p, day));
    }
    CellsOfDay(day, c);
  }

  // ---------------------------------------------------------------------------------------------------
  // The slot that is due on the next day
  // ---------------------------------------------------------------------------------------------------

  /** The step after the slot does not leave the day. */
  predicate EndsInDay(slot: Time, day: int, c: Cadence) {
    slot + c * SECOND <= (day + 1) * DAY_SECONDS * SECOND
  }

  function EarlyOn(p: PolicyId, day: int, c: Cadence): Run -> bool {
    (r: Run) => IsOn(r, p, day) && r.state != Skipped && EndsInDay(r.slot, day, c)
  }

  function LateOn(p: PolicyId, day: int, c: Cadence): Run -> bool {
    (r: Run) => IsOn(r, p, day) && r.state != Skipped && !EndsInDay(r.slot, day, c)
  }

  lemma {:induction false} EarlyAndLate(runs: seq<Run>, p: PolicyId, day: int, c: Cadence)
    ensures RunsOn(runs, p, day) == |Filter(runs, EarlyOn(p, day, c))| + |Filter(runs, LateOn(p, day, c))|
    ensures |Filter(runs, EarlyOn(p, day, c))| <= |Filter(runs, OnDay(p, day))|
  {
    if runs != [] {
      EarlyAndLate(runs[..|runs| - 1], p, day, c);
    }
  }

  lemma LateIsLast(slot: Time, day: int, c: Cadence, j: int)
    requires slot == (j * c) * SECOND && Day(slot) == day && !EndsInDay(slot, day, c)
    ensures j == LastCell(day, c) && DAY_SECONDS % c != 0
  {
    var end := (day + 1) * DAY_SECONDS;
    DayOfSlot(j * c);
    DayCells(day, c, j);
    assert (j + 1) * c == j * c + c;
    assert j * c + c > end;
    Quotient(end - 1, j + 1, c);
    if DAY_SECONDS % c == 0 {
      var q := DAY_SECONDS / c;
      StartOfDayIsMultiple(day + 1, q, c);
      MultipleHasNoRemainder(j, c);
      MultiplesApart(j * c, end, c);
    }
  }

  lemma {:induction false} AtMostOneLate(runs: seq<Run>, p: PolicyId, day: int, c: Cadence)
    requires RisingSlots(runs, p) && OnGrid(runs, p, c)
    ensures |Filter(runs, LateOn(p, day, c))| <= if DAY_SECONDS % c == 0 then 0 else 1
  {
    if runs != [] {
      var n := |runs| - 1;
      PrefixRises(runs, p, c);
      if LateOn(p, day, c)(runs[n]) {
        var j: int :| runs[n].slot == (j * c) * SECOND;
        LateIsLast(runs[n].slot, day, c, j);
        forall i | 0 <= i < n ensures !LateOn(p, day, c)(runs[..n][i]) {
          if LateOn(p, day, c)(runs[i]) {
            var k: int :| runs[i].slot == (k * c) * SECOND;
            LateIsLast(runs[i].slot, day, c, k);
          }
        }
        FilterNone(runs[..n], LateOn(p, day, c));
      } else {
        AtMostOneLate(runs[..n], p, day, c);
      }
    }
  }

  lemma {:induction false} SameCount(runs: seq<Run>, runs': seq<Run>, f: Run -> bool)
    requires |runs'| == |runs| && forall i | 0 <= i < |runs| :: f(runs'[i]) == f(runs[i])
    ensures |Filter(runs', f)| == |Filter(runs, f)|
  {
    if runs != [] {
      SameCount(runs[..|runs| - 1], runs'[..|runs| - 1], f);
    }
  }

  /** A new run whose step does not leave its day was counted in that day. */
  lemma EarlyRunIsChecked(q: Request, day: int, c: Cadence)
    requires q.instant >= 0 && EffectiveCadence(q.policy, q.authority.profile) == c
    requires Day(Slot(q.instant, c)) == day && EndsInDay(Slot(q.instant, c), day, c)
    ensures Day(q.instant) == day
  {
    SlotBounds(q.instant, c);
  }

  lemma ScheduleKeepsEarly(s: State, q: Request, p: PolicyId, c: Cadence, maxRuns: int, day: int)
    requires |Filter(s.runs, EarlyOn(p, day, c))| <= maxRuns && maxRuns >= 1
    requires q.policy.id == p ==>
               && q.instant >= 0 && EffectiveCadence(q.policy, q.authority.profile) == c
               && EffectiveLimits(q.policy, q.authority.profile).maxRuns == maxRuns
    ensures |Filter(ScheduleStep(s, q).0.runs, EarlyOn(p, day, c))| <= maxRuns
  {
    if Look(s, q).Due? {
      var run := NewRun(s.runs, q);
      FilterLast(s.runs, run, EarlyOn(p, day, c));
      if EarlyOn(p, day, c)(run) {
        EarlyRunIsChecked(q, day, c);
        EarlyAndLate(s.runs, p, day, c);
      }
    }
  }

  lemma {:induction false} EarlyWithinCap(ops: seq<Op>, p: PolicyId, c: Cadence, maxRuns: int, day: int)
    requires Paced(ops, p, c, maxRuns) && maxRuns >= 1
    ensures |Filter(After(ops).runs, EarlyOn(p, day, c))| <= maxRuns
  {
    if ops != [] {
      var before, op := ops[..|ops| - 1], ops[|ops| - 1];
      assert op in ops;
      EarlyWithinCap(before, p, c, maxRuns, day);
      if op.Schedule? {
        ScheduleKeepsEarly(After(before), op.request, p, c, maxRuns, day);
      } else {
        StepMoves(After(before), op);
        forall i | 0 <= i < |After(before).runs|
          ensures EarlyOn(p, day, c)(After(ops).runs[i]) == EarlyOn(p, day, c)(After(before).runs[i])
        {
          assert Moves(After(before).runs[i], After(ops).runs[i]);
        }
        SameCount(After(before).runs, After(ops).runs, EarlyOn(p, day, c));
      }
    }
  }

  /** No day ever has more runs than it can hold. */
  lemma RunsWithinDay(ops: seq<Op>, p: PolicyId, c: Cadence, maxRuns: nat, day: int)
    requires Paced(ops, p, c, maxRuns) && maxRuns >= 1
    ensures RunsOn(After(ops).runs, p, day) <= DayHolds(c, maxRuns)
  {
    UnchangedCadenceRises(ops, p, c);
    SlotsStayOnGrid(ops, p, c);
    EarlyWithinCap(ops, p, c, maxRuns, day);
    var runs := After(ops).runs;
    RunsWithinCells(runs, p, day, c);
    AtMostOneLate(runs, p, day, c);
    EarlyAndLate(runs, p, day, c);
  }

  // ---------------------------------------------------------------------------------------------------
  // What a day costs
  // ---------------------------------------------------------------------------------------------------

  /** What a policy keeps: its cadence, its caps, and what is planned for each run. */
  datatype Terms = Terms(cadence: Cadence, maxRuns: nat, cost: nat, perRun: int, daily: nat)

  ghost predicate Meets(q: Request, g: Terms) {
    var limits := EffectiveLimits(q.policy, q.authority.profile);
    && q.instant >= 0 && EffectiveCadence(q.policy, q.authority.profile) == g.cadence
    && limits.maxRuns == g.maxRuns && limits.perRun == g.perRun && limits.daily == g.daily
    && PlannedCost(q.policy) == g.cost
  }

  ghost predicate Steady(ops: seq<Op>, p: PolicyId, g: Terms) {
    forall op | op in ops && op.Schedule? && op.request.policy.id == p :: Meets(op.request, g)
  }

  lemma SteadyIsPaced(ops: seq<Op>, p: PolicyId, g: Terms)
    requires Steady(ops, p, g)
    ensures Paced(ops, p, g.cadence, g.maxRuns)
  {
    forall op | op in ops && op.Schedule? && op.request.policy.id == p ensures Meets(op.request, g) {
    }
  }

  /** No run costs more than was planned for it. */
  ghost predicate Frugal(s: State, op: Op) {
    && (op.Execute? ==> forall i | 0 <= i < |s.runs| && i == op.run :: op.context.spent <= s.runs[i].planned)
    && (op.Finalize? ==> forall i | 0 <= i < |s.runs| && s.runs[i].mandate == Some(op.mandate) :: op.spent <= s.runs[i].planned)
  }

  ghost predicate AllFrugal(ops: seq<Op>) {
    ops != [] ==> AllFrugal(ops[..|ops| - 1]) && Frugal(After(ops[..|ops| - 1]), ops[|ops| - 1])
  }

  /** What the budget counts of a run: its actual cost once completed, its planned cost while active. */
  function WeightOf(r: Run, p: PolicyId, day: int): int {
    if IsOn(r, p, day) then SpentBy(r) + ReservedBy(r) else 0
  }

  /** What the run costs: its actual cost once completed or failed, its planned cost while active. */
  function CostOf(r: Run, p: PolicyId, day: int): int {
    if !IsOn(r, p, day) then 0
    else if r.state == Completed || r.state == Failed then r.actual
    else ReservedBy(r)
  }

  function Weight(p: PolicyId, day: int): Run -> int {
    (r: Run) => WeightOf(r, p, day)
  }

  function Cost(p: PolicyId, day: int): Run -> int {
    (r: Run) => CostOf(r, p, day)
  }

  function Committed(runs: seq<Run>, p: PolicyId, day: int): int {
    SumOver(runs, Weight(p, day))
  }

  function FullCost(runs: seq<Run>, p: PolicyId, day: int): int {
    SumOver(runs, Cost(p, day))
  }

  lemma SumAppend(runs: seq<Run>, r: Run, f: Run -> int)
    ensures SumOver(runs + [r], f) == SumOver(runs, f) + f(r)
  {
    assert (runs + [r])[..|runs|] == runs;
  }

  lemma {:induction false} DayTotals(runs: seq<Run>, p: PolicyId, day: int)
    ensures var dayRuns := Filter(runs, OnDay(p, day));
            SumOver(dayRuns, Spent()) + SumOver(dayRuns, Reserved()) == Committed(runs, p, day)
  {
    if runs != [] {
      var n := |runs| - 1;
      DayTotals(runs[..n], p, day);
      var earlier := Filter(runs[..n], OnDay(p, day));
      SumAppend(earlier, runs[n], Spent());
      SumAppend(earlier, runs[n], Reserved());
    }
  }

  /** Every run of the policy was planned at the cost, and none has cost more. */
  ghost predicate CostsKept(runs: seq<Run>, p: PolicyId, cost: nat) {
    forall i | 0 <= i < |runs| && runs[i].policy == p :: runs[i].planned == cost && runs[i].actual <= cost
  }

  lemma StepWithinPlan(s: State, op: Op, i: RunId)
    requires i < |s.runs| && s.runs[i].planned >= 0 && s.runs[i].actual <= s.runs[i].planned && Frugal(s, op)
    requires op.Execute? || op.Finalize?
    ensures i < |Apply(s, op).runs| && Apply(s, op).runs[i].actual <= s.runs[i].planned
  {
    match op
    case Execute(r, policy, c) => ExecutedWithinPlan(s, r, policy, c, i);
    case Finalize(m, failure, spent) => FinalizedWithinPlan(s, m, failure, spent, i);
  }

  lemma ExecutedWithinPlan(s: State, r: RunId, policy: Option<Policy>, c: Context, i: RunId)
    requires i < |s.runs| && s.runs[i].planned >= 0 && s.runs[i].actual <= s.runs[i].planned && Frugal(s, Execute(r, policy, c))
    ensures i < |ExecuteStep(s, r, policy, c).runs| && ExecuteStep(s, r, policy, c).runs[i].actual <= s.runs[i].planned
  {
  }

  lemma FinalizedWithinPlan(s: State, m: MandateId, failure: Option<nat>, spent: int, i: RunId)
    requires i < |s.runs| && s.runs[i].actual <= s.runs[i].planned && Frugal(s, Finalize(m, failure, spent))
    ensures i < |FinalizeStep(s, m, failure, spent).runs| && FinalizeStep(s, m, failure, spent).runs[i].actual <= s.runs[i].planned
  {
  }

  lemma StepKeepsCosts(s: State, op: Op, p: PolicyId, g: Terms)
    requires CostsKept(s.runs, p, g.cost) && Frugal(s, op)
    requires op.Schedule? && op.request.policy.id == p ==> Meets(op.request, g)
    ensures CostsKept(Apply(s, op).runs, p, g.cost)
  {
    if op.Execute? || op.Finalize? {
      StepMoves(s, op);
      forall i | 0 <= i < |s.runs| && s.runs[i].policy == p
        ensures Apply(s, op).runs[i].planned == g.cost && Apply(s, op).runs[i].actual <= g.cost
      {
        assert Moves(s.runs[i], Apply(s, op).runs[i]);
        StepWithinPlan(s, op, i);
      }
      forall i | 0 <= i < |s.runs| ensures Apply(s, op).runs[i].policy == s.runs[i].policy {
        assert Moves(s.runs[i], Apply(s, op).runs[i]);
      }
    }
  }

  lemma {:induction false} CostsAreKept(ops: seq<Op>, p: PolicyId, g: Terms)
    requires Steady(ops, p, g) && AllFrugal(ops)
    ensures CostsKept(After(ops).runs, p, g.cost)
  {
    if ops != [] {
      var before, op := ops[..|ops| - 1], ops[|ops| - 1];
      assert op in ops;
      CostsAreKept(before, p, g);
      StepKeepsCosts(After(before), op, p, g);
    }
  }

  /** A sum in which each run of the day that was not skipped counts for at most the cost, and no other run counts. */
  lemma {:induction false} SumWithinCount(runs: seq<Run>, p: PolicyId, day: int, f: Run -> int, cost: nat)
    requires forall i | 0 <= i < |runs| :: f(runs[i]) <= if NotSkippedOn(p, day)(runs[i]) then cost else 0
    ensures SumOver(runs, f) <= RunsOn(runs, p, day) * cost
  {
    if runs != [] {
      SumWithinCount(runs[..|runs| - 1], p, day, f, cost);
    }
  }

  lemma CostWithinCount(runs: seq<Run>, p: PolicyId, day: int, cost: nat)
    requires CostsKept(runs, p, cost)
    ensures Committed(runs, p, day) <= RunsOn(runs, p, day) * cost
    ensures FullCost(runs, p, day) <= RunsOn(runs, p, day) * cost
  {
    SumWithinCount(runs, p, day, Weight(p, day), cost);
    SumWithinCount(runs, p, day, Cost(p, day), cost);
  }

  lemma Scale(a: nat, b: nat, k: nat)
    requires a <= b
    ensures a * k <= b * k
  {
  }

  lemma CostWithinDay(ops: seq<Op>, p: PolicyId, g: Terms, day: int)
    requires Steady(ops, p, g) && AllFrugal(ops) && g.maxRuns >= 1
    ensures Committed(After(ops).runs, p, day) <= DayHolds(g.cadence, g.maxRuns) * g.cost
    ensures FullCost(After(ops).runs, p, day) <= DayHolds(g.cadence, g.maxRuns) * g.cost
  {
    SteadyIsPaced(ops, p, g);
    RunsWithinDay(ops, p, g.cadence, g.maxRuns, day);
    CostsAreKept(ops, p, g);
    CostWithinCount(After(ops).runs, p, day, g.cost);
    Scale(RunsOn(After(ops).runs, p, day), DayHolds(g.cadence, g.maxRuns), g.cost);
  }

  // ---------------------------------------------------------------------------------------------------
  // A run that costs too much is always skipped
  // ---------------------------------------------------------------------------------------------------

  predicate TooDear(g: Terms) {
    g.cost > g.perRun || g.cost > g.daily
  }

  ghost predicate OnlySkipped(runs: seq<Run>, p: PolicyId) {
    forall i | 0 <= i < |runs| && runs[i].policy == p :: runs[i].state == Skipped
  }

  lemma {:induction false} SkippedCostNothing(runs: seq<Run>, p: PolicyId, day: int)
    requires OnlySkipped(runs, p)
    ensures Committed(runs, p, day) == 0 && FullCost(runs, p, day) == 0
  {
    if runs != [] {
      SkippedCostNothing(runs[..|runs| - 1], p, day);
    }
  }

  lemma DearRunIsSkipped(runs: seq<Run>, q: Request, g: Terms)
    requires OnlySkipped(runs, q.policy.id) && Meets(q, g) && TooDear(g)
    ensures NewRun(runs, q).state == Skipped
  {
    DayTotals(runs, q.policy.id, Day(q.instant));
    SkippedCostNothing(runs, q.policy.id, Day(q.instant));
  }

  lemma {:induction false} DearRunsAreSkipped(ops: seq<Op>, p: PolicyId, g: Terms)
    requires Steady(ops, p, g) && TooDear(g)
    ensures OnlySkipped(After(ops).runs, p)
  {
    if ops != [] {
      var before, op := ops[..|ops| - 1], ops[|ops| - 1];
      assert op in ops;
      DearRunsAreSkipped(before, p, g);
      if op.Schedule? {
        if op.request.policy.id == p {
          DearRunIsSkipped(After(before).runs, op.request, g);
        }
      } else {
        StepMoves(After(before), op);
        forall i | 0 <= i < |After(before).runs| && After(ops).runs[i].policy == p ensures After(ops).runs[i].state == Skipped {
          assert Moves(After(before).runs[i], After(ops).runs[i]);
        }
      }
    }
  }

  // ---------------------------------------------------------------------------------------------------
  // A cadence that divides the day keeps the budget
  // ---------------------------------------------------------------------------------------------------

  lemma {:induction false} LighterRunsCommitLess(runs: seq<Run>, runs': seq<Run>, p: PolicyId, day: int)
    requires |runs'| == |runs| && forall i | 0 <= i < |runs| :: WeightOf(runs'[i], p, day) <= WeightOf(runs[i], p, day)
    ensures Committed(runs', p, day) <= Committed(runs, p, day)
  {
    if runs != [] {
      LighterRunsCommitLess(runs[..|runs| - 1], runs'[..|runs| - 1], p, day);
    }
  }

  lemma LighterWhenMoved(r: Run, r': Run, p: PolicyId, day: int)
    requires Moves(r, r') && (r'.policy == p ==> r'.actual <= r'.planned && r'.planned >= 0)
    ensures WeightOf(r', p, day) <= WeightOf(r, p, day)
  {
    assert IsOn(r', p, day) <==> IsOn(r, p, day);
    if !r.state.IsTerminal() {
      assert SpentBy(r) == 0 && ReservedBy(r) == r.planned;
      assert r'.state.IsActive() ==> SpentBy(r') == 0 && ReservedBy(r') == r.planned;
    }
  }

  lemma OtherStepsKeepBudget(s: State, op: Op, p: PolicyId, g: Terms, day: int)
    requires CostsKept(Apply(s, op).runs, p, g.cost) && !op.Schedule?
    ensures Committed(Apply(s, op).runs, p, day) <= Committed(s.runs, p, day)
  {
    var s' := Apply(s, op);
    StepMoves(s, op);
    forall i | 0 <= i < |s.runs| ensures WeightOf(s'.runs[i], p, day) <= WeightOf(s.runs[i], p, day) {
      assert Moves(s.runs[i], s'.runs[i]);
      LighterWhenMoved(s.runs[i], s'.runs[i], p, day);
    }
    LighterRunsCommitLess(s.runs, s'.runs, p, day);
  }

  lemma ScheduleKeepsBudget(s: State, q: Request, p: PolicyId, g: Terms, day: int)
    requires Committed(s.runs, p, day) <= g.daily
    requires q.policy.id == p ==> Meets(q, g) && DAY_SECONDS % g.cadence == 0
    ensures Committed(ScheduleStep(s, q).0.runs, p, day) <= g.daily
  {
    if Look(s, q).Due? {
      var run := NewRun(s.runs, q);
      SumAppend(s.runs, run, Weight(p, day));
      if q.policy.id == p {
        SlotKeepsTheDay(q.instant, g.cadence);
        DayTotals(s.runs, p, Day(q.instant));
        assert WeightOf(run, p, day) == if Day(q.instant) == day && run.state == Scheduled then run.planned else 0;
      }
    }
  }

  lemma {:induction false} DividingCadenceKeepsBudget(ops: seq<Op>, p: PolicyId, g: Terms, day: int)
    requires Steady(ops, p, g) && AllFrugal(ops) && DAY_SECONDS % g.cadence == 0
    ensures Committed(After(ops).runs, p, day) <= g.daily
  {
    if ops != [] {
      var before, op := ops[..|ops| - 1], ops[|ops| - 1];
      assert op in ops;
      DividingCadenceKeepsBudget(before, p, g, day);
      if op.Schedule? {
        ScheduleKeepsBudget(After(before), op.request, p, g, day);
      } else {
        CostsAreKept(ops, p, g);
        OtherStepsKeepBudget(After(before), op, p, g, day);
      }
    }
  }

  // ---------------------------------------------------------------------------------------------------
  // Histories that fill a day
  // ---------------------------------------------------------------------------------------------------

  function FullPolicy(p: PolicyId, g: Terms): Policy {
    Policy(p, 0, TelegraphHttp, true, true, g.cadence, 1, 1, g.cost, 0, true, false)
  }

  function FullAuthority(g: Terms): Authority {
    Authority(Some(ActiveIdentity), None, false, false, false, true,
              Some(Profile(true, None, false, Some(g.maxRuns), Some(1), Some(g.perRun), Some(g.daily))))
  }

  function Ask(p: PolicyId, g: Terms, seconds: nat): Request {
    Request(FullPolicy(p, g), FullAuthority(g), seconds * SECOND, true)
  }

  function Smooth(): Context {
    Context(true, true, true, true, true, true, true, [true], 0, NoSource)
  }

  /** The life of the k-th run, scheduled at the second t: it is executed and closes at the planned cost, completed or failed. */
  function Life(p: PolicyId, g: Terms, failure: Option<nat>, k: nat, t: nat): seq<Op> {
    [Schedule(Ask(p, g, t)), Claim(k), Execute(k, Some(FullPolicy(p, g)), Smooth()),
     Progress(failure, k), Finalize(k, failure, g.cost)]
  }

  /** What becomes of the mandate before the run is closed. */
  function Progress(failure: Option<nat>, m: MandateId): Op {
    MandateProgress(m, if failure.None? then Ticketed else MandateFailed, failure.None?)
  }

  function Closed(p: PolicyId, g: Terms, failure: Option<nat>, k: nat, t: nat): Run {
    Run(p, 0, Slot(t * SECOND, g.cadence), if failure.None? then Completed else Failed, g.cost, g.cost, Some(k), None,
        if failure.None? then None else Some(Reported(failure.value)))
  }

  /** The first n runs of the day, one at each multiple of the cadence. */
  function FirstRuns(p: PolicyId, g: Terms, failure: Option<nat>, n: nat): seq<Op> {
    if n == 0 then [] else FirstRuns(p, g, failure, n - 1) + Life(p, g, failure, n - 1, (n - 1) * g.cadence)
  }

  ghost predicate ClosedInFirstDay(r: Run, p: PolicyId, g: Terms, failure: Option<nat>, k: nat) {
    Day(r.slot) == 0 && exists t: nat :: r == Closed(p, g, failure, k, t)
  }

  /** Every run so far is closed in the first day, and the k-th run carries the k-th mandate. */
  ghost predicate Filled(s: State, p: PolicyId, g: Terms, failure: Option<nat>) {
    && |s.mandates| == |s.runs|
    && forall k | 0 <= k < |s.runs| :: ClosedInFirstDay(s.runs[k], p, g, failure, k)
  }

  lemma {:induction false} SameWorth(runs: seq<Run>, f: Run -> int, x: int)
    requires forall i | 0 <= i < |runs| :: f(runs[i]) == x
    ensures SumOver(runs, f) == |runs| * x
  {
    if runs != [] {
      SameWorth(runs[..|runs| - 1], f, x);
    }
  }

  /** What the budget still counts of closed runs. */
  function Counted(g: Terms, failure: Option<nat>): nat {
    if failure.None? then g.cost else 0
  }

  lemma FilledRun(r: Run, p: PolicyId, g: Terms, failure: Option<nat>, k: nat)
    requires ClosedInFirstDay(r, p, g, failure, k)
    ensures IsOn(r, p, 0) && !IsOn(r, p, 1) && !r.state.IsActive() && r.state != Skipped
    ensures SpentBy(r) == Counted(g, failure) && ReservedBy(r) == 0
    ensures WeightOf(r, p, 0) == Counted(g, failure) && CostOf(r, p, 0) == g.cost
  {
  }

  lemma FilledFilters(s: State, p: PolicyId, g: Terms, failure: Option<nat>)
    requires Filled(s, p, g, failure)
    ensures Filter(s.runs, OnDay(p, 0)) == s.runs && Filter(s.runs, OnDay(p, 1)) == []
    ensures Filter(s.runs, IsActiveRun()) == [] && RunsOn(s.runs, p, 0) == |s.runs|
  {
    forall i | 0 <= i < |s.runs|
      ensures IsOn(s.runs[i], p, 0) && !IsOn(s.runs[i], p, 1) && !s.runs[i].state.IsActive() && s.runs[i].state != Skipped
    {
      FilledRun(s.runs[i], p, g, failure, i);
    }
    FilterAll(s.runs, OnDay(p, 0));
    FilterNone(s.runs, OnDay(p, 1));
    FilterNone(s.runs, IsActiveRun());
    FilterAll(s.runs, NotSkippedOn(p, 0));
  }

  lemma FilledSums(s: State, p: PolicyId, g: Terms, failure: Option<nat>)
    requires Filled(s, p, g, failure)
    ensures SumOver(s.runs, Spent()) == |s.runs| * Counted(g, failure) && SumOver(s.runs, Reserved()) == 0
    ensures Committed(s.runs, p, 0) == |s.runs| * Counted(g, failure) && FullCost(s.runs, p, 0) == |s.runs| * g.cost
  {
    forall i | 0 <= i < |s.runs|
      ensures SpentBy(s.runs[i]) == Counted(g, failure) && ReservedBy(s.runs[i]) == 0
      ensures WeightOf(s.runs[i], p, 0) == Counted(g, failure) && CostOf(s.runs[i], p, 0) == g.cost
    {
      FilledRun(s.runs[i], p, g, failure, i);
    }
    SameWorth(s.runs, Spent(), Counted(g, failure));
    SameWorth(s.runs, Reserved(), 0);
    SameWorth(s.runs, Weight(p, 0), Counted(g, failure));
    SameWorth(s.runs, Cost(p, 0), g.cost);
  }

  /** The caps have room for one more run, on the day of the instant. */
  predicate Room(n: nat, g: Terms, failure: Option<nat>, day: int) {
    && g.cost <= g.perRun && g.cost <= g.daily && g.maxRuns >= 1
    && (day == 0 ==> n < g.maxRuns && n * Counted(g, failure) + g.cost <= g.daily)
  }

  lemma RoomForOneMore(s: State, p: PolicyId, g: Terms, failure: Option<nat>, t: nat)
    requires Filled(s, p, g, failure) && 0 <= Day(t * SECOND) <= 1 && Room(|s.runs|, g, failure, Day(t * SECOND))
    ensures NewRun(s.runs, Ask(p, g, t)) == Run(p, 0, Slot(t * SECOND, g.cadence), Scheduled, g.cost, 0, None, None, None)
  {
    FilledFilters(s, p, g, failure);
    FilledSums(s, p, g, failure);
    assert EffectiveLimits(FullPolicy(p, g), FullAuthority(g).profile) == Limits(g.maxRuns, 1, g.perRun, g.daily);
    if Day(t * SECOND) == 1 {
      var none: seq<Run> := [];
      assert Filter(none, IsActiveRun()) == [] && SumOver(none, Spent()) == 0 && SumOver(none, Reserved()) == 0;
    }
  }

  /** The slot of the second t is new and due. */
  ghost predicate Fresh(s: State, p: PolicyId, g: Terms, t: nat) {
    && (p in s.nextRunAt ==> s.nextRunAt[p] <= t * SECOND)
    && forall k | 0 <= k < |s.runs| :: s.runs[k].slot != Slot(t * SECOND, g.cadence)
  }

  /** The state with the new run at one point of its life. */
  predicate IsWith(s': State, s: State, p: PolicyId, g: Terms, t: nat, run: Run, mandates: nat) {
    && s'.runs == s.runs + [run] && |s'.mandates| == mandates
    && s'.nextRunAt == s.nextRunAt[p := NextSlot(Slot(t * SECOND, g.cadence), g.cadence)]
  }

  /** The new run, on its way: scheduled, claimed or running, and with its mandate once it runs. */
  function Alive(p: PolicyId, g: Terms, t: nat, state: RunState, mandate: Option<MandateId>): Run {
    Run(p, 0, Slot(t * SECOND, g.cadence), state, g.cost, 0, mandate, None, None)
  }

  lemma LifeBegins(s: State, p: PolicyId, g: Terms, failure: Option<nat>, t: nat) returns (s1: State)
    requires Filled(s, p, g, failure) && Fresh(s, p, g, t)
    requires 0 <= Day(t * SECOND) <= 1 && Room(|s.runs|, g, failure, Day(t * SECOND))
    ensures Leads(s, Schedule(Ask(p, g, t)), s1)
    ensures IsWith(s1, s, p, g, t, Alive(p, g, t, Scheduled, None), |s.runs|)
  {
    var q := Ask(p, g, t);
    s1 := Apply(s, Schedule(q));
    RoomForOneMore(s, p, g, failure, t);
    forall k | 0 <= k < |s.runs| ensures !LiveOf(s.runs[k], p) && !HasKey(s.runs[k], p, 0, Slot(t * SECOND, g.cadence)) {
    }
    assert FindKey(s.runs, p, 0, Slot(t * SECOND, g.cadence)).None?;
    assert FirstLive(s.runs, p).None?;
    assert Look(s, q).Due?;
  }

  lemma LifeStarts(s: State, s1: State, p: PolicyId, g: Terms, failure: Option<nat>, t: nat) returns (s2: State, s3: State)
    requires IsWith(s1, s, p, g, t, Alive(p, g, t, Scheduled, None), |s.runs|)
    ensures Leads(s1, Claim(|s.runs|), s2) && Leads(s2, Execute(|s.runs|, Some(FullPolicy(p, g)), Smooth()), s3)
    ensures IsWith(s3, s, p, g, t, Alive(p, g, t, Running, Some(|s.runs|)), |s.runs| + 1)
  {
    var k := |s.runs|;
    s2 := ClaimStep(s1, k);
    assert s2.runs == s.runs + [Alive(p, g, t, Claimed, None)];
    s3 := StartMandate(s2, k, Smooth());
    assert s3.runs == s.runs + [Alive(p, g, t, Running, Some(k))];
  }

  lemma LifeGoesOn(s: State, s3: State, p: PolicyId, g: Terms, failure: Option<nat>, t: nat) returns (s4: State)
    requires IsWith(s3, s, p, g, t, Alive(p, g, t, Running, Some(|s.runs|)), |s.runs| + 1)
    ensures Leads(s3, Progress(failure, |s.runs|), s4)
    ensures IsWith(s4, s, p, g, t, Alive(p, g, t, Running, Some(|s.runs|)), |s.runs| + 1)
    ensures failure.None? ==> IsTicketed(s4, |s.runs|)
  {
    s4 := Apply(s3, Progress(failure, |s.runs|));
  }

  lemma OnlyOneRunOf(runs: seq<Run>, run: Run, m: MandateId)
    requires run.mandate == Some(m) && forall i | 0 <= i < |runs| :: runs[i].mandate != Some(m)
    ensures RunsOf(runs + [run], m) == [|runs|]
  {
    assert (runs + [run])[..|runs|] == runs;
    if RunsOf(runs, m) != [] {
      RunsOfSome(runs, m);
    }
  }

  lemma RunsOfSome(runs: seq<Run>, m: MandateId)
    requires RunsOf(runs, m) != []
    ensures exists i | 0 <= i < |runs| :: runs[i].mandate == Some(m)
  {
    assert runs[RunsOf(runs, m)[0]].mandate == Some(m);
  }

  lemma LifeEnds(s: State, s4: State, p: PolicyId, g: Terms, failure: Option<nat>, t: nat) returns (s5: State)
    requires Filled(s, p, g, failure) && (failure.None? ==> IsTicketed(s4, |s.runs|))
    requires IsWith(s4, s, p, g, t, Alive(p, g, t, Running, Some(|s.runs|)), |s.runs| + 1)
    ensures Leads(s4, Finalize(|s.runs|, failure, g.cost), s5)
    ensures IsWith(s5, s, p, g, t, Closed(p, g, failure, |s.runs|, t), |s.runs| + 1)
  {
    var k := |s.runs|;
    NoneHasMandate(s, p, g, failure);
    OnlyOneRunOf(s.runs, s4.runs[k], k);
    LifeIsClosed(s4, p, g, failure, k, t);
    s5 := s4.(runs := s4.runs[k := Closed(p, g, failure, k, t)]);
    assert s5.runs == s.runs + [Closed(p, g, failure, k, t)];
  }

  lemma NoneHasMandate(s: State, p: PolicyId, g: Terms, failure: Option<nat>)
    requires Filled(s, p, g, failure)
    ensures forall i | 0 <= i < |s.runs| :: s.runs[i].mandate != Some(|s.runs|)
  {
    forall i | 0 <= i < |s.runs| ensures s.runs[i].mandate != Some(|s.runs|) {
      assert ClosedInFirstDay(s.runs[i], p, g, failure, i);
    }
  }

  lemma LifeIsClosed(s: State, p: PolicyId, g: Terms, failure: Option<nat>, k: nat, t: nat)
    requires k < |s.runs| && s.runs[k] == Alive(p, g, t, Running, Some(k)) && RunsOf(s.runs, k) == [k]
    requires failure.None? ==> IsTicketed(s, k)
    ensures FinalizeStep(s, k, failure, g.cost) == s.(runs := s.runs[k := Closed(p, g, failure, k, t)])
    ensures Frugal(s, Finalize(k, failure, g.cost))
  {
    forall i | 0 <= i < |s.runs| && s.runs[i].mandate == Some(k) ensures i == k {
      assert i in RunsOf(s.runs, k);
    }
  }

  /** The history is frugal and ends in the state. */
  ghost predicate Reaches(ops: seq<Op>, s: State) {
    AllFrugal(ops) && After(ops) == s
  }

  lemma OneStepOn(ops: seq<Op>, s: State, op: Op, s': State)
    requires Reaches(ops, s) && Leads(s, op, s')
    ensures Reaches(ops + [op], s')
  {
    assert (ops + [op])[..|ops|] == ops;
  }

  /** Each operation is frugal and leads from one state to the next. */
  ghost predicate Leads(s: State, op: Op, s': State) {
    Frugal(s, op) && s' == Apply(s, op)
  }

  lemma LiveFirst(ops: seq<Op>, p: PolicyId, g: Terms, failure: Option<nat>, t: nat) returns (ops3: seq<Op>, s3: State)
    requires AllFrugal(ops) && Filled(After(ops), p, g, failure) && Fresh(After(ops), p, g, t)
    requires 0 <= Day(t * SECOND) <= 1 && Room(|After(ops).runs|, g, failure, Day(t * SECOND))
    ensures var k := |After(ops).runs|;
            && ops3 == ops + [Schedule(Ask(p, g, t))] + [Claim(k)] + [Execute(k, Some(FullPolicy(p, g)), Smooth())]
            && Reaches(ops3, s3)
            && IsWith(s3, After(ops), p, g, t, Alive(p, g, t, Running, Some(k)), k + 1)
  {
    var s, k := After(ops), |After(ops).runs|;
    var s1 := LifeBegins(s, p, g, failure, t);
    OneStepOn(ops, s, Schedule(Ask(p, g, t)), s1);
    var ops1 := ops + [Schedule(Ask(p, g, t))];
    ops3, s3 := LiveOn(ops1, s, s1, p, g, failure, t);
  }

  lemma LiveOn(ops: seq<Op>, s: State, s1: State, p: PolicyId, g: Terms, failure: Option<nat>, t: nat) returns (ops3: seq<Op>, s3: State)
    requires Reaches(ops, s1) && IsWith(s1, s, p, g, t, Alive(p, g, t, Scheduled, None), |s.runs|)
    ensures ops3 == ops + [Claim(|s.runs|)] + [Execute(|s.runs|, Some(FullPolicy(p, g)), Smooth())]
    ensures Reaches(ops3, s3) && IsWith(s3, s, p, g, t, Alive(p, g, t, Running, Some(|s.runs|)), |s.runs| + 1)
  {
    var k, s2 := |s.runs|, s1;
    s2, s3 := LifeStarts(s, s1, p, g, failure, t);
    OneStepOn(ops, s1, Claim(k), s2);
    OneStepOn(ops + [Claim(k)], s2, Execute(k, Some(FullPolicy(p, g)), Smooth()), s3);
    ops3 := ops + [Claim(k)] + [Execute(k, Some(FullPolicy(p, g)), Smooth())];
  }

  lemma LiveLast(ops: seq<Op>, s: State, s3: State, p: PolicyId, g: Terms, failure: Option<nat>, t: nat) returns (s5: State)
    requires Filled(s, p, g, failure) && Reaches(ops, s3)
    requires IsWith(s3, s, p, g, t, Alive(p, g, t, Running, Some(|s.runs|)), |s.runs| + 1)
    ensures Reaches(ops + [Progress(failure, |s.runs|)] + [Finalize(|s.runs|, failure, g.cost)], s5)
    ensures IsWith(s5, s, p, g, t, Closed(p, g, failure, |s.runs|, t), |s.runs| + 1)
  {
    var s4 := LifeGoesOn(s, s3, p, g, failure, t);
    OneStepOn(ops, s3, Progress(failure, |s.runs|), s4);
    s5 := LifeEnds(s, s4, p, g, failure, t);
    OneStepOn(ops + [Progress(failure, |s.runs|)], s4, Finalize(|s.runs|, failure, g.cost), s5);
  }

  lemma InFive(ops: seq<Op>, a: Op, b: Op, c: Op, d: Op, e: Op)
    ensures ops + [a] + [b] + [c] + [d] + [e] == ops + [a, b, c, d, e]
  {
  }

  /** One whole life, appended to a history. */
  lemma LiveOnce(ops: seq<Op>, p: PolicyId, g: Terms, failure: Option<nat>, t: nat) returns (s5: State)
    requires AllFrugal(ops) && Filled(After(ops), p, g, failure) && Fresh(After(ops), p, g, t)
    requires 0 <= Day(t * SECOND) <= 1 && Room(|After(ops).runs|, g, failure, Day(t * SECOND))
    ensures var s := After(ops);
            && Reaches(ops + Life(p, g, failure, |s.runs|, t), s5)
            && IsWith(s5, s, p, g, t, Closed(p, g, failure, |s.runs|, t), |s.runs| + 1)
  {
    var s, k := After(ops), |After(ops).runs|;
    var ops3, s3 := LiveFirst(ops, p, g, failure, t);
    s5 := LiveLast(ops3, s, s3, p, g, failure, t);
    InFive(ops, Schedule(Ask(p, g, t)), Claim(k), Execute(k, Some(FullPolicy(p, g)), Smooth()), Progress(failure, k), Finalize(k, failure, g.cost));
  }

  lemma AskMeets(p: PolicyId, g: Terms, t: nat)
    ensures Meets(Ask(p, g, t), g)
  {
  }

  lemma SteadyAppend(ops: seq<Op>, p: PolicyId, g: Terms, failure: Option<nat>, k: nat, t: nat)
    requires Steady(ops, p, g)
    ensures Steady(ops + Life(p, g, failure, k, t), p, g)
  {
    AskMeets(p, g, t);
    forall op | op in ops + Life(p, g, failure, k, t) && op.Schedule? && op.request.policy.id == p ensures Meets(op.request, g) {
      assert op in ops || op == Life(p, g, failure, k, t)[0];
    }
  }

  /** The k-th run is for the k-th multiple of the cadence, and the next one is due after the last of them. */
  ghost predicate InLine(s: State, p: PolicyId, g: Terms) {
    && (p in s.nextRunAt ==> s.nextRunAt[p] == (|s.runs| * g.cadence) * SECOND)
    && forall k | 0 <= k < |s.runs| :: s.runs[k].slot == (k * g.cadence) * SECOND
  }

  lemma SlotOfMultiple(k: nat, c: Cadence)
    ensures Slot((k * c) * SECOND, c) == (k * c) * SECOND
  {
    WholeSeconds(k * c);
    MultipleHasNoRemainder(k, c);
  }

  lemma StrictMultiple(k: int, n: int, c: Cadence)
    requires k < n
    ensures k * c < n * c
  {
    ProductMonotone(k + 1, n, c);
    assert (k + 1) * c == k * c + c;
  }

  lemma InLineIsFresh(s: State, p: PolicyId, g: Terms, t: nat)
    requires InLine(s, p, g) && t >= |s.runs| * g.cadence && t % g.cadence == 0
    ensures Fresh(s, p, g, t)
  {
    WholeSeconds(t);
    forall k | 0 <= k < |s.runs| ensures s.runs[k].slot != Slot(t * SECOND, g.cadence) {
      StrictMultiple(k, |s.runs|, g.cadence);
    }
  }

  lemma OneMoreFilled(s: State, s': State, p: PolicyId, g: Terms, failure: Option<nat>, t: nat)
    requires Filled(s, p, g, failure) && Day(Slot(t * SECOND, g.cadence)) == 0
    requires IsWith(s', s, p, g, t, Closed(p, g, failure, |s.runs|, t), |s.runs| + 1)
    ensures Filled(s', p, g, failure)
  {
    var n := |s.runs|;
    assert ClosedInFirstDay(s'.runs[n], p, g, failure, n);
    forall k | 0 <= k < n ensures ClosedInFirstDay(s'.runs[k], p, g, failure, k) {
      assert s'.runs[k] == s.runs[k];
    }
  }

  lemma NextInLine(s: State, s': State, p: PolicyId, g: Terms, failure: Option<nat>)
    requires Filled(s, p, g, failure) && InLine(s, p, g) && Day((|s.runs| * g.cadence) * SECOND) == 0
    requires IsWith(s', s, p, g, |s.runs| * g.cadence, Closed(p, g, failure, |s.runs|, |s.runs| * g.cadence), |s.runs| + 1)
    ensures Filled(s', p, g, failure) && InLine(s', p, g)
  {
    var n := |s.runs|;
    SlotOfMultiple(n, g.cadence);
    assert (n + 1) * g.cadence == n * g.cadence + g.cadence;
    OneMoreFilled(s, s', p, g, failure, n * g.cadence);
    forall k | 0 <= k <= n ensures s'.runs[k].slot == (k * g.cadence) * SECOND {
      assert k < n ==> s'.runs[k] == s.runs[k];
    }
  }

  /** The caps admit the first n runs. */
  predicate Affords(g: Terms, failure: Option<nat>, n: nat) {
    && g.cost <= g.perRun && g.cost <= g.daily && g.maxRuns >= 1
    && n <= g.maxRuns && n <= DAY_SECONDS / g.cadence && n * Counted(g, failure) <= g.daily
  }

  lemma AffordsLess(g: Terms, failure: Option<nat>, n: nat)
    requires Affords(g, failure, n) && n > 0
    ensures Affords(g, failure, n - 1) && Room(n - 1, g, failure, 0)
    ensures (n - 1) * g.cadence < DAY_SECONDS
  {
    assert (n - 1) * Counted(g, failure) + Counted(g, failure) == n * Counted(g, failure);
    StrictMultiple(n - 1, n, g.cadence);
    Quotient(DAY_SECONDS, n, g.cadence);
  }

  /** The history has closed n runs, one at each multiple of the cadence. */
  ghost predicate FillsInLine(ops: seq<Op>, p: PolicyId, g: Terms, failure: Option<nat>, n: nat) {
    && Steady(ops, p, g) && AllFrugal(ops) && |After(ops).runs| == n
    && Filled(After(ops), p, g, failure) && InLine(After(ops), p, g)
  }

  lemma OneMoreInLine(ops: seq<Op>, p: PolicyId, g: Terms, failure: Option<nat>, n: nat)
    requires FillsInLine(ops, p, g, failure, n) && Affords(g, failure, n + 1)
    ensures FillsInLine(ops + Life(p, g, failure, n, n * g.cadence), p, g, failure, n + 1)
  {
    var t := n * g.cadence;
    AffordsLess(g, failure, n + 1);
    DayOfSlot(t);
    MultipleHasNoRemainder(n, g.cadence);
    InLineIsFresh(After(ops), p, g, t);
    SteadyAppend(ops, p, g, failure, n, t);
    var s := LiveOnce(ops, p, g, failure, t);
    NextInLine(After(ops), s, p, g, failure);
  }

  lemma NothingFilled(p: PolicyId, g: Terms, failure: Option<nat>)
    ensures FillsInLine([], p, g, failure, 0)
  {
  }

  lemma {:induction false} FirstRunsFill(p: PolicyId, g: Terms, failure: Option<nat>, n: nat)
    requires Affords(g, failure, n)
    ensures FillsInLine(FirstRuns(p, g, failure, n), p, g, failure, n)
  {
    if n == 0 {
      NothingFilled(p, g, failure);
    } else {
      AffordsLess(g, failure, n);
      FirstRunsFill(p, g, failure, n - 1);
      OneMoreInLine(FirstRuns(p, g, failure, n - 1), p, g, failure, n - 1);
    }
  }

  /** The runs of a day, and then the one that is due at the start of the next day and counted in the first. */
  function FullDay(p: PolicyId, g: Terms, failure: Option<nat>, n: nat): seq<Op> {
    FirstRuns(p, g, failure, n) + Life(p, g, failure, n, DAY_SECONDS)
  }

  lemma LastSlotOfDay(c: Cadence)
    requires DAY_SECONDS % c != 0
    ensures Slot(DAY_SECONDS * SECOND, c) == (DAY_SECONDS / c * c) * SECOND && 0 <= DAY_SECONDS / c * c < DAY_SECONDS
  {
    WholeSeconds(DAY_SECONDS);
  }

  lemma LastRunIsFresh(s: State, p: PolicyId, g: Terms)
    requires InLine(s, p, g) && |s.runs| <= DAY_SECONDS / g.cadence && DAY_SECONDS % g.cadence != 0
    ensures Fresh(s, p, g, DAY_SECONDS)
  {
    var q := DAY_SECONDS / g.cadence;
    LastSlotOfDay(g.cadence);
    ProductMonotone(|s.runs|, q, g.cadence);
    forall k | 0 <= k < |s.runs| ensures s.runs[k].slot != Slot(DAY_SECONDS * SECOND, g.cadence) {
      StrictMultiple(k, q, g.cadence);
    }
  }

  ghost predicate FillsDay(ops: seq<Op>, p: PolicyId, g: Terms, failure: Option<nat>, n: nat) {
    Steady(ops, p, g) && AllFrugal(ops) && |After(ops).runs| == n && Filled(After(ops), p, g, failure)
  }

  lemma FirstRunsFillDay(p: PolicyId, g: Terms, failure: Option<nat>, n: nat)
    requires Affords(g, failure, n)
    ensures FillsDay(FirstRuns(p, g, failure, n), p, g, failure, n)
  {
    FirstRunsFill(p, g, failure, n);
  }

  lemma FullDayFills(p: PolicyId, g: Terms, failure: Option<nat>, n: nat)
    requires Affords(g, failure, n) && DAY_SECONDS % g.cadence != 0
    ensures FillsDay(FullDay(p, g, failure, n), p, g, failure, n + 1)
  {
    FirstRunsFill(p, g, failure, n);
    var before, ops := FirstRuns(p, g, failure, n), FullDay(p, g, failure, n);
    LastRunIsFresh(After(before), p, g);
    SteadyAppend(before, p, g, failure, n, DAY_SECONDS);
    var s := LiveOnce(before, p, g, failure, DAY_SECONDS);
    LastSlotOfDay(g.cadence);
    DayOfSlot(DAY_SECONDS / g.cadence * g.cadence);
    OneMoreFilled(After(before), s, p, g, failure, DAY_SECONDS);
  }

  // ---------------------------------------------------------------------------------------------------
  // Exactly when the caps hold
  // ---------------------------------------------------------------------------------------------------

  /** The runs up to the cap, and the one more that a cadence admits if it does not divide the day. */
  function Busiest(p: PolicyId, g: Terms, failure: Option<nat>): seq<Op> {
    var n := DayHolds(g.cadence, g.maxRuns);
    if DAY_SECONDS % g.cadence == 0 then FirstRuns(p, g, failure, n) else FullDay(p, g, failure, n - 1)
  }

  lemma BusiestIsAffordable(g: Terms, failure: Option<nat>)
    requires g.maxRuns >= 1 && g.cost <= g.perRun && g.cost <= g.daily
    requires DayHolds(g.cadence, g.maxRuns) * Counted(g, failure) <= g.daily
    ensures var n := DayHolds(g.cadence, g.maxRuns);
            if DAY_SECONDS % g.cadence == 0 then Affords(g, failure, n) else n >= 1 && Affords(g, failure, n - 1)
  {
    if DAY_SECONDS % g.cadence != 0 {
      var n := DayHolds(g.cadence, g.maxRuns);
      Scale(n - 1, n, Counted(g, failure));
    }
  }

  lemma BusiestFills(p: PolicyId, g: Terms, failure: Option<nat>)
    requires g.maxRuns >= 1 && g.cost <= g.perRun && g.cost <= g.daily
    requires DayHolds(g.cadence, g.maxRuns) * Counted(g, failure) <= g.daily
    ensures FillsDay(Busiest(p, g, failure), p, g, failure, DayHolds(g.cadence, g.maxRuns))
  {
    var n := DayHolds(g.cadence, g.maxRuns);
    BusiestIsAffordable(g, failure);
    if DAY_SECONDS % g.cadence == 0 {
      FirstRunsFillDay(p, g, failure, n);
    } else {
      FullDayFills(p, g, failure, n - 1);
    }
  }

  /** A day never holds more runs than DayHolds says, and some history reaches that number. */
  lemma DayHoldsExactly(p: PolicyId, c: Cadence, maxRuns: nat)
    requires maxRuns >= 1
    ensures forall ops, day | Paced(ops, p, c, maxRuns) :: RunsOn(After(ops).runs, p, day) <= DayHolds(c, maxRuns)
    ensures exists ops, day :: Paced(ops, p, c, maxRuns) && RunsOn(After(ops).runs, p, day) == DayHolds(c, maxRuns)
  {
    forall ops, day | Paced(ops, p, c, maxRuns) ensures RunsOn(After(ops).runs, p, day) <= DayHolds(c, maxRuns) {
      RunsWithinDay(ops, p, c, maxRuns, day);
    }
    var g := Terms(c, maxRuns, 0, 0, 0);
    BusiestFills(p, g, None);
    var ops := Busiest(p, g, None);
    SteadyIsPaced(ops, p, g);
    FilledFilters(After(ops), p, g, None);
    assert RunsOn(After(ops).runs, p, 0) == DayHolds(c, maxRuns);
  }

  /**
   The cap on runs is kept on every day of every history exactly if the cadence divides the day or the cap exceeds the
   whole steps that fit into it.
   */
  lemma RunCapHoldsExactly(p: PolicyId, c: Cadence, maxRuns: nat)
    requires maxRuns >= 1
    ensures (forall ops, day | Paced(ops, p, c, maxRuns) :: RunsOn(After(ops).runs, p, day) <= maxRuns)
            <==> DAY_SECONDS % c == 0 || maxRuns > DAY_SECONDS / c
  {
    DayHoldsExactly(p, c, maxRuns);
    assert DayHolds(c, maxRuns) <= maxRuns <==> DAY_SECONDS % c == 0 || maxRuns > DAY_SECONDS / c;
  }

  lemma PaidRuns(n: nat, cost: nat, daily: nat) returns (k: nat)
    requires 1 <= n && cost <= daily && n * cost > daily
    ensures k < n && k * cost <= daily && (k + 1) * cost > daily
  {
    k := daily / cost;
    Quotient(daily, k, cost);
    Quotient(daily, k + 1, cost);
    Quotient(daily, n, cost);
  }

  /** As many runs as the budget pays for, and one more. */
  lemma OverBudget(p: PolicyId, g: Terms) returns (ops: seq<Op>)
    requires g.maxRuns >= 1 && g.cost <= g.perRun && g.cost <= g.daily && DAY_SECONDS % g.cadence != 0
    requires DayHolds(g.cadence, g.maxRuns) * g.cost > g.daily
    ensures Steady(ops, p, g) && AllFrugal(ops) && Committed(After(ops).runs, p, 0) > g.daily
  {
    var k := PaidRuns(DayHolds(g.cadence, g.maxRuns), g.cost, g.daily);
    FullDayFills(p, g, None, k);
    ops := FullDay(p, g, None, k);
    FilledSums(After(ops), p, g, None);
  }

  /**
   If no run costs more than planned, what the budget counts of a day stays within it in every history exactly if the
   cadence divides the day, or a run costs more than a run or a day may, or the budget pays for all runs a day can hold.
   */
  lemma BudgetHoldsExactly(p: PolicyId, g: Terms)
    requires g.maxRuns >= 1
    ensures (forall ops, day | Steady(ops, p, g) && AllFrugal(ops) :: Committed(After(ops).runs, p, day) <= g.daily)
            <==> DAY_SECONDS % g.cadence == 0 || TooDear(g) || DayHolds(g.cadence, g.maxRuns) * g.cost <= g.daily
  {
    if DAY_SECONDS % g.cadence == 0 || TooDear(g) || DayHolds(g.cadence, g.maxRuns) * g.cost <= g.daily {
      forall ops, day | Steady(ops, p, g) && AllFrugal(ops) ensures Committed(After(ops).runs, p, day) <= g.daily {
        if TooDear(g) {
          DearRunsAreSkipped(ops, p, g);
          SkippedCostNothing(After(ops).runs, p, day);
        } else if DAY_SECONDS % g.cadence == 0 {
          DividingCadenceKeepsBudget(ops, p, g, day);
        } else {
          CostWithinDay(ops, p, g, day);
        }
      }
    } else {
      var ops := OverBudget(p, g);
      assert !(Committed(After(ops).runs, p, 0) <= g.daily);
    }
  }

  /** The busiest day all of whose runs fail at full cost: the budget counts nothing of it. */
  lemma FailedDayCosts(p: PolicyId, g: Terms, code: nat)
    requires g.maxRuns >= 1 && !TooDear(g)
    ensures var ops := Busiest(p, g, Some(code));
            && Steady(ops, p, g) && AllFrugal(ops)
            && FullCost(After(ops).runs, p, 0) == DayHolds(g.cadence, g.maxRuns) * g.cost
            && Committed(After(ops).runs, p, 0) == 0
  {
    BusiestFills(p, g, Some(code));
    FilledSums(After(Busiest(p, g, Some(code))), p, g, Some(code));
  }

  lemma FullCostKept(ops: seq<Op>, p: PolicyId, g: Terms, day: int)
    requires Steady(ops, p, g) && AllFrugal(ops) && g.maxRuns >= 1
    requires TooDear(g) || DayHolds(g.cadence, g.maxRuns) * g.cost <= g.daily
    ensures FullCost(After(ops).runs, p, day) <= g.daily
  {
    if TooDear(g) {
      DearRunsAreSkipped(ops, p, g);
      SkippedCostNothing(After(ops).runs, p, day);
    } else {
      CostWithinDay(ops, p, g, day);
    }
  }

  /**
   The failed runs counted too, a day stays within the budget in every history exactly if a run costs more than a run or a
   day may, or the budget pays for all runs a day can hold.
   */
  lemma FullCostWithinBudgetExactly(p: PolicyId, g: Terms)
    requires g.maxRuns >= 1
    ensures (forall ops, day | Steady(ops, p, g) && AllFrugal(ops) :: FullCost(After(ops).runs, p, day) <= g.daily)
            <==> TooDear(g) || DayHolds(g.cadence, g.maxRuns) * g.cost <= g.daily
  {
    if TooDear(g) || DayHolds(g.cadence, g.maxRuns) * g.cost <= g.daily {
      forall ops, day | Steady(ops, p, g) && AllFrugal(ops) ensures FullCost(After(ops).runs, p, day) <= g.daily {
        FullCostKept(ops, p, g, day);
      }
    } else {
      FailedDayCosts(p, g, 0);
      assert !(FullCost(After(Busiest(p, g, Some(0))).runs, p, 0) <= g.daily);
    }
  }
}
