/**
 The slots a policy's runs are created for (backend/app/autonomy/service.py, execution_slot and schedule_due), when the
 cadence may be changed between two runs (backend/app/api/autonomy.py, patch_policy).
 */
module SchedulerSlots {
  import opened Wrappers
  import opened Ordering
  import opened Slots
  import opened Scheduler
  import G13Policy

  ghost predicate RisingSlots(runs: seq<Run>, p: PolicyId) {
    forall i, j | 0 <= i < j < |runs| && runs[i].policy == p && runs[j].policy == p :: runs[i].slot < runs[j].slot
  }

  /** The slot of the policy's latest run. */
  function LastSlot(runs: seq<Run>, p: PolicyId): Option<Time> {
    if runs == [] then None
    else if runs[|runs| - 1].policy == p then Some(runs[|runs| - 1].slot)
    else LastSlot(runs[..|runs| - 1], p)
  }

  lemma {:induction false} LastSlotIsOne(runs: seq<Run>, p: PolicyId)
    ensures LastSlot(runs, p).None? ==> forall i | 0 <= i < |runs| :: runs[i].policy != p
    ensures LastSlot(runs, p).Some? ==> exists i | 0 <= i < |runs| :: runs[i].policy == p && runs[i].slot == LastSlot(runs, p).value
    ensures RisingSlots(runs, p) && LastSlot(runs, p).Some? ==> forall i | 0 <= i < |runs| && runs[i].policy == p :: runs[i].slot <= LastSlot(runs, p).value
  {
    if runs != [] {
      var n := |runs| - 1;
      LastSlotIsOne(runs[..n], p);
      assert forall i | 0 <= i < n :: runs[..n][i] == runs[i];
      if runs[n].policy != p && LastSlot(runs, p).Some? {
        var i :| 0 <= i < n && runs[..n][i].policy == p && runs[..n][i].slot == LastSlot(runs, p).value;
        assert runs[i].policy == p;
      }
    }
  }

  lemma {:induction false} MovesKeepLastSlot(runs: seq<Run>, runs': seq<Run>, p: PolicyId)
    requires AllMove(runs, runs') && |runs'| == |runs|
    ensures LastSlot(runs', p) == LastSlot(runs, p)
  {
    if runs != [] {
      var n := |runs| - 1;
      assert Moves(runs[n], runs'[n]);
      assert AllMove(runs[..n], runs'[..n]) by {
        assert forall i | 0 <= i < n :: Moves(runs[i], runs'[i]);
      }
      MovesKeepLastSlot(runs[..n], runs'[..n], p);
    }
  }

  /** The latest run is for the slot s, in seconds, and was created at cadence c: the next one is due a cadence later. */
  ghost predicate LatestAt(s: State, p: PolicyId, slot: int, c: Cadence) {
    LastSlot(s.runs, p) == Some(slot * SECOND) && p in s.nextRunAt && s.nextRunAt[p] == (slot + c) * SECOND
  }

  ghost predicate DueIsKept(s: State, p: PolicyId) {
    LastSlot(s.runs, p).Some? ==> exists slot: int, c: Cadence :: LatestAt(s, p, slot, c)
  }

  lemma MovesKeepDue(s: State, s': State, p: PolicyId)
    requires DueIsKept(s, p) && AllMove(s.runs, s'.runs) && |s'.runs| == |s.runs| && s'.nextRunAt == s.nextRunAt
    ensures DueIsKept(s', p)
  {
    MovesKeepLastSlot(s.runs, s'.runs, p);
    if slot: int, c: Cadence :| LatestAt(s, p, slot, c) {
      assert LatestAt(s', p, slot, c);
    }
  }

  lemma ScheduleSetsDue(s: State, q: Request, p: PolicyId)
    requires DueIsKept(s, p)
    ensures DueIsKept(ScheduleStep(s, q).0, p)
    ensures Look(s, q).Due? && q.policy.id == p ==>
              var c := EffectiveCadence(q.policy, q.authority.profile); LatestAt(ScheduleStep(s, q).0, p, SlotSeconds(q.instant, c), c)
  {
    if Look(s, q).Due? {
      var s', c := ScheduleStep(s, q).0, EffectiveCadence(q.policy, q.authority.profile);
      assert s'.runs[..|s'.runs| - 1] == s.runs;
      if q.policy.id == p {
        assert LatestAt(s', p, SlotSeconds(q.instant, c), c);
      } else if slot: int, d: Cadence :| LatestAt(s, p, slot, d) {
        assert LatestAt(s', p, slot, d);
      }
    }
  }

  lemma StepKeepsDue(s: State, op: Op, p: PolicyId)
    requires DueIsKept(s, p)
    ensures DueIsKept(Apply(s, op), p)
  {
    if op.Schedule? {
      ScheduleSetsDue(s, op.request, p);
    } else {
      StepMoves(s, op);
      MovesKeepDue(s, Apply(s, op), p);
    }
  }

  lemma {:induction false} DueIsAlwaysKept(ops: seq<Op>, p: PolicyId)
    ensures DueIsKept(After(ops), p)
  {
    if ops != [] {
      DueIsAlwaysKept(ops[..|ops| - 1], p);
      StepKeepsDue(After(ops[..|ops| - 1]), ops[|ops| - 1], p);
    }
  }

  // ---------------------------------------------------------------------------------------------------
  // When the next run goes forward
  // ---------------------------------------------------------------------------------------------------

  /** If the request creates a run, then for a slot after that of the policy's latest one. */
  ghost predicate GoesForward(s: State, q: Request) {
    Look(s, q).Due? && LastSlot(s.runs, q.policy.id).Some? ==>
      LastSlot(s.runs, q.policy.id).value < Slot(q.instant, EffectiveCadence(q.policy, q.authority.profile))
  }

  predicate AsksFor(q: Request, p: PolicyId, version: nat, d: Cadence) {
    q.policy.id == p && q.policy.version == version && EffectiveCadence(q.policy, q.authority.profile) == d
  }

  /** A request that nothing but an existing run or a later due time can keep from creating a run. */
  function PlainRequest(p: PolicyId, version: nat, d: Cadence, instant: Time): Request {
    Request(Policy(p, version, TelegraphErc8183, true, true, d, 1, 1, 0, 0, false, false),
            Authority(None, None, false, false, false, false, None), instant, true)
  }

  lemma PlainRequestIsDue(s: State, p: PolicyId, version: nat, d: Cadence, instant: Time)
    requires FindKey(s.runs, p, version, Slot(instant, d)).None? && (p in s.nextRunAt ==> s.nextRunAt[p] <= instant)
    ensures AsksFor(PlainRequest(p, version, d, instant), p, version, d)
    ensures Look(s, PlainRequest(p, version, d, instant)).Due?
  {
  }

  /**
   After a run for slot s at cadence c, every next run at cadence d is for a later slot exactly when the new grid does not
   reach back over the old step, or when the slot that is due has its run already.
   */
  lemma NextRunGoesForwardExactly(s: State, p: PolicyId, version: nat, slot: int, c: Cadence, d: Cadence)
    requires LatestAt(s, p, slot, c)
    ensures (forall q | AsksFor(q, p, version, d) :: GoesForward(s, q))
            <==> (slot + c) % d < c || FindKey(s.runs, p, version, Slot(s.nextRunAt[p], d)).Some?
  {
    var due := s.nextRunAt[p];
    SlotsRiseExactly(slot, c, d);
    if (slot + c) % d < c || FindKey(s.runs, p, version, Slot(due, d)).Some? {
      forall q | AsksFor(q, p, version, d) ensures GoesForward(s, q) {
        DueRunGoesForward(s, q, slot, c, d);
      }
    } else {
      PlainRequestIsDue(s, p, version, d, due);
      WholeSeconds(slot + c);
      var q := PlainRequest(p, version, d, due);
      assert !GoesForward(s, q);
      assert AsksFor(q, p, version, d);
    }
  }

  lemma DueRunGoesForward(s: State, q: Request, slot: int, c: Cadence, d: Cadence)
    requires LatestAt(s, q.policy.id, slot, c) && AsksFor(q, q.policy.id, q.policy.version, d)
    requires (slot + c) % d < c || FindKey(s.runs, q.policy.id, q.policy.version, Slot(s.nextRunAt[q.policy.id], d)).Some?
    ensures GoesForward(s, q)
  {
    if Look(s, q).Due? {
      var due := s.nextRunAt[q.policy.id];
      assert due == NextSlot(slot * SECOND, c);
      if (slot + c) % d < c {
        SlotsRiseExactly(slot, c, d);
      } else {
        LaterSlots(due, q.instant, d);
      }
    }
  }

  // ---------------------------------------------------------------------------------------------------
  // Whole histories
  // ---------------------------------------------------------------------------------------------------

  /** The grid of the request's cadence does not reach back over the step after the latest slot. */
  ghost predicate GridsFit(s: State, q: Request) {
    forall slot: int, c: Cadence | LatestAt(s, q.policy.id, slot, c) :: (slot + c) % EffectiveCadence(q.policy, q.authority.profile) < c
  }

  ghost predicate AllGridsFit(ops: seq<Op>, p: PolicyId) {
    ops != [] ==>
      var before, op := ops[..|ops| - 1], ops[|ops| - 1];
      && AllGridsFit(before, p)
      && (op.Schedule? && op.request.policy.id == p && Look(After(before), op.request).Due? ==> GridsFit(After(before), op.request))
  }

  lemma MovesKeepRising(runs: seq<Run>, runs': seq<Run>, p: PolicyId)
    requires RisingSlots(runs, p) && AllMove(runs, runs') && |runs'| == |runs|
    ensures RisingSlots(runs', p)
  {
    forall i | 0 <= i < |runs| ensures runs'[i].policy == runs[i].policy && runs'[i].slot == runs[i].slot {
      assert Moves(runs[i], runs'[i]);
    }
  }

  lemma ForwardKeepsRising(s: State, q: Request, p: PolicyId)
    requires RisingSlots(s.runs, p) && DueIsKept(s, p)
    requires q.policy.id == p && Look(s, q).Due? ==> GridsFit(s, q)
    ensures RisingSlots(ScheduleStep(s, q).0.runs, p)
  {
    LastSlotIsOne(s.runs, p);
    if q.policy.id == p && Look(s, q).Due? && LastSlot(s.runs, p).Some? {
      var slot: int, c: Cadence :| LatestAt(s, p, slot, c);
      DueRunGoesForward(s, q, slot, c, EffectiveCadence(q.policy, q.authority.profile));
      assert GoesForward(s, q);
    }
  }

  /** However the cadence changes, the runs of a policy are created for strictly increasing slots if every change fits. */
  lemma {:induction false} CreatedSlotsRise(ops: seq<Op>, p: PolicyId)
    requires AllGridsFit(ops, p)
    ensures RisingSlots(After(ops).runs, p)
  {
    if ops != [] {
      var before, op := ops[..|ops| - 1], ops[|ops| - 1];
      CreatedSlotsRise(before, p);
      if op.Schedule? {
        DueIsAlwaysKept(before, p);
        ForwardKeepsRising(After(before), op.request, p);
      } else {
        StepMoves(After(before), op);
        MovesKeepRising(After(before).runs, After(ops).runs, p);
      }
    }
  }

  ghost predicate SameCadence(ops: seq<Op>, p: PolicyId, c: Cadence) {
    forall op | op in ops && op.Schedule? && op.request.policy.id == p ::
      EffectiveCadence(op.request.policy, op.request.authority.profile) == c
  }

  /** Every slot of the policy lies on the grid of the cadence. */
  ghost predicate OnGrid(runs: seq<Run>, p: PolicyId, c: Cadence) {
    forall i | 0 <= i < |runs| && runs[i].policy == p :: exists j: int :: runs[i].slot == (j * c) * SECOND
  }

  lemma MovesKeepGrid(runs: seq<Run>, runs': seq<Run>, p: PolicyId, c: Cadence)
    requires OnGrid(runs, p, c) && AllMove(runs, runs') && |runs'| == |runs|
    ensures OnGrid(runs', p, c)
  {
    forall i | 0 <= i < |runs| && runs'[i].policy == p ensures exists j: int :: runs'[i].slot == (j * c) * SECOND {
      assert Moves(runs[i], runs'[i]);
    }
  }

  lemma SlotOnGrid(t: Time, c: Cadence)
    ensures Slot(t, c) == (Seconds(t) / c * c) * SECOND
  {
  }

  lemma ScheduleKeepsGrid(s: State, q: Request, p: PolicyId, c: Cadence)
    requires OnGrid(s.runs, p, c) && (q.policy.id == p ==> EffectiveCadence(q.policy, q.authority.profile) == c)
    ensures OnGrid(ScheduleStep(s, q).0.runs, p, c)
  {
    SlotOnGrid(q.instant, c);
  }

  lemma {:induction false} SlotsStayOnGrid(ops: seq<Op>, p: PolicyId, c: Cadence)
    requires SameCadence(ops, p, c)
    ensures OnGrid(After(ops).runs, p, c)
  {
    if ops != [] {
      var before, op := ops[..|ops| - 1], ops[|ops| - 1];
      assert op in ops;
      SlotsStayOnGrid(before, p, c);
      if op.Schedule? {
        ScheduleKeepsGrid(After(before), op.request, p, c);
      } else {
        StepMoves(After(before), op);
        MovesKeepGrid(After(before).runs, After(ops).runs, p, c);
      }
    }
  }

  /** The next run is always due one step of the fixed cadence after the latest slot. */
  ghost predicate DueAStepLater(s: State, p: PolicyId, c: Cadence) {
    LastSlot(s.runs, p).Some? ==> exists slot: int :: LatestAt(s, p, slot, c) && slot % c == 0
  }

  lemma StepKeepsDueAStepLater(s: State, op: Op, p: PolicyId, c: Cadence)
    requires DueAStepLater(s, p, c)
    requires op.Schedule? && op.request.policy.id == p ==> EffectiveCadence(op.request.policy, op.request.authority.profile) == c
    ensures DueAStepLater(Apply(s, op), p, c)
  {
    if op.Schedule? {
      ScheduleKeepsDueAStepLater(s, op.request, p, c);
    } else {
      StepMoves(s, op);
      MovesKeepDueAStepLater(s, Apply(s, op), p, c);
    }
  }

  lemma ScheduleKeepsDueAStepLater(s: State, q: Request, p: PolicyId, c: Cadence)
    requires DueAStepLater(s, p, c) && (q.policy.id == p ==> EffectiveCadence(q.policy, q.authority.profile) == c)
    ensures DueAStepLater(ScheduleStep(s, q).0, p, c)
  {
    var s' := ScheduleStep(s, q).0;
    ScheduleSetsDue(s, q, p);
    SlotIsMultiple(q.instant, c);
    if Look(s, q).Due? && q.policy.id != p {
      assert s'.runs[..|s'.runs| - 1] == s.runs;
      if slot: int :| LatestAt(s, p, slot, c) && slot % c == 0 {
        assert LatestAt(s', p, slot, c);
      }
    }
  }

  lemma MovesKeepDueAStepLater(s: State, s': State, p: PolicyId, c: Cadence)
    requires DueAStepLater(s, p, c) && AllMove(s.runs, s'.runs) && |s'.runs| == |s.runs| && s'.nextRunAt == s.nextRunAt
    ensures DueAStepLater(s', p, c)
  {
    MovesKeepLastSlot(s.runs, s'.runs, p);
    if slot: int :| LatestAt(s, p, slot, c) && slot % c == 0 {
      assert LatestAt(s', p, slot, c);
    }
  }

  lemma StepFits(s: State, q: Request, p: PolicyId, c: Cadence)
    requires DueAStepLater(s, p, c) && q.policy.id == p && EffectiveCadence(q.policy, q.authority.profile) == c
    ensures GridsFit(s, q)
  {
    forall slot: int, d: Cadence | LatestAt(s, p, slot, d) ensures (slot + d) % c < d {
      var same: int :| LatestAt(s, p, same, c) && same % c == 0;
      assert same == slot && d == c;
      NextMultiple(slot, c);
    }
  }

  lemma {:induction false} FixedCadence(ops: seq<Op>, p: PolicyId, c: Cadence)
    requires SameCadence(ops, p, c)
    ensures DueAStepLater(After(ops), p, c) && AllGridsFit(ops, p)
  {
    if ops != [] {
      var before, op := ops[..|ops| - 1], ops[|ops| - 1];
      assert op in ops;
      FixedCadence(before, p, c);
      StepKeepsDueAStepLater(After(before), op, p, c);
      if op.Schedule? && op.request.policy.id == p {
        StepFits(After(before), op.request, p, c);
      }
    }
  }

  /** With an unchanged cadence slots strictly rise. */
  lemma UnchangedCadenceRises(ops: seq<Op>, p: PolicyId, c: Cadence)
    requires SameCadence(ops, p, c)
    ensures RisingSlots(After(ops).runs, p)
  {
    FixedCadence(ops, p, c);
    CreatedSlotsRise(ops, p);
  }

  // ---------------------------------------------------------------------------------------------------
  // A cadence patched from 900 to 3600 seconds
  // ---------------------------------------------------------------------------------------------------

  function PatchedHistory(): seq<Op> {
    [Schedule(PlainRequest(0, 0, 900, 900 * SECOND)), Schedule(PlainRequest(0, 0, 3600, 1800 * SECOND))]
  }

  lemma PatchedTimes()
    ensures Slot(900 * SECOND, 900) == 900 * SECOND && Slot(1800 * SECOND, 3600) == 0
  {
  }

  lemma FirstPatchedRun()
    ensures var s := Apply(EMPTY, PatchedHistory()[0]);
            |s.runs| == 1 && s.runs[0].policy == 0 && s.runs[0].slot == 900 * SECOND && s.nextRunAt == map[0 := 1800 * SECOND]
  {
    PatchedTimes();
    PlainRequestIsDue(EMPTY, 0, 0, 900, 900 * SECOND);
    assert EMPTY.nextRunAt[0 := 1800 * SECOND] == map[0 := 1800 * SECOND];
  }

  /** The second run, due at 1800 seconds, is for slot 0: it comes after the first one and lies before it. */
  lemma PatchedCadenceFallsBack()
    ensures var runs := After(PatchedHistory()).runs;
            |runs| == 2 && runs[0].slot == 900 * SECOND && runs[1].slot == 0 && !RisingSlots(runs, 0)
  {
    var ops := PatchedHistory();
    FirstPatchedRun();
    PatchedTimes();
    assert After([]) == EMPTY;
    AfterAppend([], ops[0]);
    AfterAppend([ops[0]], ops[1]);
    assert [] + [ops[0]] == [ops[0]] && [ops[0]] + [ops[1]] == ops;
    var s := Apply(EMPTY, ops[0]);
    PlainRequestIsDue(s, 0, 0, 3600, 1800 * SECOND);
    var runs := Apply(s, ops[1]).runs;
    assert runs[0].slot > runs[1].slot && runs[1].policy == 0;
  }
}
