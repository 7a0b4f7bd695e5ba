/**
 The evaluation of the binding recent trajectory (backend/app/authority/runtime.py, evaluate_current_g13): the recovery
 cutoff, the grouping by causal run, the exclusion of governance denials, and the window of sixteen executions.

 The stream is given in its canonical order. The observer numbers it and emits one record per artifact, so the policy
 input built from a window of it carries no integrity violation (G13Policy.EmittedStreamsPass).
 */
module G13Runtime {
  import opened Wrappers
  import opened Ordering
  import opened G13Policy

  const WINDOW_SIZE := 16

  const EXPECTED_MISSING: set<Missing> :=
    {EvidenceNotPresent, EvaluationNotPresent, DecisionNotPresent, LatencyNotAvailable, TicketNotPresent}

  datatype RecoveryEvent = RecoveryEvent(id: SourceId, at: Time, payload: Recovery)

  datatype EventKind = ProbeStarted | TelegraphRequest(probeAuthorized: bool) | OtherKind

  datatype UsageEvent = UsageEvent(agent: AgentId, at: Time, kind: EventKind)

  /** The agent's policy binding and the recovery it leads to, if any. */
  datatype Binding =
    | Unbound
    | UnsupportedVersion
    | Bound(version: Version, recovery: Option<RecoveryEvent>)

  datatype Current = BindingMissing | BindingUnsupported | Evaluated(evaluation: Evaluation)

  // ---------------------------------------------------------------------------------------------------
  // The window
  // ---------------------------------------------------------------------------------------------------

  function NotSkipped(): Observation -> bool {
    (o: Observation) => !o.facts.runSkipped
  }

  predicate HasTrajectory(os: seq<Observation>) {
    exists o | o in os :: o.source != IdentityAnchor
  }

  /** After the recovery, and not the recovery event itself. */
  function Since(r: RecoveryEvent): Observation -> bool {
    (o: Observation) => o.observedAt.Some? && o.observedAt.value > r.at && o.sourceId != r.id
  }

  function Cut(stream: seq<Observation>, recovery: Option<RecoveryEvent>): seq<Observation> {
    var acting := Filter(stream, NotSkipped());
    if recovery.None? then acting else Filter(acting, Since(recovery.value))
  }

  /** The identity anchor alone is no trajectory. */
  function Considered(stream: seq<Observation>, recovery: Option<RecoveryEvent>): seq<Observation> {
    if HasTrajectory(Filter(stream, NotSkipped())) then Cut(stream, recovery) else []
  }

  /** The executions in the order of their first projection. */
  function FirstUnits(os: seq<Observation>): seq<UnitId> {
    if os == [] then []
    else
      var n := |os| - 1;
      var earlier := FirstUnits(os[..n]);
      if UnitOf(os[n]) in earlier then earlier else earlier + [UnitOf(os[n])]
  }

  function IsOf(u: UnitId): Observation -> bool {
    (o: Observation) => UnitOf(o) == u
  }

  predicate OnlyRequested(o: Observation) {
    o.facts.statuses <= {NotExecuted, Requested}
  }

  /** A call was refused and nothing went beyond a request. */
  predicate NeverExecuted(items: seq<Observation>) {
    (exists o | o in items :: NotExecuted in o.facts.statuses) && forall o | o in items :: OnlyRequested(o)
  }

  /** A governance denial: a denial code, no execution, and no local decision. */
  predicate IsDenial(o: Observation) {
    CodeIn(o.facts, DENIAL_CODES) && OnlyRequested(o) && o.facts.decision != Some(Permit) && o.facts.decision != Some(Block)
  }

  predicate OnlyDenials(items: seq<Observation>) {
    forall o | o in items :: IsDenial(o)
  }

  function IsSignificant(os: seq<Observation>): UnitId -> bool {
    (u: UnitId) => !NeverExecuted(Filter(os, IsOf(u))) && !OnlyDenials(Filter(os, IsOf(u)))
  }

  function Significant(os: seq<Observation>): seq<UnitId> {
    Filter(FirstUnits(os), IsSignificant(os))
  }

  function LastUnits(us: seq<UnitId>): seq<UnitId> {
    if |us| <= WINDOW_SIZE then us else us[|us| - WINDOW_SIZE..]
  }

  function InUnits(us: seq<UnitId>): Observation -> bool {
    (o: Observation) => UnitOf(o) in us
  }

  function Window(os: seq<Observation>): seq<Observation> {
    Filter(os, InUnits(LastUnits(Significant(os))))
  }

  predicate IsProbe(e: UsageEvent) {
    e.kind.ProbeStarted? || (e.kind.TelegraphRequest? && e.kind.probeAuthorized)
  }

  /** A probe of any agent: the lookup does not ask whose it was. */
  predicate ProbeSince(log: seq<UsageEvent>, at: Time) {
    exists e | e in log :: e.at > at && IsProbe(e)
  }

  function InputFor(window: seq<Observation>, version: Version, recovery: Option<RecoveryEvent>, log: seq<UsageEvent>): PolicyInput {
    PolicyInput(version, window, {}, EXPECTED_MISSING, if recovery.Some? then Some(recovery.value.payload) else None,
                if recovery.Some? && ProbeSince(log, recovery.value.at) then 1 else 0)
  }

  ghost function CurrentOf(stream: seq<Observation>, binding: Binding, log: seq<UsageEvent>): Current {
    match binding
    case Unbound => BindingMissing
    case UnsupportedVersion => BindingUnsupported
    case Bound(version, recovery) =>
      Evaluated(EvaluationOf(InputFor(Window(Considered(stream, recovery)), version, recovery, log)))
  }

  // ---------------------------------------------------------------------------------------------------
  // The computation
  // ---------------------------------------------------------------------------------------------------

  ghost predicate Grouped(grouped: map<UnitId, seq<Observation>>, os: seq<Observation>) {
    && (forall u :: u in grouped <==> u in FirstUnits(os))
    && (forall u | u in grouped :: grouped[u] == Filter(os, IsOf(u)))
  }

  /** The grouping loop; the keys are listed in the order of insertion. */
  method GroupByUnit(os: seq<Observation>) returns (grouped: map<UnitId, seq<Observation>>, keys: seq<UnitId>)
    ensures Grouped(grouped, os) && keys == FirstUnits(os)
  {
    grouped, keys := map[], [];
    for i := 0 to |os|
      invariant Grouped(grouped, os[..i]) && keys == FirstUnits(os[..i])
    {
      GroupStep(grouped, os[..i], os[i]);
      assert os[..i + 1] == os[..i] + [os[i]];
      var u := UnitOf(os[i]);
      if u !in grouped {
        grouped := grouped[u := []];
        keys := keys + [u];
      }
      grouped := grouped[u := grouped[u] + [os[i]]];
    }
    assert os[..|os|] == os;
  }

  lemma {:induction false} UnitsHaveObservations(os: seq<Observation>, u: UnitId)
    ensures u in FirstUnits(os) <==> Filter(os, IsOf(u)) != []
  {
    if os != [] {
      UnitsHaveObservations(os[..|os| - 1], u);
    }
  }

  lemma FilterByUnit(os: seq<Observation>, o: Observation, u: UnitId)
    ensures Filter(os + [o], IsOf(u)) == if UnitOf(o) == u then Filter(os, IsOf(u)) + [o] else Filter(os, IsOf(u))
  {
    FilterLast(os, o, IsOf(u));
  }

  lemma FirstUnitsStep(os: seq<Observation>, o: Observation)
    ensures FirstUnits(os + [o]) == if UnitOf(o) in FirstUnits(os) then FirstUnits(os) else FirstUnits(os) + [UnitOf(o)]
  {
    assert (os + [o])[..|os|] == os;
  }

  lemma GroupStep(grouped: map<UnitId, seq<Observation>>, os: seq<Observation>, o: Observation)
    requires Grouped(grouped, os)
    ensures var u := UnitOf(o);
            && Grouped(grouped[u := (if u in grouped then grouped[u] else []) + [o]], os + [o])
            && FirstUnits(os + [o]) == if u in grouped then FirstUnits(os) else FirstUnits(os) + [u]
  {
    var u := UnitOf(o);
    var after := grouped[u := (if u in grouped then grouped[u] else []) + [o]];
    FirstUnitsStep(os, o);
    forall v | v in after ensures after[v] == Filter(os + [o], IsOf(v)) {
      GroupOf(grouped, os, o, v);
    }
  }

  lemma GroupOf(grouped: map<UnitId, seq<Observation>>, os: seq<Observation>, o: Observation, v: UnitId)
    requires Grouped(grouped, os) && (v == UnitOf(o) || v in grouped)
    ensures Filter(os + [o], IsOf(v)) == (if v in grouped then grouped[v] else []) + (if v == UnitOf(o) then [o] else [])
  {
    FilterByUnit(os, o, v);
    UnitsHaveObservations(os, v);
  }

  /** The loop that passes over executions that were refused before anything ran. */
  method FindSignificant(grouped: map<UnitId, seq<Observation>>, keys: seq<UnitId>, ghost os: seq<Observation>) returns (units: seq<UnitId>)
    requires Grouped(grouped, os) && keys == FirstUnits(os)
    ensures units == Filter(FirstUnits(os), RanOrPending(os))
  {
    units := [];
    for i := 0 to |keys|
      invariant units == Filter(keys[..i], RanOrPending(os))
    {
      FilterStep(keys, i, RanOrPending(os));
      assert keys[i] in FirstUnits(os);
      if !NeverExecuted(grouped[keys[i]]) {
        units := units + [keys[i]];
      }
    }
    assert keys[..|keys|] == keys;
  }

  function RanOrPending(os: seq<Observation>): UnitId -> bool {
    (u: UnitId) => !NeverExecuted(Filter(os, IsOf(u)))
  }

  function NotIn(dropped: set<UnitId>): Observation -> bool {
    (o: Observation) => UnitOf(o) !in dropped
  }

  ghost function DenialUnits(os: seq<Observation>, keys: seq<UnitId>): set<UnitId> {
    set u | u in keys && OnlyDenials(Filter(os, IsOf(u)))
  }

  /** The loop that removes executions consisting of denials only, from the groups and from the observations. */
  method DropDenials(grouped: map<UnitId, seq<Observation>>, keys: seq<UnitId>, os: seq<Observation>)
    returns (kept: map<UnitId, seq<Observation>>, rest: seq<Observation>)
    requires Grouped(grouped, os) && keys == FirstUnits(os)
    ensures forall u :: u in kept <==> u in FirstUnits(os) && !OnlyDenials(Filter(os, IsOf(u)))
    ensures rest == Filter(os, NotIn(DenialUnits(os, keys)))
  {
    kept, rest := grouped, os;
    ghost var dropped: set<UnitId> := {};
    FilterAll(os, NotIn(dropped));
    for i := 0 to |keys|
      invariant dropped == DenialUnits(os, keys[..i])
      invariant kept.Keys == grouped.Keys - dropped && rest == Filter(os, NotIn(dropped))
    {
      var u := keys[i];
      assert u in keys;
      DenialUnitsStep(os, keys, i);
      if OnlyDenials(grouped[u]) {
        DropOne(os, dropped, u);
        dropped := dropped + {u};
        kept := kept - {u};
        rest := Filter(rest, NotIn({u}));
      }
    }
    assert keys[..|keys|] == keys;
  }

  lemma DenialUnitsStep(os: seq<Observation>, keys: seq<UnitId>, i: nat)
    requires i < |keys|
    ensures DenialUnits(os, keys[..i + 1])
         == DenialUnits(os, keys[..i]) + if OnlyDenials(Filter(os, IsOf(keys[i]))) then {keys[i]} else {}
  {
    assert keys[..i + 1] == keys[..i] + [keys[i]];
  }

  lemma {:induction false} DropOne(os: seq<Observation>, dropped: set<UnitId>, u: UnitId)
    ensures Filter(Filter(os, NotIn(dropped)), NotIn({u})) == Filter(os, NotIn(dropped + {u}))
  {
    FilterWithin(os, NotIn(dropped + {u}), NotIn(dropped));
    FilterMembers(os, NotIn(dropped));
    FilterAgree(Filter(os, NotIn(dropped)), NotIn({u}), NotIn(dropped + {u}));
  }

  /** Selecting the last significant executions, after the denials are dropped, gives the window. */
  method SelectWindow(os: seq<Observation>) returns (window: seq<Observation>)
    ensures window == Window(os)
  {
    var grouped, keys := GroupByUnit(os);
    var units := FindSignificant(grouped, keys, os);
    var kept, rest := DropDenials(grouped, keys, os);
    var significant := Filter(units, (u: UnitId) => u in kept);
    SignificantInTwoSteps(os, units, kept.Keys);
    FilterAgree(units, (u: UnitId) => u in kept, (u: UnitId) => u in kept.Keys);
    window := Filter(rest, InUnits(LastUnits(significant)));
    WindowIgnoresDropped(os, DenialUnits(os, keys));
  }

  lemma SignificantInTwoSteps(os: seq<Observation>, units: seq<UnitId>, kept: set<UnitId>)
    requires units == Filter(FirstUnits(os), RanOrPending(os))
    requires forall u :: u in kept <==> u in FirstUnits(os) && !OnlyDenials(Filter(os, IsOf(u)))
    ensures Filter(units, (u: UnitId) => u in kept) == Significant(os)
  {
    FilterMembers(FirstUnits(os), RanOrPending(os));
    FilterAgree(units, (u: UnitId) => u in kept, IsSignificant(os));
    FilterWithin(FirstUnits(os), IsSignificant(os), RanOrPending(os));
  }

  lemma LastUnitsWithin(us: seq<UnitId>, u: UnitId)
    requires u in LastUnits(us)
    ensures u in us
  {
  }

  lemma WindowIgnoresDropped(os: seq<Observation>, dropped: set<UnitId>)
    requires forall u | u in dropped :: OnlyDenials(Filter(os, IsOf(u)))
    ensures Filter(Filter(os, NotIn(dropped)), InUnits(LastUnits(Significant(os)))) == Window(os)
  {
    FilterMembers(FirstUnits(os), IsSignificant(os));
    forall o | o in os && InUnits(LastUnits(Significant(os)))(o) ensures NotIn(dropped)(o) {
      LastUnitsWithin(Significant(os), UnitOf(o));
    }
    FilterWithin(os, InUnits(LastUnits(Significant(os))), NotIn(dropped));
  }

  method EvaluateCurrentG13(stream: seq<Observation>, binding: Binding, log: seq<UsageEvent>) returns (current: Current)
    ensures current == CurrentOf(stream, binding, log)
  {
    if binding.Unbound? {
      return BindingMissing;
    }
    if binding.UnsupportedVersion? {
      return BindingUnsupported;
    }
    var observations := Filter(stream, NotSkipped());
    if !HasTrajectory(observations) {
      observations := [];
    }
    if binding.recovery.Some? {
      observations := Filter(observations, Since(binding.recovery.value));
    }
    assert observations == Considered(stream, binding.recovery);
    var window := SelectWindow(observations);
    var evaluation := EvaluatePolicy(InputFor(window, binding.version, binding.recovery, log));
    return Evaluated(evaluation);
  }

  // ---------------------------------------------------------------------------------------------------
  // The policy does not feed on its own denials
  // ---------------------------------------------------------------------------------------------------

  /** The stream without some executions. */
  function Without(os: seq<Observation>, dropped: set<UnitId>): seq<Observation> {
    Filter(os, NotIn(dropped))
  }

  function NotAmong(dropped: set<UnitId>): UnitId -> bool {
    (u: UnitId) => u !in dropped
  }

  ghost predicate DenialsOnly(os: seq<Observation>, units: set<UnitId>) {
    forall o | o in os && UnitOf(o) in units :: IsDenial(o)
  }

  lemma {:induction false} FirstUnitsOfFiltered(os: seq<Observation>, dropped: set<UnitId>)
    ensures FirstUnits(Without(os, dropped)) == Filter(FirstUnits(os), NotAmong(dropped))
  {
    if os != [] {
      var n := |os| - 1;
      FirstUnitsOfFiltered(os[..n], dropped);
      FilterMembers(FirstUnits(os[..n]), NotAmong(dropped));
      if UnitOf(os[n]) !in FirstUnits(os[..n]) {
        FilterLast(FirstUnits(os[..n]), UnitOf(os[n]), NotAmong(dropped));
      }
    }
  }

  lemma KeptGroups(os: seq<Observation>, dropped: set<UnitId>, u: UnitId)
    requires u !in dropped
    ensures Filter(Without(os, dropped), IsOf(u)) == Filter(os, IsOf(u))
  {
    FilterWithin(os, IsOf(u), NotIn(dropped));
  }

  lemma {:induction false} DroppedGroupsAreDenials(os: seq<Observation>, dropped: set<UnitId>, u: UnitId)
    requires DenialsOnly(os, dropped) && u in dropped
    ensures OnlyDenials(Filter(os, IsOf(u)))
  {
    FilterMembers(os, IsOf(u));
  }

  lemma SignificantWithout(os: seq<Observation>, dropped: set<UnitId>)
    requires DenialsOnly(os, dropped)
    ensures Significant(Without(os, dropped)) == Significant(os)
  {
    var units := FirstUnits(os);
    FirstUnitsOfFiltered(os, dropped);
    forall u | u in units && IsSignificant(os)(u) ensures NotAmong(dropped)(u) {
      if u in dropped {
        DroppedGroupsAreDenials(os, dropped, u);
      }
    }
    FilterWithin(units, IsSignificant(os), NotAmong(dropped));
    FilterMembers(units, NotAmong(dropped));
    forall u | u in Filter(units, NotAmong(dropped)) ensures IsSignificant(Without(os, dropped))(u) <==> IsSignificant(os)(u) {
      KeptGroups(os, dropped, u);
    }
    FilterAgree(Filter(units, NotAmong(dropped)), IsSignificant(Without(os, dropped)), IsSignificant(os));
  }

  lemma WindowWithout(os: seq<Observation>, dropped: set<UnitId>)
    requires DenialsOnly(os, dropped)
    ensures Window(Without(os, dropped)) == Window(os)
  {
    SignificantWithout(os, dropped);
    forall u | u in dropped ensures OnlyDenials(Filter(os, IsOf(u))) {
      DroppedGroupsAreDenials(os, dropped, u);
    }
    WindowIgnoresDropped(os, dropped);
  }

  lemma CutWithout(stream: seq<Observation>, recovery: Option<RecoveryEvent>, dropped: set<UnitId>)
    ensures Cut(Without(stream, dropped), recovery) == Without(Cut(stream, recovery), dropped)
    ensures forall o | o in Cut(stream, recovery) :: o in stream
  {
    FilterSwap(stream, NotSkipped(), NotIn(dropped));
    FilterMembers(stream, NotSkipped());
    if recovery.Some? {
      FilterSwap(Filter(stream, NotSkipped()), Since(recovery.value), NotIn(dropped));
      FilterMembers(Filter(stream, NotSkipped()), Since(recovery.value));
    }
  }

  predicate ColdStart(stream: seq<Observation>) {
    !HasTrajectory(Filter(stream, NotSkipped()))
  }

  /**
   Executions that consist of governance denials leave the window, the counts, the rules and the result of the evaluation
   unchanged, provided something else than the identity anchor remains without them.
   */
  lemma DenialsDoNotInterfere(stream: seq<Observation>, denied: set<UnitId>, binding: Binding, log: seq<UsageEvent>)
    requires DenialsOnly(stream, denied) && !ColdStart(Without(stream, denied))
    ensures CurrentOf(Without(stream, denied), binding, log) == CurrentOf(stream, binding, log)
  {
    if binding.Bound? {
      WarmStays(stream, denied);
      CutWithout(stream, binding.recovery, denied);
      WindowWithout(Cut(stream, binding.recovery), denied);
    }
  }

  lemma WarmStays(stream: seq<Observation>, dropped: set<UnitId>)
    requires !ColdStart(Without(stream, dropped))
    ensures !ColdStart(stream)
  {
    var o :| o in Filter(Without(stream, dropped), NotSkipped()) && o.source != IdentityAnchor;
    FilterMembers(Without(stream, dropped), NotSkipped());
    FilterMembers(stream, NotIn(dropped));
    FilterMembers(stream, NotSkipped());
  }

  /** The identity anchor as the observer emits it: no run, no code, no call. */
  ghost predicate PlainAnchors(stream: seq<Observation>) {
    forall o | o in stream && o.source == IdentityAnchor :: o.facts.failureCode.None? && o.facts.statuses == {}
  }

  function IsAnchor(): Observation -> bool {
    (o: Observation) => o.source == IdentityAnchor
  }

  function Anchors(os: seq<Observation>): seq<Observation> {
    Filter(os, IsAnchor())
  }

  /**
   The window is unchanged exactly unless the stream is a cold start without the denials but not with them, and an
   anchor survives the recovery cutoff: then the denials alone bring the anchor into the window.
   */
  lemma WindowUnchangedExactly(stream: seq<Observation>, denied: set<UnitId>, recovery: Option<RecoveryEvent>)
    requires DenialsOnly(stream, denied) && PlainAnchors(stream)
    ensures Window(Considered(Without(stream, denied), recovery)) == Window(Considered(stream, recovery)) <==>
            !(ColdStart(Without(stream, denied)) && !ColdStart(stream) && Anchors(Cut(stream, recovery)) != [])
  {
    CutWithout(stream, recovery, denied);
    var cut := Cut(stream, recovery);
    WindowWithout(cut, denied);
    if ColdStart(Without(stream, denied)) {
      if !ColdStart(stream) {
        OnlyAnchorsRemain(stream, denied, recovery);
        FilterMembers(cut, IsAnchor());
        if Anchors(cut) != [] {
          AnchorIsInWindow(Anchors(cut), Anchors(cut)[0]);
        }
      }
    } else {
      WarmStays(stream, denied);
    }
  }

  lemma OnlyAnchorsRemain(stream: seq<Observation>, denied: set<UnitId>, recovery: Option<RecoveryEvent>)
    requires ColdStart(Without(stream, denied)) && DenialsOnly(stream, denied) && PlainAnchors(stream)
    ensures Without(Cut(stream, recovery), denied) == Anchors(Cut(stream, recovery))
    ensures PlainCalls(Anchors(Cut(stream, recovery)))
  {
    var cut := Cut(stream, recovery);
    CutWithout(stream, recovery, denied);
    CutIsActing(stream, recovery);
    FilterMembers(stream, NotIn(denied));
    FilterMembers(Without(stream, denied), NotSkipped());
    forall o | o in cut ensures NotIn(denied)(o) <==> IsAnchor()(o) {
      if NotIn(denied)(o) {
        assert o in Filter(Without(stream, denied), NotSkipped());
      }
    }
    FilterAgree(cut, NotIn(denied), IsAnchor());
    FilterMembers(cut, IsAnchor());
  }

  lemma CutIsActing(stream: seq<Observation>, recovery: Option<RecoveryEvent>)
    ensures forall o | o in Cut(stream, recovery) :: o in stream && NotSkipped()(o)
  {
    FilterMembers(stream, NotSkipped());
    if recovery.Some? {
      FilterMembers(Filter(stream, NotSkipped()), Since(recovery.value));
    }
  }

  lemma {:induction false} LastUnitIsSelected(us: seq<UnitId>)
    requires us != []
    ensures us[|us| - 1] in LastUnits(us)
  {
    if |us| > WINDOW_SIZE {
      assert LastUnits(us)[WINDOW_SIZE - 1] == us[|us| - 1];
    }
  }

  ghost predicate PlainCalls(os: seq<Observation>) {
    forall x | x in os :: x.facts.failureCode.None? && x.facts.statuses == {}
  }

  lemma PlainIsSignificant(os: seq<Observation>, u: UnitId)
    requires PlainCalls(os) && u in FirstUnits(os)
    ensures IsSignificant(os)(u)
  {
    UnitsHaveObservations(os, u);
    FilterMembers(os, IsOf(u));
    var items := Filter(os, IsOf(u));
    assert items[0] in items;
  }

  lemma PlainAreSignificant(os: seq<Observation>)
    requires PlainCalls(os)
    ensures Significant(os) == FirstUnits(os)
  {
    forall u | u in FirstUnits(os) ensures IsSignificant(os)(u) {
      PlainIsSignificant(os, u);
    }
    FilterAll(FirstUnits(os), IsSignificant(os));
  }

  lemma MemberOfUnit(os: seq<Observation>, u: UnitId) returns (o: Observation)
    requires u in FirstUnits(os)
    ensures o in os && UnitOf(o) == u
  {
    UnitsHaveObservations(os, u);
    FilterMembers(os, IsOf(u));
    o := Filter(os, IsOf(u))[0];
    assert o in Filter(os, IsOf(u));
  }

  /** Anchors without calls are significant, so their window is not empty. */
  lemma AnchorIsInWindow(os: seq<Observation>, o: Observation)
    requires o in os && PlainCalls(os)
    ensures Window(os) != []
  {
    PlainAreSignificant(os);
    UnitListed(os, o);
    var us := FirstUnits(os);
    LastUnitIsSelected(us);
    var x := MemberOfUnit(os, us[|us| - 1]);
    FilterMembers(os, InUnits(LastUnits(us)));
    assert x in Window(os);
  }

  lemma {:induction false} UnitListed(os: seq<Observation>, o: Observation)
    requires o in os
    ensures UnitOf(o) in FirstUnits(os)
  {
    FilterMembers(os, IsOf(UnitOf(o)));
    UnitsHaveObservations(os, UnitOf(o));
  }

  const QUIET := Facts(None, false, false, {}, None, false, [], false, false)

  lemma BlockersOf(stream: seq<Observation>, window: seq<Observation>)
    requires Window(Considered(stream, None)) == window
    ensures CurrentOf(stream, Bound(V2, None), []) == Evaluated(EvaluationOf(InputFor(window, V2, None, [])))
  {
  }

  /** A cold start with one denied run: the denial decides which rule fires, though both ask for a review. */
  lemma ColdStartMatters(anchor: Observation, denial: Observation)
    requires anchor == Observation(0, IdentityAnchor, 0, Some(0), None, QUIET, {OtherMissing(0)})
    requires denial == Observation(1, OtherSource, 1, Some(1), Some(0), QUIET.(failureCode := Some(DeniedByReview)), {})
    ensures IsDenial(denial)
    ensures CurrentOf([anchor], Bound(V2, None), []).evaluation.soleBlocker == Some(TrajectoryMissing)
    ensures CurrentOf([anchor, denial], Bound(V2, None), []).evaluation.soleBlocker == Some(CurrentCriticalObservationMissing)
  {
    AloneIsEmpty(anchor);
    DeniedLeavesAnchor(anchor, denial);
    BlockersOf([anchor], []);
    BlockersOf([anchor, denial], [anchor]);
    NoTrajectoryEvaluation();
    AnchorEvaluation(anchor);
  }

  lemma AloneIsEmpty(anchor: Observation)
    requires anchor.source == IdentityAnchor
    ensures Window(Considered([anchor], None)) == []
  {
    FilterMembers([anchor], NotSkipped());
  }

  lemma AnchorAloneIsWindow(anchor: Observation)
    requires anchor.facts.failureCode.None? && anchor.facts.statuses == {}
    ensures Window([anchor]) == [anchor]
  {
    AnchorIsInWindow([anchor], anchor);
    var units := LastUnits(Significant([anchor]));
    FilterMembers([anchor], InUnits(units));
    var w := Window([anchor]);
    assert w[0] in w;
    FilterAll([anchor], InUnits(units));
  }

  lemma DenialDropped(anchor: Observation, denial: Observation)
    requires anchor.run.None? && IsDenial(denial) && denial.run.Some?
    ensures Window([anchor] + [denial]) == Window([anchor])
  {
    var stream := [anchor] + [denial];
    var denied := {UnitOf(denial)};
    assert forall o | o in stream :: o == anchor || o == denial;
    WindowWithout(stream, denied);
    FilterLast([anchor], denial, NotIn(denied));
    FilterAll([anchor], NotIn(denied));
  }

  lemma PairIsConsidered(anchor: Observation, denial: Observation)
    requires !anchor.facts.runSkipped && !denial.facts.runSkipped && denial.source == OtherSource
    ensures Considered([anchor, denial], None) == [anchor] + [denial]
  {
    var stream := [anchor] + [denial];
    assert [anchor, denial] == stream;
    assert forall o | o in stream :: o == anchor || o == denial;
    FilterAll(stream, NotSkipped());
    assert stream[1] in stream;
  }

  lemma DeniedLeavesAnchor(anchor: Observation, denial: Observation)
    requires anchor.run.None? && anchor.facts.failureCode.None? && anchor.facts.statuses == {} && !anchor.facts.runSkipped
    requires IsDenial(denial) && denial.source == OtherSource && !denial.facts.runSkipped && denial.run.Some?
    ensures Window(Considered([anchor, denial], None)) == [anchor]
  {
    PairIsConsidered(anchor, denial);
    DenialDropped(anchor, denial);
    AnchorAloneIsWindow(anchor);
  }

  lemma NoTrajectoryEvaluation()
    ensures EvaluationOf(InputFor([], V2, None, [])).soleBlocker == Some(TrajectoryMissing)
  {
    var input := InputFor([], V2, None, []);
    assert Blocked([]) == {} && Failed([]) == {};
    assert CountsOf(input).blocks == 0 && CountsOf(input).failures == 0;
    assert TrajectoryTriggers(input) == [Trigger(TrajectoryMissing, Review)];
    assert ExternalTriggers(input) == [] && CountTriggers(CountsOf(input)) == [];
    assert Triggers(input) == [Trigger(TrajectoryMissing, Review)];
  }

  lemma AnchorEvaluation(anchor: Observation)
    requires anchor.facts == QUIET && anchor.missing == {OtherMissing(0)}
    ensures EvaluationOf(InputFor([anchor], V2, None, [])).soleBlocker == Some(CurrentCriticalObservationMissing)
  {
    var input := InputFor([anchor], V2, None, []);
    assert FlagsOf(anchor) == NO_FLAGS;
    assert Blocked([anchor]) == {} && Failed([anchor]) == {};
    assert CountsOf(input).blocks == 0 && CountsOf(input).failures == 0;
    assert OtherMissing(0) in CurrentMissing(input) - input.expectedMissing;
    assert TrajectoryTriggers(input) == [Trigger(CurrentCriticalObservationMissing, Review)];
    assert ExternalTriggers(input) == [] && CountTriggers(CountsOf(input)) == [];
    assert Triggers(input) == [Trigger(CurrentCriticalObservationMissing, Review)];
  }

  // ---------------------------------------------------------------------------------------------------
  // Recovery probes
  // ---------------------------------------------------------------------------------------------------

  /**
   Under the review recoveries a probe is single-use: once one probe event follows the recovery in the append-only log,
   no later evaluation under that recovery authorizes a probe, whatever the stream and its window have become.
   */
  lemma ProbeIsSingleUse(log: seq<UsageEvent>, later: seq<UsageEvent>, stream: seq<Observation>, version: Version, recovery: RecoveryEvent)
    requires version.IsReviewRecovery() && ProbeSince(log, recovery.at) && log <= later
    ensures var current := CurrentOf(stream, Bound(version, Some(recovery)), later);
            !current.evaluation.probeAuthorized && RecoveryCanary !in current.evaluation.triggered
  {
    var e :| e in log && e.at > recovery.at && IsProbe(e);
    assert e in later;
    var input := InputFor(Window(Considered(stream, Some(recovery))), version, Some(recovery), later);
    assert input.probeAttempts == 1 && !ProbeAuthorized(input);
    NoCanaryWithoutAuthorization(input);
  }

  lemma NoCanaryWithoutAuthorization(input: PolicyInput)
    requires !ProbeAuthorized(input)
    ensures RecoveryCanary !in EvaluationOf(input).triggered
  {
    var ts := Triggers(input);
    forall i | 0 <= i < |ts| ensures ts[i].rule != RecoveryCanary {
      assert ts[i] in ts;
      TriggersApart(input, ts[i]);
      NoCanaryElsewhere(input, ts[i]);
    }
  }

  lemma NoCanaryElsewhere(input: PolicyInput, t: Trigger)
    requires !ProbeAuthorized(input)
    requires t in TrajectoryTriggers(input) || t in ExternalTriggers(input) || t in CountTriggers(CountsOf(input))
    ensures t.rule != RecoveryCanary
  {
  }

  lemma ProbeUnitsExactly(os: seq<Observation>)
    ensures |ProbeUnits(os)| == 0 <==> NoProbe(os)
  {
    if o :| o in os && o.facts.probeEvent {
      assert UnitOf(o) in ProbeUnits(os);
    }
  }

  predicate NoProbe(os: seq<Observation>) {
    forall o | o in os :: !o.facts.probeEvent
  }

  /**
   Under the review recoveries a probe is authorized exactly if the recovery is valid, its window shows no execution and no
   probe, and no probe of any agent whatever follows the recovery in the log.
   */
  lemma ReviewProbeExactly(stream: seq<Observation>, version: Version, recovery: RecoveryEvent, log: seq<UsageEvent>)
    requires version.IsReviewRecovery()
    ensures var window := Window(Considered(stream, Some(recovery)));
            CurrentOf(stream, Bound(version, Some(recovery)), log).evaluation.probeAuthorized <==>
            ValidRecovery(recovery.payload) && NoneExecuted(window) && NoProbe(window) && !ProbeSince(log, recovery.at)
  {
    ReviewWindow(Window(Considered(stream, Some(recovery))), version, recovery, log);
  }

  lemma ReviewWindow(window: seq<Observation>, version: Version, recovery: RecoveryEvent, log: seq<UsageEvent>)
    requires version.IsReviewRecovery()
    ensures EvaluationOf(InputFor(window, version, Some(recovery), log)).probeAuthorized <==>
            ValidRecovery(recovery.payload) && NoneExecuted(window) && NoProbe(window) && !ProbeSince(log, recovery.at)
  {
    NoExecutionsExactly(window);
    ProbeUnitsExactly(window);
    ReviewInput(InputFor(window, version, Some(recovery), log));
  }

  lemma ReviewInput(input: PolicyInput)
    requires input.version.IsReviewRecovery() && input.recovery.Some?
    ensures EvaluationOf(input).probeAuthorized <==>
            && ValidRecovery(input.recovery.value) && StatsOf(input.observations).executions == 0
            && |ProbeUnits(input.observations)| == 0 && input.probeAttempts == 0
  {
  }

  /** One probe event of a foreign agent is enough: without it the probe is authorized, with it it is not. */
  lemma ForeignProbeConsumes(stream: seq<Observation>, version: Version, recovery: RecoveryEvent, foreign: UsageEvent)
    requires version.IsReviewRecovery() && ValidRecovery(recovery.payload)
    requires IsProbe(foreign) && foreign.at > recovery.at
    requires NoneExecuted(Window(Considered(stream, Some(recovery)))) && NoProbe(Window(Considered(stream, Some(recovery))))
    ensures CurrentOf(stream, Bound(version, Some(recovery)), []).evaluation.probeAuthorized
    ensures !CurrentOf(stream, Bound(version, Some(recovery)), [foreign]).evaluation.probeAuthorized
  {
    ReviewProbeExactly(stream, version, recovery, []);
    ReviewProbeExactly(stream, version, recovery, [foreign]);
    assert foreign in [foreign];
  }

  /** The agent of an event plays no part: relabelling the log changes no evaluation. */
  lemma AgentOfProbeIsIgnored(stream: seq<Observation>, binding: Binding, log: seq<UsageEvent>, other: seq<UsageEvent>)
    requires |other| == |log| && forall i | 0 <= i < |log| :: other[i].at == log[i].at && other[i].kind == log[i].kind
    ensures CurrentOf(stream, binding, other) == CurrentOf(stream, binding, log)
  {
    if binding.Bound? && binding.recovery.Some? {
      SameProbes(log, other, binding.recovery.value.at);
      SameProbes(other, log, binding.recovery.value.at);
    }
  }

  lemma SameProbes(log: seq<UsageEvent>, other: seq<UsageEvent>, at: Time)
    requires |other| == |log| && forall i | 0 <= i < |log| :: other[i].at == log[i].at && other[i].kind == log[i].kind
    ensures ProbeSince(log, at) ==> ProbeSince(other, at)
  {
    if ProbeSince(log, at) {
      var e :| e in log && e.at > at && IsProbe(e);
      var i :| 0 <= i < |log| && log[i] == e;
      assert other[i] in other && IsProbe(other[i]);
    }
  }

  /** The first endpoint recovery has no such memory: it authorizes its canary exactly while its window shows no execution. */
  lemma EndpointCanaryExactly(stream: seq<Observation>, recovery: RecoveryEvent, log: seq<UsageEvent>)
    ensures CurrentOf(stream, Bound(V3, Some(recovery)), log).evaluation.probeAuthorized <==>
            ValidRecovery(recovery.payload) && NoneExecuted(Window(Considered(stream, Some(recovery))))
  {
    EndpointInput(Window(Considered(stream, Some(recovery))), recovery, log);
  }

  lemma EndpointInput(window: seq<Observation>, recovery: RecoveryEvent, log: seq<UsageEvent>)
    ensures EvaluationOf(InputFor(window, V3, Some(recovery), log)).probeAuthorized <==>
            ValidRecovery(recovery.payload) && NoneExecuted(window)
  {
    NoExecutionsExactly(window);
    AuthorizedExactly(InputFor(window, V3, Some(recovery), log));
  }

  lemma AuthorizedExactly(input: PolicyInput)
    requires input.version == V3 && input.recovery.Some?
    ensures EvaluationOf(input).probeAuthorized <==>
            ValidRecovery(input.recovery.value) && StatsOf(input.observations).executions == 0
  {
  }

  lemma ExecutedIsSignificant(os: seq<Observation>, o: Observation)
    requires o in os && FlagsOf(o).executed
    ensures UnitOf(o) in Significant(os)
  {
    var u := UnitOf(o);
    UnitListed(os, o);
    FilterMembers(os, IsOf(u));
    assert !OnlyRequested(o) && o in Filter(os, IsOf(u));
    FilterMembers(FirstUnits(os), IsSignificant(os));
  }

  lemma {:induction false} UnitsAreDistinct(os: seq<Observation>)
    ensures Distinct(FirstUnits(os))
  {
    if os != [] {
      UnitsAreDistinct(os[..|os| - 1]);
    }
  }

  lemma {:induction false} FilterDistinct(us: seq<UnitId>, p: UnitId -> bool)
    requires Distinct(us)
    ensures Distinct(Filter(us, p))
  {
    if us != [] {
      var n := |us| - 1;
      FilterDistinct(us[..n], p);
      FilterMembers(us[..n], p);
    }
  }

  /** The i-th of these units has left the window exactly when sixteen others follow it. */
  lemma LeavesTheWindow(us: seq<UnitId>, i: nat)
    requires Distinct(us) && i < |us|
    ensures us[i] !in LastUnits(us) <==> i + WINDOW_SIZE < |us|
  {
    var from := if |us| <= WINDOW_SIZE then 0 else |us| - WINDOW_SIZE;
    assert LastUnits(us) == us[from..];
    if i >= from {
      assert us[from..][i - from] == us[i];
    } else {
      forall k | 0 <= k < |us| - from ensures us[from..][k] != us[i] {
        assert us[from + k] != us[i];
      }
    }
  }

  /** The unit is significant, and at least sixteen significant units follow it. */
  ghost predicate IsForgotten(os: seq<Observation>, u: UnitId) {
    exists i: nat :: i + WINDOW_SIZE < |Significant(os)| && Significant(os)[i] == u
  }

  lemma OutsideWindowExactly(os: seq<Observation>, u: UnitId)
    requires u in Significant(os)
    ensures u !in LastUnits(Significant(os)) <==> IsForgotten(os, u)
  {
    var us := Significant(os);
    UnitsAreDistinct(os);
    FilterDistinct(FirstUnits(os), IsSignificant(os));
    var i: nat :| i < |us| && us[i] == u;
    LeavesTheWindow(us, i);
    if u !in LastUnits(us) {
      assert i + WINDOW_SIZE < |us| && us[i] == u;
    }
    if k: nat :| k + WINDOW_SIZE < |us| && us[k] == u {
      assert k == i;
    }
  }

  lemma ForgottenExactly(os: seq<Observation>)
    ensures NoneExecuted(Window(os)) <==> forall o | o in os && FlagsOf(o).executed :: IsForgotten(os, UnitOf(o))
  {
    FilterMembers(os, InUnits(LastUnits(Significant(os))));
    forall o | o in os && FlagsOf(o).executed ensures o !in Window(os) <==> IsForgotten(os, UnitOf(o)) {
      ExecutedIsSignificant(os, o);
      OutsideWindowExactly(os, UnitOf(o));
    }
  }

  /**
   So in every stream the canary is authorized exactly if the recovery is valid and every run that was executed since has
   been forgotten: at least sixteen later runs count, and push it out of the window.
   */
  lemma EndpointCanaryIsForgotten(stream: seq<Observation>, recovery: RecoveryEvent, log: seq<UsageEvent>)
    ensures var os := Considered(stream, Some(recovery));
            CurrentOf(stream, Bound(V3, Some(recovery)), log).evaluation.probeAuthorized <==>
            && ValidRecovery(recovery.payload)
            && forall o | o in os && FlagsOf(o).executed :: IsForgotten(os, UnitOf(o))
  {
    EndpointCanaryExactly(stream, recovery, log);
    ForgottenExactly(Considered(stream, Some(recovery)));
  }
}
