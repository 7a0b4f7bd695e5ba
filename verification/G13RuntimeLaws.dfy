/**
 The window of the longitudinal evaluation, told by the facts of the stream alone (backend/app/authority/runtime.py): which
 observations are considered, which executions matter, and which sixteen of them are seen.
 */
module G13RuntimeLaws {
  import opened Wrappers
  import opened Ordering
  import opened FiniteSets
  import opened G13Policy
  import opened G13PolicyLaws
  import opened G13Runtime

  // ---------------------------------------------------------------------------------------------------
  // Which observations are considered
  // ---------------------------------------------------------------------------------------------------

  ghost predicate Acts(o: Observation) {
    !o.facts.runSkipped
  }

  /** Observed after the recovery, and not the record of it. */
  ghost predicate Postdates(o: Observation, r: RecoveryEvent) {
    o.sourceId != r.id && exists at :: o.observedAt == Some(at) && r.at < at
  }

  /** Something besides the identity anchor acts in the stream, and the observation acts and postdates the recovery. */
  lemma ConsideredExactly(stream: seq<Observation>, recovery: Option<RecoveryEvent>, o: Observation)
    ensures o in Considered(stream, recovery) <==>
              && (exists x :: x in stream && Acts(x) && x.source != IdentityAnchor)
              && o in stream && Acts(o) && forall r | recovery == Some(r) :: Postdates(o, r)
  {
    var acting := Filter(stream, NotSkipped());
    FilterMembers(stream, NotSkipped());
    if recovery.Some? {
      FilterMembers(acting, Since(recovery.value));
    }
    assert HasTrajectory(acting) <==> exists x :: x in stream && Acts(x) && x.source != IdentityAnchor;
  }

  /** What is handed to the policy: no violations, the five kinds of data that a pending action lacks, and one attempt for a probe in the log. */
  lemma InputExactly(window: seq<Observation>, version: Version, recovery: Option<RecoveryEvent>, log: seq<UsageEvent>)
    ensures var input := InputFor(window, version, recovery, log);
            && input.version == version && input.observations == window && input.integrity == {}
            && (forall m :: m in input.expectedMissing <==>
                  m == EvidenceNotPresent || m == EvaluationNotPresent || m == DecisionNotPresent || m == LatencyNotAvailable || m == TicketNotPresent)
            && (recovery.None? ==> input.recovery.None? && input.probeAttempts == 0)
            && (recovery.Some? ==>
                  && input.recovery == Some(recovery.value.payload)
                  && input.probeAttempts ==
                     if exists e :: e in log && recovery.value.at < e.at && (e.kind == ProbeStarted || e.kind == TelegraphRequest(true)) then 1 else 0)
  {
    if recovery.Some? && ProbeSince(log, recovery.value.at) {
      var e :| e in log && e.at > recovery.value.at && IsProbe(e);
      assert e.kind == ProbeStarted || e.kind == TelegraphRequest(true);
    }
    if recovery.Some? {
      if e :| e in log && recovery.value.at < e.at && (e.kind == ProbeStarted || e.kind == TelegraphRequest(true)) {
        assert IsProbe(e);
      }
    }
  }

  // ---------------------------------------------------------------------------------------------------
  // Which executions matter
  // ---------------------------------------------------------------------------------------------------

  /** No call of the observation went further than a request or a refusal. */
  ghost predicate Held(o: Observation) {
    forall s | s in o.facts.statuses :: s == NotExecuted || s == Requested
  }

  /** A record of the policy's own denial: nothing ran and nothing was decided. */
  ghost predicate Denied(o: Observation) {
    && (o.facts.failureCode == Some(DeniedByReview) || o.facts.failureCode == Some(DeniedByHalt)
        || o.facts.failureCode == Some(ThrottleConstraintsRequired))
    && Held(o) && o.facts.decision != Some(Permit) && o.facts.decision != Some(Block)
  }

  ghost predicate RefusedCall(o: Observation) {
    NotExecuted in o.facts.statuses
  }

  ghost predicate AllOf(os: seq<Observation>, o: Observation, p: Observation -> bool) {
    forall x | x in os && SameExecution(x, o) :: p(x)
  }

  /** The execution is neither refused before anything ran, nor made of denials only. */
  ghost predicate Matters(os: seq<Observation>, o: Observation) {
    !(Shows(os, o, RefusedCall) && AllOf(os, o, Held)) && !AllOf(os, o, Denied)
  }

  lemma DenialExactly(o: Observation)
    ensures OnlyRequested(o) <==> Held(o)
    ensures IsDenial(o) <==> Denied(o)
  {
  }

  lemma MattersExactly(os: seq<Observation>, o: Observation)
    ensures IsSignificant(os)(UnitOf(o)) <==> Matters(os, o)
  {
    var items := Filter(os, IsOf(UnitOf(o)));
    FilterMembers(os, IsOf(UnitOf(o)));
    forall x ensures x in items <==> x in os && SameExecution(x, o) {
      SameUnit(x, o);
    }
    forall x ensures (OnlyRequested(x) <==> Held(x)) && (IsDenial(x) <==> Denied(x)) {
      DenialExactly(x);
    }
  }

  // ---------------------------------------------------------------------------------------------------
  // Which of them are seen
  // ---------------------------------------------------------------------------------------------------

  /** The places of first projections, in order. */
  function Firsts(os: seq<Observation>): (places: seq<int>)
    ensures forall i | i in places :: 0 <= i < |os|
  {
    if os == [] then []
    else
      var n := |os| - 1;
      if UnitOf(os[n]) in FirstUnits(os[..n]) then Firsts(os[..n]) else Firsts(os[..n]) + [n]
  }

  lemma {:induction false} FirstsAreUnits(os: seq<Observation>)
    ensures |Firsts(os)| == |FirstUnits(os)|
    ensures forall k | 0 <= k < |Firsts(os)| :: 0 <= Firsts(os)[k] < |os| && UnitOf(os[Firsts(os)[k]]) == FirstUnits(os)[k]
    ensures Rising(Firsts(os))
  {
    if os != [] {
      var n := |os| - 1;
      FirstsAreUnits(os[..n]);
      forall k | 0 <= k < |Firsts(os[..n])| ensures Firsts(os[..n])[k] < n {
        assert Firsts(os[..n])[k] in Firsts(os[..n]);
      }
    }
  }

  lemma {:induction false} FirstsExactly(os: seq<Observation>, i: int)
    ensures i in Firsts(os) <==> IsFirst(os, i)
  {
    if os != [] {
      var n := |os| - 1;
      FirstsExactly(os[..n], i);
      if i == n {
        UnitSeenExactly(os[..n], os[n]);
      } else if 0 <= i < n {
        assert forall j | 0 <= j <= i :: os[..n][j] == os[j];
      }
    }
  }

  lemma UnitSeenExactly(os: seq<Observation>, o: Observation)
    ensures UnitOf(o) in FirstUnits(os) <==> exists j :: 0 <= j < |os| && SameExecution(os[j], o)
  {
    UnitsHaveObservations(os, UnitOf(o));
    FilterMembers(os, IsOf(UnitOf(o)));
    var items := Filter(os, IsOf(UnitOf(o)));
    if items != [] {
      assert items[0] in items;
      SameUnit(items[0], o);
      var j :| 0 <= j < |os| && os[j] == items[0];
    }
    if j :| 0 <= j < |os| && SameExecution(os[j], o) {
      SameUnit(os[j], o);
      assert os[j] in items;
    }
  }

  function AtPlace(os: seq<Observation>): int -> bool {
    (i: int) => 0 <= i < |os| && IsSignificant(os)(UnitOf(os[i]))
  }

  /** The first projections of the executions that matter, in order. */
  function SeenPlaces(os: seq<Observation>): seq<int> {
    Filter(Firsts(os), AtPlace(os))
  }

  lemma {:induction false} FilterAlong(places: seq<int>, us: seq<UnitId>, os: seq<Observation>)
    requires |places| == |us| && forall k | 0 <= k < |us| :: 0 <= places[k] < |os| && UnitOf(os[places[k]]) == us[k]
    ensures var fp, fu := Filter(places, AtPlace(os)), Filter(us, IsSignificant(os));
            |fp| == |fu| && forall k | 0 <= k < |fu| :: 0 <= fp[k] < |os| && UnitOf(os[fp[k]]) == fu[k]
  {
    if us != [] {
      FilterAlong(places[..|us| - 1], us[..|us| - 1], os);
    }
  }

  ghost predicate Rising(s: seq<int>) {
    forall k, l | 0 <= k < l < |s| :: s[k] < s[l]
  }

  lemma RisingAppend(s: seq<int>, x: int)
    requires Rising(s) && forall y | y in s :: y < x
    ensures Rising(s + [x])
  {
    forall k | 0 <= k < |s| ensures s[k] < x {
      assert s[k] in s;
    }
  }

  lemma {:induction false} FilterRises(places: seq<int>, p: int -> bool)
    requires Rising(places)
    ensures Rising(Filter(places, p))
  {
    if places != [] {
      var n := |places| - 1;
      FilterRises(places[..n], p);
      FilterMembers(places[..n], p);
      if p(places[n]) {
        RisingAppend(Filter(places[..n], p), places[n]);
      }
    }
  }

  /** In a rising sequence, the elements after the k-th are those above it. */
  lemma {:induction false} CountAbove(s: seq<int>, k: nat, above: set<int>)
    requires k < |s| && Rising(s)
    requires forall x | x in above :: x in s && s[k] < x
    requires forall x | x in s && s[k] < x :: x in above
    ensures |above| == |s| - 1 - k
  {
    var n := |s| - 1;
    if k == n {
      forall x | x in s ensures x <= s[n] {
        var i :| 0 <= i < |s| && s[i] == x;
      }
      assert !exists x :: x in above;
    } else {
      assert s[n] in s && s[n] in above;
      forall x | x in above - {s[n]} ensures x in s[..n] {
        var i :| 0 <= i < |s| && s[i] == x;
        assert s[..n][i] == x;
      }
      forall x | x in s[..n] && s[k] < x ensures x in above - {s[n]} {
        var i :| 0 <= i < n && s[..n][i] == x;
      }
      CountAbove(s[..n], k, above - {s[n]});
    }
  }

  /** The executions that matter and appear later than the place. */
  ghost function LaterThan(os: seq<Observation>, i: int): set<int> {
    set j | 0 <= j < |os| && IsFirst(os, j) && i < j && Matters(os, os[j])
  }

  lemma SeenExactly(os: seq<Observation>, i: int)
    ensures i in SeenPlaces(os) <==> IsFirst(os, i) && Matters(os, os[i])
  {
    FilterMembers(Firsts(os), AtPlace(os));
    FirstsExactly(os, i);
    if 0 <= i < |os| {
      MattersExactly(os, os[i]);
    }
  }

  lemma SeenAreUnits(os: seq<Observation>)
    ensures |SeenPlaces(os)| == |Significant(os)|
    ensures forall k | 0 <= k < |SeenPlaces(os)| :: 0 <= SeenPlaces(os)[k] < |os| && UnitOf(os[SeenPlaces(os)[k]]) == Significant(os)[k]
    ensures Rising(SeenPlaces(os))
  {
    FirstsAreUnits(os);
    FilterAlong(Firsts(os), FirstUnits(os), os);
    FilterRises(Firsts(os), AtPlace(os));
  }

  lemma LaterCount(os: seq<Observation>, k: nat)
    requires k < |SeenPlaces(os)|
    ensures |LaterThan(os, SeenPlaces(os)[k])| == |SeenPlaces(os)| - 1 - k
  {
    SeenAreUnits(os);
    var places := SeenPlaces(os);
    forall j ensures j in LaterThan(os, places[k]) <==> j in places && places[k] < j {
      SeenExactly(os, j);
    }
    CountAbove(places, k, LaterThan(os, places[k]));
  }

  /** An execution is in the window exactly if it matters and fewer than sixteen that matter appear after it. */
  lemma InWindowExactly(os: seq<Observation>, i: int, o: Observation)
    requires IsFirst(os, i) && o in os && SameExecution(os[i], o)
    ensures o in Window(os) <==> Matters(os, os[i]) && |LaterThan(os, i)| < 16
  {
    var us := Significant(os);
    FilterMembers(os, InUnits(LastUnits(us)));
    SameUnit(os[i], o);
    SeenExactly(os, i);
    SeenAreUnits(os);
    UnitsAreDistinct(os);
    FilterDistinct(FirstUnits(os), IsSignificant(os));
    if Matters(os, os[i]) {
      var k :| 0 <= k < |SeenPlaces(os)| && SeenPlaces(os)[k] == i;
      LaterCount(os, k);
      LeavesTheWindow(us, k);
    } else if UnitOf(o) in LastUnits(us) {
      LastUnitsWithin(us, UnitOf(o));
      var k :| 0 <= k < |us| && us[k] == UnitOf(o);
      SameSignificance(os, i, k);
    }
  }

  lemma SameSignificance(os: seq<Observation>, i: int, k: nat)
    requires IsFirst(os, i) && k < |Significant(os)| && Significant(os)[k] == UnitOf(os[i])
    ensures Matters(os, os[i])
  {
    FilterMembers(FirstUnits(os), IsSignificant(os));
    assert Significant(os)[k] in Significant(os);
    MattersExactly(os, os[i]);
  }
}
