/**
 Transitions between relational snapshots and their stream (backend/app/epistemic/trajectory.py).

 Identifiers are texts. The sorted tuples of a transition are modelled by the sets they list; the order of the
 stream itself, which follows the sorted requirement identifiers, is kept.
 */
module Trajectory {
  import opened Wrappers
  import opened Ordering
  import opened Numerals
  import opened JsonText
  import opened CanonicalJson

  datatype RequirementState = RequirementSatisfied | RequirementUnresolved | RequirementContradicted

  datatype RelationState = Satisfies | Contradicts | Unresolved | NotApplicable

  datatype StructuralState = Complete | Incomplete | Contradicted

  datatype TransitionKind = ExactNoOp | SameStateRelationalChange | StateChange

  datatype Requirement = Requirement(id: Text, requirementType: Text, state: RequirementState)

  /** The basis is the canonical value of the frozen mapping. */
  datatype Relation = Relation(id: Text, requirement: Text, evidence: Text, state: RelationState, basis: Json)

  /** The versions a snapshot carries: target contract, observer, contract, algorithm and canonicalization. */
  datatype Versions = Versions(targetContract: Text, observer: Text, contract: Text, algorithm: Text, canonicalization: Text)

  datatype Snapshot = Snapshot(hash: Text, target: Text, requirements: seq<Requirement>, relations: seq<Relation>,
                               structural: StructuralState, versions: Versions)

  /** The second list holds the versions that do not come from the snapshots. */
  datatype Lineage = Lineage(id: Text, target: Text, versions: Versions, ownVersions: seq<Text>)

  datatype Point = Point(lineage: Lineage, index: int, snapshot: Snapshot) {
    /** What the constructor of a point checks. */
    predicate Valid() {
      index >= 0 && LineageError(lineage, snapshot).None?
    }
  }

  datatype Error =
    | IndexNotIncreasing
    | CrossesTargets
    | CrossesLineages
    | DoesNotStartAtZero
    | IndexNotContiguous
    | LineageTargetMismatch
    | LineageVersionMismatch
    | DuplicateRequirement
    | DuplicateRelation
    | UnstableRequirements
    | UnknownRequirement
    | RequirementTypeChanged
    | IdentityCollision

  datatype Transition = Transition(
    lineage: Text, target: Text, requirement: Text, requirementType: Text, index: int,
    previousHash: Text, currentHash: Text,
    previousState: RequirementState, currentState: RequirementState,
    addedRelations: set<Text>, removedRelations: set<Text>,
    addedSupporting: set<Text>, removedSupporting: set<Text>,
    addedContradicting: set<Text>, removedContradicting: set<Text>,
    previousStructural: StructuralState, currentStructural: StructuralState,
    kind: TransitionKind, changes: map<Text, (Relation, Relation)>)

  function LineageError(lineage: Lineage, s: Snapshot): Option<Error> {
    if lineage.target != s.target then Some(LineageTargetMismatch)
    else if lineage.versions != s.versions then Some(LineageVersionMismatch)
    else None
  }

  // ---------------------------------------------------------------------------------------------------
  // Lookup by identifier
  // ---------------------------------------------------------------------------------------------------

  predicate DistinctIds<T>(items: seq<T>, id: T -> Text) {
    forall i, j | 0 <= i < j < |items| :: id(items[i]) != id(items[j])
  }

  function ById<T>(items: seq<T>, id: T -> Text): map<Text, T> {
    if items == [] then map[]
    else
      var n := |items| - 1;
      ById(items[..n], id)[id(items[n]) := items[n]]
  }

  lemma {:induction false} ByIdExact<T>(items: seq<T>, id: T -> Text)
    requires DistinctIds(items, id)
    ensures forall i | 0 <= i < |items| :: id(items[i]) in ById(items, id) && ById(items, id)[id(items[i])] == items[i]
    ensures forall k | k in ById(items, id) :: ById(items, id)[k] in items && id(ById(items, id)[k]) == k
  {
    if items != [] {
      ByIdExact(items[..|items| - 1], id);
    }
  }

  lemma IdStep<T>(items: seq<T>, i: nat, id: T -> Text)
    requires i < |items| && DistinctIds(items[..i], id)
    ensures id(items[i]) !in ById(items[..i], id) ==> DistinctIds(items[..i + 1], id)
    ensures id(items[i]) in ById(items[..i], id) ==> !DistinctIds(items, id)
    ensures ById(items[..i + 1], id) == ById(items[..i], id)[id(items[i]) := items[i]]
  {
    ByIdExact(items[..i], id);
    assert items[..i + 1][..i] == items[..i];
    if id(items[i]) in ById(items[..i], id) {
      assert ById(items[..i], id)[id(items[i])] in items[..i];
    } else {
      assert forall j | 0 <= j < i :: id(items[..i][j]) in ById(items[..i], id);
    }
  }

  /** The loop that fills a dictionary and rejects a repeated identifier. */
  method MapById<T>(items: seq<T>, id: T -> Text) returns (r: Option<map<Text, T>>)
    ensures r == if DistinctIds(items, id) then Some(ById(items, id)) else None
  {
    var result: map<Text, T> := map[];
    for i := 0 to |items|
      invariant DistinctIds(items[..i], id) && result == ById(items[..i], id)
    {
      IdStep(items, i, id);
      if id(items[i]) in result {
        return None;
      }
      result := result[id(items[i]) := items[i]];
    }
    assert items[..|items|] == items;
    return Some(result);
  }

  function RequirementId(): Requirement -> Text {
    (r: Requirement) => r.id
  }

  function RelationId(): Relation -> Text {
    (r: Relation) => r.id
  }

  function RequirementMap(s: Snapshot): Result<map<Text, Requirement>, Error> {
    if DistinctIds(s.requirements, RequirementId()) then Ok(ById(s.requirements, RequirementId())) else Err(DuplicateRequirement)
  }

  function RelationMap(s: Snapshot): Result<map<Text, Relation>, Error> {
    if DistinctIds(s.relations, RelationId()) then Ok(ById(s.relations, RelationId())) else Err(DuplicateRelation)
  }

  // ---------------------------------------------------------------------------------------------------
  // The transition of one requirement
  // ---------------------------------------------------------------------------------------------------

  function Chars(s: string): (t: Text)
    ensures |t| == |s|
  {
    seq(|s|, i requires 0 <= i < |s| => s[i] as int)
  }

  function StateName(s: RelationState): Text {
    match s
    case Satisfies => Chars("SATISFIES")
    case Contradicts => Chars("CONTRADICTS")
    case Unresolved => Chars("UNRESOLVED")
    case NotApplicable => Chars("NOT_APPLICABLE")
  }

  /** Everything a relation says, as an object with sorted keys. */
  function Said(r: Relation): seq<Member> {
    [Member(Chars("evidence_id"), Str(r.evidence)), Member(Chars("relation_basis"), r.basis),
     Member(Chars("relation_id"), Str(r.id)), Member(Chars("relation_state"), Str(StateName(r.state))),
     Member(Chars("requirement_id"), Str(r.requirement))]
  }

  function Signature(r: Relation): Text {
    Print(Obj(Said(r)))
  }

  lemma StateNamesDiffer(a: RelationState, b: RelationState)
    ensures StateName(a) == StateName(b) <==> a == b
  {
    assert |StateName(a)| == |StateName(b)| <==> a == b;
  }

  /** Two relations have the same signature exactly when they are equal. */
  lemma {:induction false} SignatureIsExact(a: Relation, b: Relation)
    ensures Signature(a) == Signature(b) <==> a == b
  {
    PrintIsInjective(Obj(Said(a)), Obj(Said(b)));
    StateNamesDiffer(a.state, b.state);
    if Said(a) == Said(b) {
      assert Said(a)[0] == Said(b)[0] && Said(a)[1] == Said(b)[1] && Said(a)[2] == Said(b)[2];
      assert Said(a)[3] == Said(b)[3] && Said(a)[4] == Said(b)[4];
    }
  }

  function Local(relations: map<Text, Relation>, requirement: Text): map<Text, Relation> {
    map k | k in relations && relations[k].requirement == requirement :: relations[k]
  }

  function EvidenceFor(local: map<Text, Relation>, state: RelationState): set<Text> {
    set k | k in local && local[k].state == state :: local[k].evidence
  }

  function Changed(previous: map<Text, Relation>, current: map<Text, Relation>): map<Text, (Relation, Relation)> {
    map k | k in previous && k in current && Signature(previous[k]) != Signature(current[k]) :: (previous[k], current[k])
  }

  function DeriveTransition(previous: Snapshot, current: Snapshot, previousIndex: int, index: int, requirement: Text,
                            lineage: Lineage): Result<Transition, Error>
  {
    if previousIndex < 0 || index <= previousIndex then Err(IndexNotIncreasing)
    else if previous.target != current.target then Err(CrossesTargets)
    else if LineageError(lineage, previous).Some? then Err(LineageError(lineage, previous).value)
    else if LineageError(lineage, current).Some? then Err(LineageError(lineage, current).value)
    else
      var pr :- RequirementMap(previous);
      var cr :- RequirementMap(current);
      if pr.Keys != cr.Keys then Err(UnstableRequirements)
      else if requirement !in pr then Err(UnknownRequirement)
      else if pr[requirement].requirementType != cr[requirement].requirementType then Err(RequirementTypeChanged)
      else
        var pm :- RelationMap(previous);
        var cm :- RelationMap(current);
        Ok(Delta(previous, current, index, pr[requirement], cr[requirement], Local(pm, requirement), Local(cm, requirement), lineage))
  }

  function Delta(previous: Snapshot, current: Snapshot, index: int, before: Requirement, after: Requirement,
                 was: map<Text, Relation>, now: map<Text, Relation>, lineage: Lineage): Transition
  {
    var changes := Changed(was, now);
    var supported, supports := EvidenceFor(was, Satisfies), EvidenceFor(now, Satisfies);
    var contradicted, contradicts := EvidenceFor(was, Contradicts), EvidenceFor(now, Contradicts);
    var relationChanged :=
      || now.Keys - was.Keys != {} || was.Keys - now.Keys != {} || changes != map[]
      || supports - supported != {} || supported - supports != {}
      || contradicts - contradicted != {} || contradicted - contradicts != {};
    Transition(lineage.id, current.target, after.id, after.requirementType, index,
               previous.hash, current.hash, before.state, after.state,
               now.Keys - was.Keys, was.Keys - now.Keys,
               supports - supported, supported - supports,
               contradicts - contradicted, contradicted - contradicts,
               previous.structural, current.structural,
               if before.state != after.state then StateChange else if relationChanged then SameStateRelationalChange else ExactNoOp,
               changes)
  }

  lemma UnchangedMaps(was: map<Text, Relation>, now: map<Text, Relation>)
    ensures was == now <==> was.Keys - now.Keys == {} && now.Keys - was.Keys == {} && Changed(was, now) == map[]
  {
    if was == now {
      assert Changed(was, now) == map[];
    } else if was.Keys - now.Keys == {} && now.Keys - was.Keys == {} {
      assert was.Keys == now.Keys by {
        assert forall k | k in was.Keys && k !in now.Keys :: k in was.Keys - now.Keys;
        assert forall k | k in now.Keys && k !in was.Keys :: k in now.Keys - was.Keys;
      }
      var k :| k in was && was[k] != now[k];
      SignatureIsExact(was[k], now[k]);
      assert k in Changed(was, now);
    }
  }

  /**
   A transition is an exact no-op precisely when the requirement keeps its state and its relations are the same, in
   everything they say; the evidence deltas never decide.
   */
  lemma NoOpExactlyWhenNothingChanged(previous: Snapshot, current: Snapshot, previousIndex: int, index: int,
                                      requirement: Text, lineage: Lineage)
    requires DeriveTransition(previous, current, previousIndex, index, requirement, lineage).Ok?
    ensures var t := DeriveTransition(previous, current, previousIndex, index, requirement, lineage).value;
            var was, now := Local(RelationMap(previous).value, requirement), Local(RelationMap(current).value, requirement);
            && (t.kind == ExactNoOp <==> t.previousState == t.currentState && was == now)
            && (t.kind == StateChange <==> t.previousState != t.currentState)
            && (was == now <==> t.addedRelations == {} && t.removedRelations == {} && t.changes == map[])
  {
    var was, now := Local(RelationMap(previous).value, requirement), Local(RelationMap(current).value, requirement);
    UnchangedMaps(was, now);
  }

  // ---------------------------------------------------------------------------------------------------
  // The stream
  // ---------------------------------------------------------------------------------------------------

  /** The requirement identifiers in their sorted order. */
  function SortedIds(s: Snapshot): seq<Text> {
    SortBy(Ids(s.requirements), TextLe)
  }

  function Ids(requirements: seq<Requirement>): (ids: seq<Text>)
    ensures |ids| == |requirements| && forall i | 0 <= i < |ids| :: ids[i] == requirements[i].id
  {
    seq(|requirements|, i requires 0 <= i < |requirements| => requirements[i].id)
  }

  /** What is wrong with a point in the place after another one, in a stream that starts at first. */
  function PairError(first: Point, previous: Point, current: Point): Option<Error> {
    if current.snapshot.target != first.snapshot.target then Some(CrossesTargets)
    else if current.lineage != first.lineage then Some(CrossesLineages)
    else if current.index != previous.index + 1 then Some(IndexNotContiguous)
    else None
  }

  function OrderError(points: seq<Point>): Option<Error> {
    if |points| < 2 then None
    else
      var n := |points| - 1;
      match OrderError(points[..n])
      case Some(e) => Some(e)
      case None => PairError(points[0], points[n - 1], points[n])
  }

  /** The transitions between two points for a list of requirements. */
  function StepsFor(ids: seq<Text>, previous: Point, current: Point, lineage: Lineage, includeNoOps: bool)
    : Result<seq<Transition>, Error>
  {
    if ids == [] then Ok([])
    else
      var n := |ids| - 1;
      var earlier :- StepsFor(ids[..n], previous, current, lineage, includeNoOps);
      var t :- DeriveTransition(previous.snapshot, current.snapshot, previous.index, current.index, ids[n], lineage);
      Ok(if includeNoOps || t.kind != ExactNoOp then earlier + [t] else earlier)
  }

  function Steps(previous: Point, current: Point, lineage: Lineage, includeNoOps: bool): Result<seq<Transition>, Error> {
    var pr :- RequirementMap(previous.snapshot);
    var cr :- RequirementMap(current.snapshot);
    if pr.Keys != cr.Keys then Err(UnstableRequirements)
    else StepsFor(SortedIds(current.snapshot), previous, current, lineage, includeNoOps)
  }

  function StepsUpTo(points: seq<Point>, includeNoOps: bool): Result<seq<Transition>, Error> {
    if |points| < 2 then Ok([])
    else
      var n := |points| - 1;
      var earlier :- StepsUpTo(points[..n], includeNoOps);
      var steps :- Steps(points[n - 1], points[n], points[0].lineage, includeNoOps);
      Ok(earlier + steps)
  }

  function Stream(points: seq<Point>, includeNoOps: bool): Result<seq<Transition>, Error> {
    if |points| < 2 then Ok([])
    else if points[0].index != 0 then Err(DoesNotStartAtZero)
    else
      match OrderError(points)
      case Some(e) => Err(e)
      case None => StepsUpTo(points, includeNoOps)
  }

  // The key a transition would be stored under.
  function Identity(t: Transition): (Text, int, Text) {
    (t.lineage, t.index, t.requirement)
  }

  /** The loop that checks the order of the points. */
  method CheckOrder(points: seq<Point>) returns (r: Option<Error>)
    requires points != []
    ensures r == OrderError(points)
  {
    for k := 1 to |points|
      invariant OrderError(points[..k]).None?
    {
      assert points[..k + 1][..k] == points[..k];
      var e := PairError(points[0], points[k - 1], points[k]);
      if e.Some? {
        OrderErrorStays(points, k + 1);
        return e;
      }
    }
    assert points[..|points|] == points;
    return None;
  }

  /** The loop over the sorted requirements of two consecutive points. */
  method BuildSteps(previous: Point, current: Point, lineage: Lineage, includeNoOps: bool) returns (r: Result<seq<Transition>, Error>)
    ensures r == Steps(previous, current, lineage, includeNoOps)
  {
    var previousRequirements := MapById(previous.snapshot.requirements, RequirementId());
    var currentRequirements := MapById(current.snapshot.requirements, RequirementId());
    if previousRequirements.None? || currentRequirements.None? {
      return Err(DuplicateRequirement);
    }
    if previousRequirements.value.Keys != currentRequirements.value.Keys {
      return Err(UnstableRequirements);
    }
    var ids := SortedIds(current.snapshot);
    var steps := [];
    for i := 0 to |ids|
      invariant StepsFor(ids[..i], previous, current, lineage, includeNoOps) == Ok(steps)
    {
      assert ids[..i + 1][..i] == ids[..i];
      var t := DeriveTransition(previous.snapshot, current.snapshot, previous.index, current.index, ids[i], lineage);
      if t.Err? {
        StepsForErrorStays(ids, i + 1, previous, current, lineage, includeNoOps);
        return Err(t.error);
      }
      if includeNoOps || t.value.kind != ExactNoOp {
        steps := steps + [t.value];
      }
    }
    assert ids[..|ids|] == ids;
    return Ok(steps);
  }

  method BuildTransitionStream(points: seq<Point>, includeNoOps: bool) returns (r: Result<seq<Transition>, Error>)
    ensures r == Stream(points, includeNoOps)
  {
    if |points| < 2 {
      return Ok([]);
    }
    if points[0].index != 0 {
      return Err(DoesNotStartAtZero);
    }
    var disorder := CheckOrder(points);
    if disorder.Some? {
      return Err(disorder.value);
    }
    var transitions: seq<Transition> := [];
    for k := 1 to |points|
      invariant StepsUpTo(points[..k], includeNoOps) == Ok(transitions)
    {
      assert points[..k + 1][..k] == points[..k];
      var steps := BuildSteps(points[k - 1], points[k], points[0].lineage, includeNoOps);
      StepsUnfold(points[..k + 1], includeNoOps);
      if steps.Err? {
        StepsErrorStays(points, k + 1, includeNoOps);
        return Err(steps.error);
      }
      transitions := transitions + steps.value;
    }
    assert points[..|points|] == points;
    NeverCollides(points, includeNoOps);
    var identities := set t | t in transitions :: Identity(t);
    DistinctIdentitiesCount(transitions);
    if |identities| != |transitions| {
      return Err(IdentityCollision);
    }
    return Ok(transitions);
  }

  lemma StepsUnfold(points: seq<Point>, includeNoOps: bool)
    requires |points| > 1
    ensures var n := |points| - 1;
            var earlier, steps := StepsUpTo(points[..n], includeNoOps), Steps(points[n - 1], points[n], points[0].lineage, includeNoOps);
            StepsUpTo(points, includeNoOps)
            == if earlier.Err? then earlier else if steps.Err? then steps else Ok(earlier.value + steps.value)
  {
  }

  lemma {:induction false} OrderErrorStays(points: seq<Point>, k: nat)
    requires k <= |points| && OrderError(points[..k]).Some?
    ensures OrderError(points) == OrderError(points[..k])
  {
    if k == |points| {
      assert points[..k] == points;
    } else {
      var n := |points| - 1;
      assert points[..n][..k] == points[..k];
      OrderErrorStays(points[..n], k);
    }
  }

  lemma {:induction false} StepsErrorStays(points: seq<Point>, k: nat, includeNoOps: bool)
    requires k <= |points|
    ensures StepsUpTo(points[..k], includeNoOps).Err? ==> StepsUpTo(points, includeNoOps) == StepsUpTo(points[..k], includeNoOps)
  {
    if k == |points| {
      assert points[..k] == points;
    } else {
      var n := |points| - 1;
      assert points[..n][..k] == points[..k];
      StepsErrorStays(points[..n], k, includeNoOps);
    }
  }

  lemma {:induction false} StepsForErrorStays(ids: seq<Text>, k: nat, previous: Point, current: Point, lineage: Lineage, includeNoOps: bool)
    requires k <= |ids| && StepsFor(ids[..k], previous, current, lineage, includeNoOps).Err?
    ensures StepsFor(ids, previous, current, lineage, includeNoOps) == StepsFor(ids[..k], previous, current, lineage, includeNoOps)
  {
    if k == |ids| {
      assert ids[..k] == ids;
    } else {
      var n := |ids| - 1;
      assert ids[..n][..k] == ids[..k];
      StepsForErrorStays(ids[..n], k, previous, current, lineage, includeNoOps);
    }
  }

  // ---------------------------------------------------------------------------------------------------
  // Identities never collide
  // ---------------------------------------------------------------------------------------------------

  ghost predicate DistinctIdentities(ts: seq<Transition>) {
    forall i, j | 0 <= i < j < |ts| :: Identity(ts[i]) != Identity(ts[j])
  }

  lemma {:induction false} DistinctIdentitiesCount(ts: seq<Transition>)
    requires DistinctIdentities(ts)
    ensures |set t | t in ts :: Identity(t)| == |ts|
  {
    var identities := set t | t in ts :: Identity(t);
    if ts == [] {
      assert identities == {};
    } else {
      var n := |ts| - 1;
      var earlier := set t | t in ts[..n] :: Identity(t);
      DistinctIdentitiesCount(ts[..n]);
      assert ts == ts[..n] + [ts[n]];
      assert identities == earlier + {Identity(ts[n])};
      assert Identity(ts[n]) !in earlier;
    }
  }

  lemma {:induction false} StepsForShape(ids: seq<Text>, previous: Point, current: Point, lineage: Lineage, includeNoOps: bool)
    requires StepsFor(ids, previous, current, lineage, includeNoOps).Ok? && Distinct(ids)
    ensures var ts := StepsFor(ids, previous, current, lineage, includeNoOps).value;
            && (forall t | t in ts :: t.lineage == lineage.id && t.index == current.index && t.requirement in ids)
            && DistinctIdentities(ts)
  {
    if ids != [] {
      var n := |ids| - 1;
      StepsForShape(ids[..n], previous, current, lineage, includeNoOps);
      DerivedRequirement(previous, current, ids[n], lineage);
      assert ids == ids[..n] + [ids[n]];
    }
  }

  lemma DerivedRequirement(previous: Point, current: Point, requirement: Text, lineage: Lineage)
    requires DeriveTransition(previous.snapshot, current.snapshot, previous.index, current.index, requirement, lineage).Ok?
    ensures var t := DeriveTransition(previous.snapshot, current.snapshot, previous.index, current.index, requirement, lineage).value;
            t.requirement == requirement && t.lineage == lineage.id && t.index == current.index
  {
    ByIdExact(current.snapshot.requirements, RequirementId());
  }

  lemma SortedIdsAreDistinct(s: Snapshot)
    requires RequirementMap(s).Ok?
    ensures Distinct(SortedIds(s))
    ensures forall id :: id in SortedIds(s) <==> id in RequirementMap(s).value
  {
    var ids := Ids(s.requirements);
    ByIdExact(s.requirements, RequirementId());
    assert forall i | 0 <= i < |ids| :: ids[i] == RequirementId()(s.requirements[i]);
    DistinctPermutation(ids, SortedIds(s));
    MultisetMembers(ids, SortedIds(s));
    forall id ensures id in ids <==> id in RequirementMap(s).value {
      if id in ids {
        var i :| 0 <= i < |ids| && ids[i] == id;
      }
      if id in RequirementMap(s).value {
        var i :| 0 <= i < |s.requirements| && s.requirements[i] == RequirementMap(s).value[id];
        assert ids[i] == id;
      }
    }
  }

  /** The identities of the transitions of an accepted stream are pairwise different: the final check never fires. */
  lemma {:induction false} NeverCollides(points: seq<Point>, includeNoOps: bool)
    requires |points| > 0 && OrderError(points).None? && StepsUpTo(points, includeNoOps).Ok?
    ensures var ts := StepsUpTo(points, includeNoOps).value;
            && DistinctIdentities(ts)
            && (forall t | t in ts :: t.index <= points[|points| - 1].index)
  {
    if |points| > 1 {
      var n := |points| - 1;
      NeverCollides(points[..n], includeNoOps);
      SortedIdsAreDistinct(points[n].snapshot);
      StepsForShape(SortedIds(points[n].snapshot), points[n - 1], points[n], points[0].lineage, includeNoOps);
    }
  }

  // ---------------------------------------------------------------------------------------------------
  // Replay
  // ---------------------------------------------------------------------------------------------------

  /** What the transitions of one requirement speak about. */
  datatype View = View(relations: set<Text>, supporting: set<Text>, contradicting: set<Text>, state: RequirementState)

  function ViewOf(s: Snapshot, requirement: Text): Option<View> {
    if RequirementMap(s).Err? || RelationMap(s).Err? || requirement !in RequirementMap(s).value then None
    else
      var local := Local(RelationMap(s).value, requirement);
      Some(View(local.Keys, EvidenceFor(local, Satisfies), EvidenceFor(local, Contradicts), RequirementMap(s).value[requirement].state))
  }

  function ApplyTransition(v: View, t: Transition): View {
    View((v.relations - t.removedRelations) + t.addedRelations,
         (v.supporting - t.removedSupporting) + t.addedSupporting,
         (v.contradicting - t.removedContradicting) + t.addedContradicting,
         t.currentState)
  }

  /** The view after the transitions of the requirement, in order. */
  function Replay(v: View, ts: seq<Transition>, requirement: Text): View {
    if ts == [] then v
    else
      var n := |ts| - 1;
      var earlier := Replay(v, ts[..n], requirement);
      if ts[n].requirement == requirement then ApplyTransition(earlier, ts[n]) else earlier
  }

  lemma {:induction false} ReplayConcat(v: View, a: seq<Transition>, b: seq<Transition>, requirement: Text)
    ensures Replay(v, a + b, requirement) == Replay(Replay(v, a, requirement), b, requirement)
  {
    if b == [] {
      assert a + b == a;
    } else {
      var n := |b| - 1;
      assert (a + b)[..|a + b| - 1] == a + b[..n];
      ReplayConcat(v, a, b[..n], requirement);
    }
  }

  /** A transition takes the view of the earlier snapshot to the view of the later one; dropping a no-op loses nothing. */
  lemma TransitionMovesView(previous: Point, current: Point, requirement: Text, lineage: Lineage)
    requires DeriveTransition(previous.snapshot, current.snapshot, previous.index, current.index, requirement, lineage).Ok?
    ensures var t := DeriveTransition(previous.snapshot, current.snapshot, previous.index, current.index, requirement, lineage).value;
            var before, after := ViewOf(previous.snapshot, requirement), ViewOf(current.snapshot, requirement);
            && before.Some? && after.Some?
            && ApplyTransition(before.value, t) == after.value
            && (t.kind == ExactNoOp ==> before == after)
  {
    NoOpExactlyWhenNothingChanged(previous.snapshot, current.snapshot, previous.index, current.index, requirement, lineage);
    var t := DeriveTransition(previous.snapshot, current.snapshot, previous.index, current.index, requirement, lineage).value;
    var before, after := ViewOf(previous.snapshot, requirement).value, ViewOf(current.snapshot, requirement).value;
    MoveSet(before.relations, after.relations);
    MoveSet(before.supporting, after.supporting);
    MoveSet(before.contradicting, after.contradicting);
  }

  lemma MoveSet(a: set<Text>, b: set<Text>)
    ensures (a - (a - b)) + (b - a) == b
  {
  }

  lemma {:induction false} StepsMoveView(ids: seq<Text>, previous: Point, current: Point, lineage: Lineage, includeNoOps: bool,
                                         requirement: Text, v: View)
    requires StepsFor(ids, previous, current, lineage, includeNoOps).Ok? && Distinct(ids)
    requires requirement in ids ==> Some(v) == ViewOf(previous.snapshot, requirement)
    ensures var w := Replay(v, StepsFor(ids, previous, current, lineage, includeNoOps).value, requirement);
            if requirement in ids then Some(w) == ViewOf(current.snapshot, requirement) else w == v
  {
    if ids != [] {
      var n := |ids| - 1;
      assert ids == ids[..n] + [ids[n]];
      StepsMoveView(ids[..n], previous, current, lineage, includeNoOps, requirement, v);
      DerivedRequirement(previous, current, ids[n], lineage);
      TransitionMovesView(previous, current, ids[n], lineage);
      var earlier := StepsFor(ids[..n], previous, current, lineage, includeNoOps).value;
      var ts := StepsFor(ids, previous, current, lineage, includeNoOps).value;
      if ts != earlier {
        assert ts[..|ts| - 1] == earlier;
      }
    }
  }

  lemma {:induction false} PointMovesView(previous: Point, current: Point, lineage: Lineage, includeNoOps: bool, requirement: Text, v: View)
    requires Steps(previous, current, lineage, includeNoOps).Ok? && Some(v) == ViewOf(previous.snapshot, requirement)
    ensures Some(Replay(v, Steps(previous, current, lineage, includeNoOps).value, requirement)) == ViewOf(current.snapshot, requirement)
  {
    SortedIdsAreDistinct(current.snapshot);
    StepsMoveView(SortedIds(current.snapshot), previous, current, lineage, includeNoOps, requirement, v);
  }

  /**
   Replaying an accepted stream from the first snapshot reconstructs the last one for every requirement: its relations,
   the evidence for and against it, and its state. This holds with and without the exact no-ops.
   */
  lemma {:induction false} ReplayReconstructs(points: seq<Point>, includeNoOps: bool, requirement: Text)
    requires |points| > 0 && StepsUpTo(points, includeNoOps).Ok?
    requires ViewOf(points[0].snapshot, requirement).Some?
    ensures var ts := StepsUpTo(points, includeNoOps).value;
            Some(Replay(ViewOf(points[0].snapshot, requirement).value, ts, requirement))
            == ViewOf(points[|points| - 1].snapshot, requirement)
  {
    if |points| > 1 {
      var n := |points| - 1;
      var v := ViewOf(points[0].snapshot, requirement).value;
      StepsUnfold(points, includeNoOps);
      ReplayReconstructs(points[..n], includeNoOps, requirement);
      var earlier := StepsUpTo(points[..n], includeNoOps).value;
      var steps := Steps(points[n - 1], points[n], points[0].lineage, includeNoOps).value;
      PointMovesView(points[n - 1], points[n], points[0].lineage, includeNoOps, requirement, Replay(v, earlier, requirement));
      ReplayConcat(v, earlier, steps, requirement);
    }
  }

  /** A transition names the two snapshots it lies between. */
  lemma TransitionNamesItsEnds(previous: Point, current: Point, requirement: Text, lineage: Lineage)
    requires DeriveTransition(previous.snapshot, current.snapshot, previous.index, current.index, requirement, lineage).Ok?
    ensures var t := DeriveTransition(previous.snapshot, current.snapshot, previous.index, current.index, requirement, lineage).value;
            var before, after := ViewOf(previous.snapshot, requirement), ViewOf(current.snapshot, requirement);
            && t.requirement == requirement && t.index == current.index
            && t.target == previous.snapshot.target == current.snapshot.target
            && (t.previousHash, t.previousStructural) == (previous.snapshot.hash, previous.snapshot.structural)
            && (t.currentHash, t.currentStructural) == (current.snapshot.hash, current.snapshot.structural)
            && before.Some? && t.previousState == before.value.state
            && after.Some? && t.currentState == after.value.state
            && t.addedRelations !! before.value.relations && t.removedRelations <= before.value.relations
  {
    DerivedRequirement(previous, current, requirement, lineage);
    TransitionMovesView(previous, current, requirement, lineage);
  }

  lemma {:induction false} StepsAreDerived(ids: seq<Text>, previous: Point, current: Point, lineage: Lineage, includeNoOps: bool, t: Transition)
    requires StepsFor(ids, previous, current, lineage, includeNoOps).Ok? && t in StepsFor(ids, previous, current, lineage, includeNoOps).value
    ensures DeriveTransition(previous.snapshot, current.snapshot, previous.index, current.index, t.requirement, lineage) == Ok(t)
  {
    var n := |ids| - 1;
    DerivedRequirement(previous, current, ids[n], lineage);
    if t in StepsFor(ids[..n], previous, current, lineage, includeNoOps).value {
      StepsAreDerived(ids[..n], previous, current, lineage, includeNoOps, t);
    }
  }

  ghost predicate DerivedAt(points: seq<Point>, k: nat, t: Transition) {
    && 1 <= k < |points|
    && var (p, c) := (points[k - 1], points[k]);
    DeriveTransition(p.snapshot, c.snapshot, p.index, c.index, t.requirement, points[0].lineage) == Ok(t)
  }

  lemma {:induction false} PairIsDerived(points: seq<Point>, k: nat, includeNoOps: bool, t: Transition)
    requires 1 <= k < |points|
    requires var steps := Steps(points[k - 1], points[k], points[0].lineage, includeNoOps); steps.Ok? && t in steps.value
    ensures DerivedAt(points, k, t)
  {
    StepsAreDerived(SortedIds(points[k].snapshot), points[k - 1], points[k], points[0].lineage, includeNoOps, t);
  }

  lemma {:induction false} DerivedInPrefix(points: seq<Point>, n: nat, k: nat, t: Transition)
    requires n <= |points| && DerivedAt(points[..n], k, t)
    ensures DerivedAt(points, k, t)
  {
  }

  /** Every transition of a stream is derived between two consecutive points. */
  lemma {:induction false} StreamIsDerived(points: seq<Point>, includeNoOps: bool, t: Transition) returns (k: nat)
    requires StepsUpTo(points, includeNoOps).Ok? && t in StepsUpTo(points, includeNoOps).value
    ensures DerivedAt(points, k, t)
  {
    var n := |points| - 1;
    StepsUnfold(points, includeNoOps);
    if t in StepsUpTo(points[..n], includeNoOps).value {
      k := StreamIsDerived(points[..n], includeNoOps, t);
      DerivedInPrefix(points, n, k, t);
    } else {
      k := n;
      PairIsDerived(points, n, includeNoOps, t);
    }
  }

  // ---------------------------------------------------------------------------------------------------
  // Which streams are accepted, and what leaving out no-ops leaves out
  // ---------------------------------------------------------------------------------------------------

  /** The current point may follow the previous one: the requirements are the same, with the same types. */
  ghost predicate Follows(first: Point, previous: Point, current: Point) {
    var p, c := previous.snapshot, current.snapshot;
    && c.target == first.snapshot.target && current.lineage == first.lineage && current.index == previous.index + 1
    && DistinctIds(p.requirements, RequirementId()) && DistinctIds(c.requirements, RequirementId())
    && Within(p.requirements, c.requirements) && Within(c.requirements, p.requirements)
    && (c.requirements != [] ==> DistinctIds(p.relations, RelationId()) && DistinctIds(c.relations, RelationId()))
  }

  /** The list has the requirement with the same type. */
  ghost predicate SameType(r: Requirement, requirements: seq<Requirement>) {
    exists q | q in requirements :: q.id == r.id && q.requirementType == r.requirementType
  }

  ghost predicate Within(a: seq<Requirement>, b: seq<Requirement>) {
    forall r {:trigger SameType(r, b)} | r in a :: SameType(r, b)
  }

  ghost predicate FollowsAt(points: seq<Point>, k: nat)
    requires 1 <= k < |points|
  {
    Follows(points[0], points[k - 1], points[k])
  }

  lemma {:induction false} StepsForAccepted(ids: seq<Text>, previous: Point, current: Point, lineage: Lineage, includeNoOps: bool)
    ensures StepsFor(ids, previous, current, lineage, includeNoOps).Ok? <==>
            forall id | id in ids ::
              DeriveTransition(previous.snapshot, current.snapshot, previous.index, current.index, id, lineage).Ok?
  {
    if ids != [] {
      var n := |ids| - 1;
      StepsForAccepted(ids[..n], previous, current, lineage, includeNoOps);
      assert ids == ids[..n] + [ids[n]];
    }
  }

  ghost predicate SameTypes(p: map<Text, Requirement>, c: map<Text, Requirement>) {
    forall id | id in p :: id in c && c[id].requirementType == p[id].requirementType
  }

  lemma WithinExactly(p: seq<Requirement>, c: seq<Requirement>)
    requires DistinctIds(p, RequirementId()) && DistinctIds(c, RequirementId())
    ensures Within(p, c) <==> SameTypes(ById(p, RequirementId()), ById(c, RequirementId()))
  {
    var pr, cr := ById(p, RequirementId()), ById(c, RequirementId());
    ByIdExact(p, RequirementId());
    ByIdExact(c, RequirementId());
    if SameTypes(pr, cr) {
      forall r | r in p ensures SameType(r, c) {
        LookedUp(p, r);
        assert cr[r.id] in c && cr[r.id].id == r.id;
      }
    }
    if Within(p, c) {
      forall id | id in pr ensures id in cr && cr[id].requirementType == pr[id].requirementType {
        assert SameType(pr[id], c);
        var q :| q in c && q.id == pr[id].id && q.requirementType == pr[id].requirementType;
        LookedUp(c, q);
      }
    }
  }

  lemma SameRequirements(p: seq<Requirement>, c: seq<Requirement>)
    requires DistinctIds(p, RequirementId()) && DistinctIds(c, RequirementId())
    ensures var pr, cr := ById(p, RequirementId()), ById(c, RequirementId());
            (pr.Keys == cr.Keys && SameTypes(pr, cr)) <==> (Within(p, c) && Within(c, p))
  {
    WithinExactly(p, c);
    WithinExactly(c, p);
  }

  lemma {:induction false} LookedUp(items: seq<Requirement>, r: Requirement)
    requires DistinctIds(items, RequirementId()) && r in items
    ensures r.id in ById(items, RequirementId()) && ById(items, RequirementId())[r.id] == r
  {
    ByIdExact(items, RequirementId());
    var i :| 0 <= i < |items| && items[i] == r;
    assert RequirementId()(items[i]) == r.id;
  }

  lemma {:induction false} DerivedExactly(previous: Point, current: Point, id: Text, lineage: Lineage)
    requires previous.Valid() && current.Valid() && lineage == previous.lineage == current.lineage
    requires current.index == previous.index + 1
    requires RequirementMap(previous.snapshot).Ok? && RequirementMap(current.snapshot).Ok?
    requires var pr, cr := RequirementMap(previous.snapshot).value, RequirementMap(current.snapshot).value;
             pr.Keys == cr.Keys && id in pr
    ensures var pr, cr := RequirementMap(previous.snapshot).value, RequirementMap(current.snapshot).value;
            DeriveTransition(previous.snapshot, current.snapshot, previous.index, current.index, id, lineage).Ok?
            <==> pr[id].requirementType == cr[id].requirementType
                 && RelationMap(previous.snapshot).Ok? && RelationMap(current.snapshot).Ok?
  {
  }

  lemma {:induction false} StepsAccepted(first: Point, previous: Point, current: Point, includeNoOps: bool)
    requires previous.Valid() && current.Valid() && previous.lineage == first.lineage && PairError(first, previous, current).None?
    ensures Steps(previous, current, first.lineage, includeNoOps).Ok? <==> Follows(first, previous, current)
  {
    var p, c := previous.snapshot, current.snapshot;
    if DistinctIds(p.requirements, RequirementId()) && DistinctIds(c.requirements, RequirementId()) {
      var pr, cr := RequirementMap(p).value, RequirementMap(c).value;
      SameRequirements(p.requirements, c.requirements);
      if pr.Keys == cr.Keys {
        SortedIdsAreDistinct(c);
        StepsForAccepted(SortedIds(c), previous, current, first.lineage, includeNoOps);
        forall id | id in SortedIds(c)
          ensures DeriveTransition(p, c, previous.index, current.index, id, first.lineage).Ok?
             <==> pr[id].requirementType == cr[id].requirementType && RelationMap(p).Ok? && RelationMap(c).Ok?
        {
          DerivedExactly(previous, current, id, first.lineage);
        }
        if c.requirements != [] {
          LookedUp(c.requirements, c.requirements[0]);
          assert c.requirements[0].id in SortedIds(c);
        }
      }
    }
  }

  ghost predicate AllFollow(points: seq<Point>) {
    forall k: nat | 1 <= k < |points| :: FollowsAt(points, k)
  }

  /** A stream is accepted exactly when it starts at zero and every point may follow its predecessor. */
  lemma {:induction false} AcceptedExactly(points: seq<Point>, includeNoOps: bool)
    requires forall p | p in points :: p.Valid()
    ensures Stream(points, includeNoOps).Ok? <==>
            |points| < 2 || (points[0].index == 0 && AllFollow(points))
  {
    if |points| >= 2 {
      PrefixAccepted(points, includeNoOps);
    }
  }

  lemma AllFollowStep(points: seq<Point>)
    requires |points| > 1
    ensures AllFollow(points) <==> AllFollow(points[..|points| - 1]) && FollowsAt(points, |points| - 1)
  {
    var n := |points| - 1;
    assert forall k: nat | 1 <= k < n :: FollowsAt(points[..n], k) <==> FollowsAt(points, k);
  }

  lemma {:induction false} PrefixAccepted(points: seq<Point>, includeNoOps: bool)
    requires |points| > 0 && forall p | p in points :: p.Valid()
    ensures OrderError(points).None? && StepsUpTo(points, includeNoOps).Ok? <==> AllFollow(points)
    ensures OrderError(points).None? ==> points[|points| - 1].lineage == points[0].lineage
  {
    if |points| > 1 {
      var n := |points| - 1;
      PrefixAccepted(points[..n], includeNoOps);
      AllFollowStep(points);
      StepsUnfold(points, includeNoOps);
      if OrderError(points).None? {
        StepsAccepted(points[0], points[n - 1], points[n], includeNoOps);
      }
      assert FollowsAt(points, n) ==> PairError(points[0], points[n - 1], points[n]).None?;
    }
  }

  function IsChange(): Transition -> bool {
    (t: Transition) => t.kind != ExactNoOp
  }

  lemma {:induction false} StepsForWithoutNoOps(ids: seq<Text>, previous: Point, current: Point, lineage: Lineage)
    requires StepsFor(ids, previous, current, lineage, true).Ok?
    ensures StepsFor(ids, previous, current, lineage, false)
         == Ok(Filter(StepsFor(ids, previous, current, lineage, true).value, IsChange()))
  {
    if ids != [] {
      var n := |ids| - 1;
      StepsForWithoutNoOps(ids[..n], previous, current, lineage);
      var all := StepsFor(ids, previous, current, lineage, true).value;
      assert all[..|all| - 1] == StepsFor(ids[..n], previous, current, lineage, true).value;
    }
  }

  /** Leaving out the exact no-ops leaves out nothing else. */
  lemma {:induction false} WithoutNoOps(points: seq<Point>)
    requires StepsUpTo(points, true).Ok?
    ensures StepsUpTo(points, false) == Ok(Filter(StepsUpTo(points, true).value, IsChange()))
  {
    if |points| > 1 {
      var n := |points| - 1;
      WithoutNoOps(points[..n]);
      var steps := Steps(points[n - 1], points[n], points[0].lineage, true).value;
      StepsForWithoutNoOps(SortedIds(points[n].snapshot), points[n - 1], points[n], points[0].lineage);
      FilterConcat(StepsUpTo(points[..n], true).value, steps, IsChange());
    }
  }
}
