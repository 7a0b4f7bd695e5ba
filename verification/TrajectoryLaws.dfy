/**
 What a transition between two relational snapshots says, told by the rows of the snapshots alone
 (backend/app/epistemic/trajectory.py).
 */
module TrajectoryLaws {
  import opened Wrappers
  import opened Numerals
  import opened Trajectory

  /** The snapshot belongs to the lineage, by its target and by all its versions. */
  ghost predicate BelongsTo(s: Snapshot, lineage: Lineage) {
    s.target == lineage.target && s.versions == lineage.versions
  }

  ghost predicate ListOnce(s: Snapshot) {
    forall i, j | 0 <= i < j < |s.requirements| :: s.requirements[i].id != s.requirements[j].id
  }

  ghost predicate RelateOnce(s: Snapshot) {
    forall i, j | 0 <= i < j < |s.relations| :: s.relations[i].id != s.relations[j].id
  }

  ghost predicate Requires(s: Snapshot, id: Text, requirementType: Text) {
    exists r :: r in s.requirements && r.id == id && r.requirementType == requirementType
  }

  ghost predicate ListTheSame(a: Snapshot, b: Snapshot) {
    && (forall r | r in a.requirements :: exists q :: q in b.requirements && q.id == r.id)
    && (forall r | r in b.requirements :: exists q :: q in a.requirements && q.id == r.id)
  }

  /** A point is sound exactly if it is not before the start and its snapshot belongs to its lineage. */
  lemma SoundPointExactly(p: Point)
    ensures p.Valid() <==> 0 <= p.index && BelongsTo(p.snapshot, p.lineage)
  {
  }

  lemma RequirementRows(s: Snapshot)
    requires DistinctIds(s.requirements, RequirementId())
    ensures forall id :: id in ById(s.requirements, RequirementId()) <==> exists r :: r in s.requirements && r.id == id
    ensures forall r | r in s.requirements :: r.id in ById(s.requirements, RequirementId()) && ById(s.requirements, RequirementId())[r.id] == r
    ensures forall id | id in ById(s.requirements, RequirementId()) ::
              ById(s.requirements, RequirementId())[id] in s.requirements && ById(s.requirements, RequirementId())[id].id == id
  {
    ByIdExact(s.requirements, RequirementId());
    forall r | r in s.requirements ensures r.id in ById(s.requirements, RequirementId()) && ById(s.requirements, RequirementId())[r.id] == r {
      var i :| 0 <= i < |s.requirements| && s.requirements[i] == r;
      assert RequirementId()(s.requirements[i]) == r.id;
    }
  }

  lemma ListTheSameExactly(a: Snapshot, b: Snapshot)
    requires DistinctIds(a.requirements, RequirementId()) && DistinctIds(b.requirements, RequirementId())
    ensures ById(a.requirements, RequirementId()).Keys == ById(b.requirements, RequirementId()).Keys <==> ListTheSame(a, b)
  {
    RequirementRows(a);
    RequirementRows(b);
    if ListTheSame(a, b) {
      assert forall id :: id in ById(a.requirements, RequirementId()) <==> id in ById(b.requirements, RequirementId());
    }
  }

  lemma OneRowExactly(s: Snapshot)
    ensures ListOnce(s) <==> DistinctIds(s.requirements, RequirementId())
    ensures RelateOnce(s) <==> DistinctIds(s.relations, RelationId())
  {
  }

  /** A transition is derived exactly between two later points of one lineage that list the same requirements, the asked one with one type. */
  lemma TransitionExactly(previous: Snapshot, current: Snapshot, previousIndex: int, index: int, requirement: Text, lineage: Lineage)
    ensures DeriveTransition(previous, current, previousIndex, index, requirement, lineage).Ok? <==>
              && 0 <= previousIndex < index && BelongsTo(previous, lineage) && BelongsTo(current, lineage)
              && ListOnce(previous) && RelateOnce(previous) && ListOnce(current) && RelateOnce(current) && ListTheSame(previous, current)
              && RequiredAlike(previous, current, requirement)
  {
    AcceptedByMaps(previous, current, previousIndex, index, requirement, lineage);
    RowsExactly(previous, current, requirement);
  }

  lemma AcceptedByMaps(previous: Snapshot, current: Snapshot, previousIndex: int, index: int, requirement: Text, lineage: Lineage)
    ensures var p, c := RequirementMap(previous), RequirementMap(current);
            DeriveTransition(previous, current, previousIndex, index, requirement, lineage).Ok? <==>
              && 0 <= previousIndex < index && BelongsTo(previous, lineage) && BelongsTo(current, lineage)
              && p.Ok? && c.Ok? && RelationMap(previous).Ok? && RelationMap(current).Ok?
              && p.value.Keys == c.value.Keys && requirement in p.value && requirement in c.value
              && p.value[requirement].requirementType == c.value[requirement].requirementType
  {
  }

  /** Both snapshots list the requirement, with one and the same type. */
  ghost predicate RequiredAlike(a: Snapshot, b: Snapshot, id: Text) {
    exists kind :: Requires(a, id, kind) && Requires(b, id, kind)
  }

  lemma RequiredAlikeExactly(a: Snapshot, b: Snapshot, id: Text)
    requires DistinctIds(a.requirements, RequirementId()) && DistinctIds(b.requirements, RequirementId())
    ensures var ar, br := ById(a.requirements, RequirementId()), ById(b.requirements, RequirementId());
            RequiredAlike(a, b, id)
            <==> id in ar && id in br && ar[id].requirementType == br[id].requirementType
  {
    RequirementRows(a);
    RequirementRows(b);
    var ar, br := ById(a.requirements, RequirementId()), ById(b.requirements, RequirementId());
    if id in ar && id in br && ar[id].requirementType == br[id].requirementType {
      assert Requires(a, id, ar[id].requirementType) && Requires(b, id, ar[id].requirementType);
    }
  }

  ghost predicate Asks(s: Snapshot, id: Text) {
    exists q :: q in s.requirements && q.id == id
  }

  /** The first violation is reported: the indices, the targets of the two snapshots, the target of the lineage, the versions. */
  lemma TransitionRefusals(previous: Snapshot, current: Snapshot, previousIndex: int, index: int, requirement: Text, lineage: Lineage)
    ensures var r := DeriveTransition(previous, current, previousIndex, index, requirement, lineage);
            var rises, sameTarget := 0 <= previousIndex < index, previous.target == current.target;
            && (r == Err(IndexNotIncreasing) <==> !rises)
            && (r == Err(CrossesTargets) <==> rises && !sameTarget)
            && (r == Err(LineageTargetMismatch) <==> rises && sameTarget && current.target != lineage.target)
            && (r == Err(LineageVersionMismatch) <==>
                  && rises && sameTarget && current.target == lineage.target
                  && !(previous.versions == current.versions == lineage.versions))
  {
  }

  /** The errors of the checks on rows, each made only where the ones before it passed. */
  ghost predicate RefusedBy(r: Result<Transition, Error>, once: bool, same: bool, asked: bool, alike: bool, related: bool) {
    && (r == Err(DuplicateRequirement) <==> !once)
    && (r == Err(UnstableRequirements) <==> once && !same)
    && (r == Err(UnknownRequirement) <==> same && !asked)
    && (r == Err(RequirementTypeChanged) <==> asked && !alike)
    && (r == Err(DuplicateRelation) <==> alike && !related)
  }

  /** Then the rows: repeated requirements, a changed list, the asked requirement and its type, repeated relations. */
  lemma RowRefusals(previous: Snapshot, current: Snapshot, previousIndex: int, index: int, requirement: Text, lineage: Lineage)
    requires 0 <= previousIndex < index && BelongsTo(previous, lineage) && BelongsTo(current, lineage)
    ensures var once := ListOnce(previous) && ListOnce(current);
            var same := once && ListTheSame(previous, current);
            var asked := same && Asks(previous, requirement);
            var alike := asked && RequiredAlike(previous, current, requirement);
            var related := RelateOnce(previous) && RelateOnce(current);
            RefusedBy(DeriveTransition(previous, current, previousIndex, index, requirement, lineage), once, same, asked, alike, related)
  {
    RefusedByMaps(previous, current, previousIndex, index, requirement, lineage);
    RowsExactly(previous, current, requirement);
  }

  /** The lookup maps of two snapshots, told by their rows. */
  lemma RowsExactly(a: Snapshot, b: Snapshot, id: Text)
    ensures var p, c := RequirementMap(a), RequirementMap(b);
            && (p.Ok? <==> ListOnce(a)) && (c.Ok? <==> ListOnce(b))
            && (RelationMap(a).Ok? <==> RelateOnce(a)) && (RelationMap(b).Ok? <==> RelateOnce(b))
            && (p.Ok? && c.Ok? ==>
                  && (p.value.Keys == c.value.Keys <==> ListTheSame(a, b))
                  && (id in p.value <==> Asks(a, id))
                  && (RequiredAlike(a, b, id) <==>
                        id in p.value && id in c.value && p.value[id].requirementType == c.value[id].requirementType))
  {
    OneRowExactly(a);
    OneRowExactly(b);
    if DistinctIds(a.requirements, RequirementId()) && DistinctIds(b.requirements, RequirementId()) {
      ListTheSameExactly(a, b);
      RequiredAlikeExactly(a, b, id);
      AskedExactly(a, id);
    }
  }

  lemma AskedExactly(s: Snapshot, id: Text)
    requires DistinctIds(s.requirements, RequirementId())
    ensures id in ById(s.requirements, RequirementId()) <==> Asks(s, id)
  {
    RequirementRows(s);
  }

  lemma RefusedByMaps(previous: Snapshot, current: Snapshot, previousIndex: int, index: int, requirement: Text, lineage: Lineage)
    requires 0 <= previousIndex < index && BelongsTo(previous, lineage) && BelongsTo(current, lineage)
    ensures var p, c := RequirementMap(previous), RequirementMap(current);
            var once := p.Ok? && c.Ok?;
            var same := once && p.value.Keys == c.value.Keys;
            var asked := same && requirement in p.value;
            var alike := asked && p.value[requirement].requirementType == c.value[requirement].requirementType;
            var related := RelationMap(previous).Ok? && RelationMap(current).Ok?;
            RefusedBy(DeriveTransition(previous, current, previousIndex, index, requirement, lineage), once, same, asked, alike, related)
  {
  }

  /** Some relation of the requirement has the identifier, or relates the evidence in the state. */
  ghost predicate Relates(s: Snapshot, requirement: Text, id: Text) {
    exists r :: r in s.relations && r.requirement == requirement && r.id == id
  }

  ghost predicate Judges(s: Snapshot, requirement: Text, evidence: Text, state: RelationState) {
    exists r :: r in s.relations && r.requirement == requirement && r.evidence == evidence && r.state == state
  }

  lemma LocalRows(s: Snapshot, requirement: Text)
    requires DistinctIds(s.relations, RelationId())
    ensures var local := Local(ById(s.relations, RelationId()), requirement);
            && (forall id :: id in local <==> Relates(s, requirement, id))
            && (forall r :: r in s.relations && r.requirement == requirement <==> r.id in local && local[r.id] == r)
  {
    ByIdExact(s.relations, RelationId());
    var all := ById(s.relations, RelationId());
    forall r | r in s.relations ensures r.id in all && all[r.id] == r {
      var i :| 0 <= i < |s.relations| && s.relations[i] == r;
      assert RelationId()(s.relations[i]) == r.id;
    }
    forall id | id in all ensures all[id] in s.relations && all[id].id == id {
      assert RelationId()(all[id]) == id;
    }
  }

  lemma EvidenceRows(s: Snapshot, requirement: Text, state: RelationState)
    requires DistinctIds(s.relations, RelationId())
    ensures forall x :: x in EvidenceFor(Local(ById(s.relations, RelationId()), requirement), state) <==> Judges(s, requirement, x, state)
  {
    LocalRows(s, requirement);
    var local := Local(ById(s.relations, RelationId()), requirement);
    forall x ensures x in EvidenceFor(local, state) <==> Judges(s, requirement, x, state) {
      if x in EvidenceFor(local, state) {
        var k :| k in local && local[k].state == state && local[k].evidence == x;
        assert local[k].id == k && local[k] in s.relations by {
          assert Relates(s, requirement, k);
          var r :| r in s.relations && r.requirement == requirement && r.id == k;
          assert local[r.id] == r;
        }
      }
      if r :| r in s.relations && r.requirement == requirement && r.evidence == x && r.state == state {
        assert r.id in local && local[r.id] == r;
      }
    }
  }

  /** The deltas of relations and of evidence for and against, in rows: what one snapshot has and the other lacks. */
  lemma DeltasFromRows(previous: Snapshot, current: Snapshot, previousIndex: int, index: int, requirement: Text, lineage: Lineage, x: Text)
    requires DeriveTransition(previous, current, previousIndex, index, requirement, lineage).Ok?
    ensures var t := DeriveTransition(previous, current, previousIndex, index, requirement, lineage).value;
            && (x in t.addedRelations <==> Relates(current, requirement, x) && !Relates(previous, requirement, x))
            && (x in t.removedRelations <==> Relates(previous, requirement, x) && !Relates(current, requirement, x))
            && (x in t.addedSupporting <==> Judges(current, requirement, x, Satisfies) && !Judges(previous, requirement, x, Satisfies))
            && (x in t.removedSupporting <==> Judges(previous, requirement, x, Satisfies) && !Judges(current, requirement, x, Satisfies))
            && (x in t.addedContradicting <==> Judges(current, requirement, x, Contradicts) && !Judges(previous, requirement, x, Contradicts))
            && (x in t.removedContradicting <==> Judges(previous, requirement, x, Contradicts) && !Judges(current, requirement, x, Contradicts))
  {
    LocalRows(previous, requirement);
    LocalRows(current, requirement);
    EvidenceRows(previous, requirement, Satisfies);
    EvidenceRows(current, requirement, Satisfies);
    EvidenceRows(previous, requirement, Contradicts);
    EvidenceRows(current, requirement, Contradicts);
  }

  /** The listed changes are the relations that kept their identifier and differ. */
  lemma ChangesFromRows(previous: Snapshot, current: Snapshot, previousIndex: int, index: int, requirement: Text, lineage: Lineage)
    requires DeriveTransition(previous, current, previousIndex, index, requirement, lineage).Ok?
    ensures var t := DeriveTransition(previous, current, previousIndex, index, requirement, lineage).value;
            && (forall a, b | a in previous.relations && b in current.relations && a.id == b.id && a.requirement == requirement == b.requirement ::
                  a != b <==> a.id in t.changes && t.changes[a.id] == (a, b))
            && (forall id | id in t.changes :: Relates(previous, requirement, id) && Relates(current, requirement, id))
  {
    LocalRows(previous, requirement);
    LocalRows(current, requirement);
    var was, now := Local(RelationMap(previous).value, requirement), Local(RelationMap(current).value, requirement);
    forall k | k in was && k in now ensures Signature(was[k]) != Signature(now[k]) <==> was[k] != now[k] {
      SignatureIsExact(was[k], now[k]);
    }
  }

  /** Nothing changed exactly if the state and the rows of the requirement are the same. */
  lemma NoOpFromRows(previous: Snapshot, current: Snapshot, previousIndex: int, index: int, requirement: Text, lineage: Lineage)
    requires DeriveTransition(previous, current, previousIndex, index, requirement, lineage).Ok?
    ensures var t := DeriveTransition(previous, current, previousIndex, index, requirement, lineage).value;
            && (t.kind == StateChange <==> t.previousState != t.currentState)
            && (t.kind == ExactNoOp <==>
                  && t.previousState == t.currentState
                  && forall r: Relation | r.requirement == requirement :: r in previous.relations <==> r in current.relations)
  {
    NoOpExactlyWhenNothingChanged(previous, current, previousIndex, index, requirement, lineage);
    SameLocalRows(previous, current, requirement);
  }

  /** The map of one snapshot agrees with that of another wherever it is defined, if the rows do. */
  lemma RowsCarryOver(a: Snapshot, b: Snapshot, requirement: Text, k: Text)
    requires DistinctIds(a.relations, RelationId()) && DistinctIds(b.relations, RelationId())
    requires forall r: Relation | r.requirement == requirement :: r in a.relations <==> r in b.relations
    requires k in Local(ById(a.relations, RelationId()), requirement)
    ensures k in Local(ById(b.relations, RelationId()), requirement)
    ensures Local(ById(b.relations, RelationId()), requirement)[k] == Local(ById(a.relations, RelationId()), requirement)[k]
  {
    LocalRows(a, requirement);
    LocalRows(b, requirement);
    assert Relates(a, requirement, k);
    var r :| r in a.relations && r.requirement == requirement && r.id == k;
  }

  lemma SameLocalRows(previous: Snapshot, current: Snapshot, requirement: Text)
    requires DistinctIds(previous.relations, RelationId()) && DistinctIds(current.relations, RelationId())
    ensures Local(ById(previous.relations, RelationId()), requirement) == Local(ById(current.relations, RelationId()), requirement)
            <==> forall r: Relation | r.requirement == requirement :: r in previous.relations <==> r in current.relations
  {
    var was, now := Local(ById(previous.relations, RelationId()), requirement), Local(ById(current.relations, RelationId()), requirement);
    if was == now {
      LocalRows(previous, requirement);
      LocalRows(current, requirement);
    } else if forall r: Relation | r.requirement == requirement :: r in previous.relations <==> r in current.relations {
      forall k | k in was ensures k in now && now[k] == was[k] {
        RowsCarryOver(previous, current, requirement, k);
      }
      forall k | k in now ensures k in was && was[k] == now[k] {
        RowsCarryOver(current, previous, requirement, k);
      }
    }
  }
}
