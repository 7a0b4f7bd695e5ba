/**
 What the relational evaluation means: which relations there are, what decides each state, and how the states move as
 evidence is added (backend/app/epistemic/evaluator.py).
 */
module EvaluatorLaws {
  import opened Wrappers
  import opened Ordering
  import opened Evaluator
  import CanonicalDecimals

  // ---------------------------------------------------------------------------------------------------
  // The relations are exactly the pairs
  // ---------------------------------------------------------------------------------------------------

  lemma {:induction false} RowsAt(target: Target, requirements: seq<Requirement>, eligible: seq<Evidence>, typed: map<Id, Typed>)
    ensures var rows := Rows(target, requirements, eligible, typed);
            && |rows| == |eligible| * |requirements|
            && forall r :: r in rows <==> exists e, q :: e in eligible && q in requirements && r == RelationOf(target, q, e, typed)
  {
    var rows := Rows(target, requirements, eligible, typed);
    if eligible != [] {
      var n := |eligible| - 1;
      RowsAt(target, requirements, eligible[..n], typed);
      OneMoreRow(n, |requirements|);
      assert eligible == eligible[..n] + [eligible[n]];
      forall r ensures r in rows <==> exists e, q :: e in eligible && q in requirements && r == RelationOf(target, q, e, typed) {
        RowsForAt(target, requirements, eligible[n], typed, r);
      }
    }
  }

  lemma RowsForAt(target: Target, requirements: seq<Requirement>, e: Evidence, typed: map<Id, Typed>, r: Relation)
    ensures r in RowsFor(target, requirements, e, typed) <==> exists q :: q in requirements && r == RelationOf(target, q, e, typed)
  {
    var rows := RowsFor(target, requirements, e, typed);
    if q :| q in requirements && r == RelationOf(target, q, e, typed) {
      var j :| 0 <= j < |requirements| && requirements[j] == q;
      assert rows[j] == r;
    }
    if r in rows {
      var j :| 0 <= j < |rows| && rows[j] == r;
      assert requirements[j] in requirements;
    }
  }

  lemma OneMoreRow(n: nat, m: nat)
    ensures n * m + m == (n + 1) * m
  {
  }

  lemma EligibleExactly(evidence: seq<Evidence>)
    ensures forall e :: e in Eligible(evidence) <==> e in evidence && e.admissibility != Rejected
  {
    FilterMembers(evidence, IsEligible());
    MultisetMembers(Filter(evidence, IsEligible()), Eligible(evidence));
  }

  /** Exactly one relation per pair of eligible evidence and requirement, and it is the judgement of that pair. */
  lemma RelationsAreThePairs(target: Target, requirements: seq<Requirement>, evidence: seq<Evidence>, typed: map<Id, Typed>)
    ensures var relations := Evaluate(target, requirements, evidence, typed).relations;
            && |relations| == |Filter(evidence, IsEligible())| * |requirements|
            && forall r :: r in relations <==>
                 exists e, q :: e in evidence && e.admissibility != Rejected && q in requirements && r == RelationOf(target, q, e, typed)
  {
    var ordered, eligible := SortBy(requirements, ByRequirementId), Eligible(evidence);
    RowsAt(target, ordered, eligible, typed);
    EligibleExactly(evidence);
    MultisetMembers(requirements, ordered);
  }

  // ---------------------------------------------------------------------------------------------------
  // Input order and rejected evidence are irrelevant
  // ---------------------------------------------------------------------------------------------------

  ghost predicate UniqueEvidence(evidence: seq<Evidence>) {
    forall x, y | x in evidence && y in evidence && x.id == y.id :: x == y
  }

  ghost predicate UniqueRequirements(requirements: seq<Requirement>) {
    forall x, y | x in requirements && y in requirements && x.id == y.id :: x == y
  }

  /** The evaluation depends only on which eligible evidence, requirements and typed observations there are. */
  lemma OnlyEligibleInputsMatter(target: Target, r1: seq<Requirement>, r2: seq<Requirement>, e1: seq<Evidence>, e2: seq<Evidence>,
                                 t1: map<Id, Typed>, t2: map<Id, Typed>)
    requires multiset(r1) == multiset(r2) && UniqueRequirements(r1)
    requires multiset(Filter(e1, IsEligible())) == multiset(Filter(e2, IsEligible())) && UniqueEvidence(Filter(e1, IsEligible()))
    requires forall e | e in e1 && e.admissibility != Rejected :: TypedOf(t1, e) == TypedOf(t2, e)
    ensures Evaluate(target, r1, e1, t1) == Evaluate(target, r2, e2, t2)
  {
    SortForgetsInputOrder(r1, r2, ByRequirementId);
    SortForgetsInputOrder(Filter(e1, IsEligible()), Filter(e2, IsEligible()), ByEvidenceId);
    EligibleExactly(e1);
    SameTypedSameRows(target, SortBy(r1, ByRequirementId), Eligible(e1), t1, t2);
    SameTypedSameLimitations(target, SortBy(r1, ByRequirementId), Eligible(e1), t1, t2);
  }

  lemma {:induction false} SameTypedSameRows(target: Target, requirements: seq<Requirement>, eligible: seq<Evidence>,
                                             t1: map<Id, Typed>, t2: map<Id, Typed>)
    requires forall e | e in eligible :: TypedOf(t1, e) == TypedOf(t2, e)
    ensures Rows(target, requirements, eligible, t1) == Rows(target, requirements, eligible, t2)
  {
    if eligible != [] {
      var n := |eligible| - 1;
      assert eligible == eligible[..n] + [eligible[n]];
      SameTypedSameRows(target, requirements, eligible[..n], t1, t2);
      assert RowsFor(target, requirements, eligible[n], t1) == RowsFor(target, requirements, eligible[n], t2);
    }
  }

  lemma SameTypedSameLimitations(target: Target, requirements: seq<Requirement>, eligible: seq<Evidence>,
                                 t1: map<Id, Typed>, t2: map<Id, Typed>)
    requires forall e | e in eligible :: TypedOf(t1, e) == TypedOf(t2, e)
    ensures LimitationsOf(target, requirements, eligible, t1) == LimitationsOf(target, requirements, eligible, t2)
  {
    forall e | e in eligible ensures LimitationsFor(target, requirements, e, t1) == LimitationsFor(target, requirements, e, t2) {
      assert forall r :: Judge(target, r, e, t1) == Judge(target, r, e, t2);
    }
  }

  // ---------------------------------------------------------------------------------------------------
  // What the states mean
  // ---------------------------------------------------------------------------------------------------

  /** Some eligible evidence has the relation to the requirement. */
  ghost predicate Related(target: Target, r: Requirement, evidence: seq<Evidence>, typed: map<Id, Typed>, s: RelationState) {
    exists e :: e in evidence && e.admissibility != Rejected && Judge(target, r, e, typed).state == s
  }

  ghost function StateOf(target: Target, r: Requirement, evidence: seq<Evidence>, typed: map<Id, Typed>): RequirementState {
    if Related(target, r, evidence, typed, Contradicts) then IsContradicted
    else if Related(target, r, evidence, typed, Satisfies) then IsSatisfied
    else IsUnresolved
  }

  lemma RelationsOfState(rows: seq<Relation>, requirement: Id, s: RelationState)
    ensures var related := SortBy(Filter(rows, About(requirement)), ByEvidence);
            IdsOf(Filter(related, InState(s))) != [] <==> exists r :: r in rows && r.id.requirement == requirement && r.state == s
  {
    var related := SortBy(Filter(rows, About(requirement)), ByEvidence);
    FilterMembers(rows, About(requirement));
    MultisetMembers(Filter(rows, About(requirement)), related);
    FilterMembers(related, InState(s));
    var chosen := Filter(related, InState(s));
    if chosen != [] {
      assert chosen[0] in chosen;
    }
  }

  lemma RowsRelate(target: Target, requirements: seq<Requirement>, evidence: seq<Evidence>, typed: map<Id, Typed>, q: Requirement, s: RelationState)
    requires UniqueRequirements(requirements) && q in requirements
    ensures var rows := Evaluate(target, requirements, evidence, typed).relations;
            (exists r :: r in rows && r.id.requirement == q.id && r.state == s) <==> Related(target, q, evidence, typed, s)
  {
    RelationsAreThePairs(target, requirements, evidence, typed);
    var rows := Evaluate(target, requirements, evidence, typed).relations;
    if r :| r in rows && r.id.requirement == q.id && r.state == s {
      var e, p :| e in evidence && e.admissibility != Rejected && p in requirements && r == RelationOf(target, p, e, typed);
      assert p == q;
    }
    if Related(target, q, evidence, typed, s) {
      var e :| e in evidence && e.admissibility != Rejected && Judge(target, q, e, typed).state == s;
      assert RelationOf(target, q, e, typed) in rows;
    }
  }

  /** The loop folds the relations of each requirement into the state they mean. */
  lemma ResultsMeanTheirStates(target: Target, requirements: seq<Requirement>, evidence: seq<Evidence>, typed: map<Id, Typed>)
    requires UniqueRequirements(requirements)
    ensures var results, ordered := Evaluate(target, requirements, evidence, typed).results, SortBy(requirements, ByRequirementId);
            && |results| == |ordered|
            && forall i | 0 <= i < |results| ::
                 && results[i].requirement == ordered[i].id && results[i].requirementType == ordered[i].requirementType
                 && results[i].required == ordered[i].required && results[i].state == StateOf(target, ordered[i], evidence, typed)
  {
    var ordered := SortBy(requirements, ByRequirementId);
    var evaluation := Evaluate(target, requirements, evidence, typed);
    MultisetMembers(requirements, ordered);
    forall i | 0 <= i < |ordered| ensures evaluation.results[i].state == StateOf(target, ordered[i], evidence, typed) {
      assert ordered[i] in ordered;
      ResultMeansItsState(target, requirements, evidence, typed, ordered[i]);
    }
  }

  lemma ResultMeansItsState(target: Target, requirements: seq<Requirement>, evidence: seq<Evidence>, typed: map<Id, Typed>, q: Requirement)
    requires UniqueRequirements(requirements) && q in requirements
    ensures ResultOf(q, Filter(Evaluate(target, requirements, evidence, typed).relations, About(q.id))).state == StateOf(target, q, evidence, typed)
  {
    ListedExactly(target, requirements, evidence, typed, q, Contradicts);
    ListedExactly(target, requirements, evidence, typed, q, Satisfies);
  }

  /** The requirement's list for a state is not empty exactly if some evidence is related to it in that state. */
  lemma ListedExactly(target: Target, requirements: seq<Requirement>, evidence: seq<Evidence>, typed: map<Id, Typed>, q: Requirement, s: RelationState)
    requires UniqueRequirements(requirements) && q in requirements
    ensures IdsOf(Filter(SortBy(Filter(Evaluate(target, requirements, evidence, typed).relations, About(q.id)), ByEvidence), InState(s))) != []
            <==> Related(target, q, evidence, typed, s)
  {
    RelationsOfState(Evaluate(target, requirements, evidence, typed).relations, q.id, s);
    RowsRelate(target, requirements, evidence, typed, q, s);
  }

  lemma IdsListed(rows: seq<Relation>, id: RelationId)
    ensures id in IdsOf(rows) <==> exists r :: r in rows && r.id == id
  {
    var ids := IdsOf(rows);
    if id in ids {
      var i :| 0 <= i < |ids| && ids[i] == id;
      assert rows[i] in rows;
    }
    if r :| r in rows && r.id == id {
      var i :| 0 <= i < |rows| && rows[i] == r;
      assert ids[i] == id;
    }
  }

  /** Each of the four lists of a result holds exactly the relations in its state, and together they hold every relation once. */
  lemma ResultListsPartition(r: Requirement, relations: seq<Relation>, id: RelationId)
    ensures var result := ResultOf(r, relations);
            && (id in result.supporting <==> exists x :: x in relations && x.id == id && x.state == Satisfies)
            && (id in result.contradicting <==> exists x :: x in relations && x.id == id && x.state == Contradicts)
            && (id in result.unresolved <==> exists x :: x in relations && x.id == id && x.state == Unresolved)
            && (id in result.notApplicable <==> exists x :: x in relations && x.id == id && x.state == NotApplicable)
            && |result.supporting| + |result.contradicting| + |result.unresolved| + |result.notApplicable| == |relations|
  {
    var related := SortBy(relations, ByEvidence);
    MultisetMembers(relations, related);
    StatesListed(related, id, Satisfies);
    StatesListed(related, id, Contradicts);
    StatesListed(related, id, Unresolved);
    StatesListed(related, id, NotApplicable);
    StatesPartition(related);
  }

  lemma StatesListed(related: seq<Relation>, id: RelationId, s: RelationState)
    ensures id in IdsOf(Filter(related, InState(s))) <==> exists x :: x in related && x.id == id && x.state == s
  {
    IdsListed(Filter(related, InState(s)), id);
    FilterMembers(related, InState(s));
  }

  lemma {:induction false} StatesPartition(related: seq<Relation>)
    ensures |Filter(related, InState(Satisfies))| + |Filter(related, InState(Contradicts))|
            + |Filter(related, InState(Unresolved))| + |Filter(related, InState(NotApplicable))| == |related|
  {
    if related != [] {
      StatesPartition(related[..|related| - 1]);
    }
  }

  /** The contradictions are reported for exactly the results that list contradicting relations. */
  lemma {:induction false} ContradictionsExactly(results: seq<RequirementResult>, c: Contradiction)
    ensures c in ContradictionsOf(results) <==>
            exists r :: r in results && r.contradicting != [] && c == Contradiction(r.requirement, r.supporting, r.contradicting)
  {
    if results != [] {
      var n := |results| - 1;
      ContradictionsExactly(results[..n], c);
      assert results == results[..n] + [results[n]];
    }
  }

  ghost predicate SomeRequired(target: Target, requirements: seq<Requirement>, evidence: seq<Evidence>, typed: map<Id, Typed>,
                               s: RequirementState)
  {
    exists r :: r in requirements && r.required && StateOf(target, r, evidence, typed) == s
  }

  /** The structural state, told by the required requirements alone. */
  lemma StructuralMeans(target: Target, requirements: seq<Requirement>, evidence: seq<Evidence>, typed: map<Id, Typed>)
    requires UniqueRequirements(requirements)
    ensures Evaluate(target, requirements, evidence, typed).structural ==
            if SomeRequired(target, requirements, evidence, typed, IsContradicted) then Contradicted
            else if SomeRequired(target, requirements, evidence, typed, IsUnresolved) then Incomplete
            else Complete
  {
    ResultsMeanTheirStates(target, requirements, evidence, typed);
    RequiredMeans(target, requirements, evidence, typed, IsContradicted);
    RequiredMeans(target, requirements, evidence, typed, IsUnresolved);
  }

  lemma RequiredMeans(target: Target, requirements: seq<Requirement>, evidence: seq<Evidence>, typed: map<Id, Typed>, s: RequirementState)
    requires UniqueRequirements(requirements)
    ensures RequiredIn(Evaluate(target, requirements, evidence, typed).results, s) <==> SomeRequired(target, requirements, evidence, typed, s)
  {
    var results, ordered := Evaluate(target, requirements, evidence, typed).results, SortBy(requirements, ByRequirementId);
    ResultsMeanTheirStates(target, requirements, evidence, typed);
    MultisetMembers(requirements, ordered);
    RequiredInOrdered(target, requirements, ordered, evidence, typed, results, s);
  }

  lemma RequiredInOrdered(target: Target, requirements: seq<Requirement>, ordered: seq<Requirement>, evidence: seq<Evidence>,
                          typed: map<Id, Typed>, results: seq<RequirementResult>, s: RequirementState)
    requires |results| == |ordered| && forall r :: r in requirements <==> r in ordered
    requires forall i | 0 <= i < |results| ::
               results[i].required == ordered[i].required && results[i].state == StateOf(target, ordered[i], evidence, typed)
    ensures RequiredIn(results, s) <==> SomeRequired(target, requirements, evidence, typed, s)
  {
    if RequiredIn(results, s) {
      var i :| 0 <= i < |results| && results[i].required && results[i].state == s;
      assert ordered[i] in ordered;
    }
    if r :| r in requirements && r.required && StateOf(target, r, evidence, typed) == s {
      var i :| 0 <= i < |ordered| && ordered[i] == r;
      assert results[i].required && results[i].state == s;
    }
  }

  // ---------------------------------------------------------------------------------------------------
  // Contradiction and completeness, end to end
  // ---------------------------------------------------------------------------------------------------

  /** The evidence may speak about the target: not rejected, of a compatible intent, with an observation of the known schema. */
  ghost predicate Speaks(e: Evidence, typed: map<Id, Typed>) {
    && e.admissibility != Rejected
    && (e.sourceIntent.Some? ==> e.sourceIntent.value == CryptoPrice)
    && TypedOf(typed, e).Some? && TypedOf(typed, e).value.supportedSchema
  }

  /** The evidence names another asset or currency than the target, and both are given. */
  ghost predicate Mismatches(target: Target, r: Requirement, e: Evidence, typed: map<Id, Typed>) {
    && Speaks(e, typed) && IdentityField(r.requirementType).Some?
    && var f := IdentityField(r.requirementType).value;
    && TargetValue(target.At(f)).Some?
    && TypedOf(typed, e).value.At(f) != ""
    && TypedOf(typed, e).value.At(f) != TargetValue(target.At(f)).value
  }

  /** The evidence settles the requirement: the identity agrees, the price is a finite number, or the age is within the limit. */
  ghost predicate Settles(target: Target, r: Requirement, e: Evidence, typed: map<Id, Typed>) {
    && Speaks(e, typed)
    && var t := TypedOf(typed, e).value;
    match r.requirementType
    case IdentityOf(f) => TargetValue(target.At(f)) == Some(t.At(f))
    case PlainField(f) => TargetValue(target.At(f)) == Some(t.At(f))
    case PriceValue => t.price.Some? && t.price.value.Finite?
    case PlainPrice => t.price.Some? && t.price.value.Finite?
    case TemporalApplicability =>
      && r.maxAge.Some? && r.maxAge.value >= 0 && target.asOf.Some? && t.observedAt.Some?
      && -r.maxAge.value * SECOND <= target.asOf.value - t.observedAt.value <= r.maxAge.value * SECOND
    case OtherType => false
  }

  /** One relation contradicts or satisfies exactly for these reasons; a price or an old observation never contradicts. */
  lemma JudgedExactly(target: Target, r: Requirement, e: Evidence, typed: map<Id, Typed>)
    requires e.admissibility != Rejected
    ensures Judge(target, r, e, typed).state == Contradicts <==> Mismatches(target, r, e, typed)
    ensures Judge(target, r, e, typed).state == Satisfies <==> Settles(target, r, e, typed)
  {
    if r.requirementType.TemporalApplicability? && r.maxAge.Some? && r.maxAge.value >= 0 {
      assert -r.maxAge.value * SECOND == -(r.maxAge.value * SECOND);
    }
  }

  /** The evidence was gathered for this intent, or for none in particular. */
  ghost predicate Compatible(e: Evidence) {
    forall intent | e.sourceIntent == Some(intent) :: intent == CryptoPrice
  }

  ghost predicate AsksForIdentity(r: Requirement, f: Field) {
    r.requirementType == IdentityOf(f) || r.requirementType == PlainField(f)
  }

  ghost predicate AsksForPrice(r: Requirement) {
    r.requirementType == PriceValue || r.requirementType == PlainPrice
  }

  ghost predicate HasWindow(r: Requirement, seconds: int) {
    r.requirementType == TemporalApplicability && r.maxAge == Some(seconds) && seconds >= 0
  }

  /** What each basis says of the pair, and the state and the limitations it carries. */
  ghost predicate Explains(target: Target, r: Requirement, e: Evidence, typed: map<Id, Typed>, j: Judgement) {
    if j.basis.IntentNotApplicable? then
      e.sourceIntent == Some(j.basis.intent) && j.basis.intent != CryptoPrice && j == Judgement(NotApplicable, j.basis, {})
    else if j.basis == TypedUnavailable then
      Compatible(e) && e.id !in typed && j == Judgement(Unresolved, j.basis, {UnspecifiedContractCase})
    else if j.basis == UnsupportedSchema then
      Compatible(e) && e.id in typed && !typed[e.id].supportedSchema && j == Judgement(Unresolved, j.basis, {UnspecifiedContractCase})
    else
      Compatible(e) && e.id in typed && typed[e.id].supportedSchema && Answers(target, r, typed[e.id], j)
  }

  /** The same for a typed observation of the known schema. */
  ghost predicate Answers(target: Target, r: Requirement, t: Typed, j: Judgement) {
    match j.basis
    case MissingDatum(f) =>
      && AsksForIdentity(r, f) && j == Judgement(Unresolved, j.basis, {MissingRequiredDatum})
      && (t.At(f) == "" || target.At(f) == Absent || target.At(f) == NotText || target.At(f) == OfText(""))
    case FieldMatch(f, expected, observed) =>
      && AsksForIdentity(r, f) && j == Judgement(Satisfies, j.basis, {})
      && target.At(f) == OfText(expected) && t.At(f) == observed == expected && expected != ""
    case FieldMismatch(f, expected, observed) =>
      && AsksForIdentity(r, f) && j == Judgement(Contradicts, j.basis, {})
      && target.At(f) == OfText(expected) && expected != "" && t.At(f) == observed && observed != "" && observed != expected
    case InvalidValue =>
      && AsksForPrice(r) && j == Judgement(Unresolved, j.basis, {MissingRequiredDatum})
      && (t.price.None? || t.price.value.NonFinite?)
    case ValuePresent(text) =>
      && AsksForPrice(r) && j == Judgement(Satisfies, j.basis, {})
      && t.price.Some? && CanonicalDecimals.CanonicalDecimal(t.price.value) == Ok(text)
    case WindowRequired =>
      && r.requirementType == TemporalApplicability && j == Judgement(Unresolved, j.basis, {TemporalWindowUnresolved})
      && !exists seconds :: HasWindow(r, seconds)
    case TimestampUnavailable =>
      && (exists seconds :: HasWindow(r, seconds)) && j == Judgement(Unresolved, j.basis, {TemporalWindowUnresolved})
      && (target.asOf.None? || t.observedAt.None?)
    case OutsideWindow(asOf, at, seconds) =>
      && HasWindow(r, seconds) && target.asOf == Some(asOf) && t.observedAt == Some(at)
      && j == Judgement(NotApplicable, j.basis, {})
      && (asOf < at - seconds * 1_000_000 || at + seconds * 1_000_000 < asOf)
    case InsideWindow(asOf, at, seconds) =>
      && HasWindow(r, seconds) && target.asOf == Some(asOf) && t.observedAt == Some(at)
      && j == Judgement(Satisfies, j.basis, {})
      && at - seconds * 1_000_000 <= asOf <= at + seconds * 1_000_000
    case UnsupportedRequirement => r.requirementType == OtherType && j == Judgement(Unresolved, j.basis, {UnspecifiedContractCase})
    case _ => false
  }

  /** The judgement of a pair is the one whose basis holds of it. */
  lemma JudgedFor(target: Target, r: Requirement, e: Evidence, typed: map<Id, Typed>)
    ensures Explains(target, r, e, typed, Judge(target, r, e, typed))
  {
    if e.sourceIntent.Some? {
      assert e.sourceIntent == Some(e.sourceIntent.value);
    }
    if e.id in typed && typed[e.id].supportedSchema && Compatible(e) {
      AnsweredFor(target, r, typed[e.id]);
    }
  }

  lemma AnsweredFor(target: Target, r: Requirement, t: Typed)
    requires t.supportedSchema
    ensures Answers(target, r, t, JudgeValueFeed(target, r, Some(t)))
  {
    if r.maxAge.Some? && r.maxAge.value >= 0 && r.requirementType.TemporalApplicability? {
      assert HasWindow(r, r.maxAge.value);
    }
  }

  lemma OneAnswer(target: Target, r: Requirement, t: Typed, j: Judgement)
    requires t.supportedSchema && Answers(target, r, t, j)
    ensures j == JudgeValueFeed(target, r, Some(t))
  {
    if r.requirementType.TemporalApplicability? && r.maxAge.Some? && r.maxAge.value >= 0 {
      assert HasWindow(r, r.maxAge.value);
    }
  }

  /** And there is no other. */
  lemma JudgedForExactly(target: Target, r: Requirement, e: Evidence, typed: map<Id, Typed>, j: Judgement)
    ensures Judge(target, r, e, typed) == j <==> Explains(target, r, e, typed, j)
  {
    JudgedFor(target, r, e, typed);
    if Explains(target, r, e, typed, j) && e.id in typed && typed[e.id].supportedSchema && Compatible(e) && !j.basis.IntentNotApplicable? {
      OneAnswer(target, r, typed[e.id], j);
    }
  }

  /** A relation is named after its target, requirement and evidence, and carries state and basis of their judgement. */
  lemma RelationNamesThePair(target: Target, r: Requirement, e: Evidence, typed: map<Id, Typed>)
    ensures var x := RelationOf(target, r, e, typed);
            && x.id.target == target.id && x.id.requirement == r.id && x.id.evidence == e.id
            && exists limitations :: Explains(target, r, e, typed, Judgement(x.state, x.basis, limitations))
  {
    JudgedFor(target, r, e, typed);
    var j := Judge(target, r, e, typed);
    assert j == Judgement(j.state, j.basis, j.limitations);
  }

  /** A limitation is reported exactly if the judgement of some pair carries it; the sources are the eligible evidence, sorted. */
  lemma LimitationsExactly(target: Target, requirements: seq<Requirement>, evidence: seq<Evidence>, typed: map<Id, Typed>, l: Limitation)
    ensures l in Evaluate(target, requirements, evidence, typed).limitations <==>
            exists e, r, j :: e in evidence && e.admissibility != Rejected && r in requirements && Explains(target, r, e, typed, j) && l in j.limitations
    ensures forall id :: id in Evaluate(target, requirements, evidence, typed).sources <==>
            exists e :: e in evidence && e.admissibility != Rejected && e.id == id
  {
    EligibleExactly(evidence);
    MultisetMembers(requirements, SortBy(requirements, ByRequirementId));
    var evaluation, eligible := Evaluate(target, requirements, evidence, typed), Eligible(evidence);
    if l in evaluation.limitations {
      var e, r :| e in eligible && r in SortBy(requirements, ByRequirementId) && l in Judge(target, r, e, typed).limitations;
      JudgedFor(target, r, e, typed);
    }
    if e, r, j :| e in evidence && e.admissibility != Rejected && r in requirements && Explains(target, r, e, typed, j) && l in j.limitations {
      JudgedForExactly(target, r, e, typed, j);
      assert l in LimitationsFor(target, SortBy(requirements, ByRequirementId), e, typed);
    }
    SourcesExactly(eligible);
  }

  lemma SourcesExactly(eligible: seq<Evidence>)
    ensures forall id :: id in SourcesOf(eligible) <==> exists e :: e in eligible && e.id == id
  {
    forall id ensures id in SourcesOf(eligible) <==> exists e :: e in eligible && e.id == id {
      if id in SourcesOf(eligible) {
        var i :| 0 <= i < |eligible| && SourcesOf(eligible)[i] == id;
        assert eligible[i] in eligible;
      }
      if e :| e in eligible && e.id == id {
        var i :| 0 <= i < |eligible| && eligible[i] == e;
        assert SourcesOf(eligible)[i] == id;
      }
    }
  }

  lemma SatisfiedExactly(target: Target, r: Requirement, evidence: seq<Evidence>, typed: map<Id, Typed>)
    ensures Related(target, r, evidence, typed, Contradicts) <==> exists e :: e in evidence && Mismatches(target, r, e, typed)
    ensures Related(target, r, evidence, typed, Satisfies) <==> exists e :: e in evidence && Settles(target, r, e, typed)
  {
    forall e | e in evidence && e.admissibility != Rejected
      ensures Judge(target, r, e, typed).state == Contradicts <==> Mismatches(target, r, e, typed)
      ensures Judge(target, r, e, typed).state == Satisfies <==> Settles(target, r, e, typed)
    {
      JudgedExactly(target, r, e, typed);
    }
  }

  /** The target is contradicted exactly when eligible evidence names another identity for a required identity requirement. */
  lemma ContradictedExactly(target: Target, requirements: seq<Requirement>, evidence: seq<Evidence>, typed: map<Id, Typed>)
    requires UniqueRequirements(requirements)
    ensures Evaluate(target, requirements, evidence, typed).structural == Contradicted <==>
            exists r, e :: r in requirements && r.required && e in evidence && Mismatches(target, r, e, typed)
  {
    StructuralMeans(target, requirements, evidence, typed);
    if r, e :| r in requirements && r.required && e in evidence && Mismatches(target, r, e, typed) {
      SatisfiedExactly(target, r, evidence, typed);
      assert StateOf(target, r, evidence, typed) == IsContradicted;
    }
    if SomeRequired(target, requirements, evidence, typed, IsContradicted) {
      var r :| r in requirements && r.required && StateOf(target, r, evidence, typed) == IsContradicted;
      SatisfiedExactly(target, r, evidence, typed);
    }
  }

  /** The evaluation is complete exactly when every required requirement is settled by some evidence and contradicted by none. */
  lemma CompleteExactly(target: Target, requirements: seq<Requirement>, evidence: seq<Evidence>, typed: map<Id, Typed>)
    requires UniqueRequirements(requirements)
    ensures Evaluate(target, requirements, evidence, typed).structural == Complete <==>
            forall r | r in requirements && r.required ::
              (exists e :: e in evidence && Settles(target, r, e, typed)) && !(exists e :: e in evidence && Mismatches(target, r, e, typed))
  {
    StructuralMeans(target, requirements, evidence, typed);
    forall r | r in requirements && r.required
      ensures StateOf(target, r, evidence, typed) == IsSatisfied <==>
              (exists e :: e in evidence && Settles(target, r, e, typed)) && !(exists e :: e in evidence && Mismatches(target, r, e, typed))
    {
      SatisfiedExactly(target, r, evidence, typed);
    }
  }

  // ---------------------------------------------------------------------------------------------------
  // More evidence only moves the state up
  // ---------------------------------------------------------------------------------------------------

  function Rank(s: StructuralState): nat {
    match s
    case Incomplete => 0
    case Complete => 1
    case Contradicted => 2
  }

  /** Further evidence, with the earlier observations unchanged. */
  ghost predicate Grows(e1: seq<Evidence>, t1: map<Id, Typed>, e2: seq<Evidence>, t2: map<Id, Typed>) {
    forall e | e in e1 && e.admissibility != Rejected :: e in e2 && TypedOf(t1, e) == TypedOf(t2, e)
  }

  lemma RelatedGrows(target: Target, r: Requirement, e1: seq<Evidence>, t1: map<Id, Typed>, e2: seq<Evidence>, t2: map<Id, Typed>, s: RelationState)
    requires Grows(e1, t1, e2, t2) && Related(target, r, e1, t1, s)
    ensures Related(target, r, e2, t2, s)
  {
    var e :| e in e1 && e.admissibility != Rejected && Judge(target, r, e, t1).state == s;
    assert Judge(target, r, e, t2).state == s;
  }

  /** More evidence moves the state of a requirement only up, from unresolved to satisfied to contradicted. */
  lemma StateGrows(target: Target, r: Requirement, e1: seq<Evidence>, t1: map<Id, Typed>, e2: seq<Evidence>, t2: map<Id, Typed>)
    requires Grows(e1, t1, e2, t2)
    ensures StateOf(target, r, e1, t1) == IsContradicted ==> StateOf(target, r, e2, t2) == IsContradicted
    ensures StateOf(target, r, e2, t2) == IsUnresolved ==> StateOf(target, r, e1, t1) == IsUnresolved
  {
    if Related(target, r, e1, t1, Contradicts) {
      RelatedGrows(target, r, e1, t1, e2, t2, Contradicts);
    }
    if Related(target, r, e1, t1, Satisfies) {
      RelatedGrows(target, r, e1, t1, e2, t2, Satisfies);
    }
  }

  lemma SomeRequiredGrows(target: Target, requirements: seq<Requirement>, e1: seq<Evidence>, t1: map<Id, Typed>,
                          e2: seq<Evidence>, t2: map<Id, Typed>)
    requires Grows(e1, t1, e2, t2)
    ensures SomeRequired(target, requirements, e1, t1, IsContradicted) ==> SomeRequired(target, requirements, e2, t2, IsContradicted)
    ensures SomeRequired(target, requirements, e2, t2, IsUnresolved) ==> SomeRequired(target, requirements, e1, t1, IsUnresolved)
  {
    if r :| r in requirements && r.required && StateOf(target, r, e1, t1) == IsContradicted {
      StateGrows(target, r, e1, t1, e2, t2);
    }
    if r :| r in requirements && r.required && StateOf(target, r, e2, t2) == IsUnresolved {
      StateGrows(target, r, e1, t1, e2, t2);
    }
  }

  /** More evidence moves the structural state only up, from incomplete to complete to contradicted, where it stays. */
  lemma MoreEvidenceOnlyMovesUp(target: Target, requirements: seq<Requirement>, e1: seq<Evidence>, t1: map<Id, Typed>,
                                e2: seq<Evidence>, t2: map<Id, Typed>)
    requires UniqueRequirements(requirements) && Grows(e1, t1, e2, t2)
    ensures Rank(Evaluate(target, requirements, e1, t1).structural) <= Rank(Evaluate(target, requirements, e2, t2).structural)
  {
    StructuralMeans(target, requirements, e1, t1);
    StructuralMeans(target, requirements, e2, t2);
    SomeRequiredGrows(target, requirements, e1, t1, e2, t2);
  }
}
