/**
 The relational evaluation of a CRYPTO_PRICE target (backend/app/epistemic/evaluator.py): every eligible piece of
 evidence is related to every requirement, and the relations are folded into a state per requirement and one overall.

 Identifiers are numbers; a relation identifier, which the source derives by hashing, is the triple it is derived from.
 Times are microseconds since the epoch; a timestamp that cannot be parsed or has no zone is absent.
 */
module Evaluator {
  import opened Wrappers
  import opened Ordering
  import CanonicalDecimals
  import Numerals

  type Id = nat
  type Time = int

  const SECOND: int := 1_000_000

  datatype Field = Asset | QuoteCurrency

  /** Identity and value requirements have a canonical name and an older plain one. */
  datatype RequirementType =
    | IdentityOf(field: Field)
    | PlainField(field: Field)
    | PriceValue
    | PlainPrice
    | TemporalApplicability
    | OtherType

  datatype Parameter = Absent | NotText | OfText(text: string)

  datatype Target = Target(id: Id, asset: Parameter, quoteCurrency: Parameter, asOf: Option<Time>) {
    function At(f: Field): Parameter {
      match f
      case Asset => asset
      case QuoteCurrency => quoteCurrency
    }
  }

  /** The age limit is absent unless it is given as an integer. */
  datatype Requirement = Requirement(id: Id, requirementType: RequirementType, required: bool, maxAge: Option<int>)

  datatype Admissibility = Admitted | Limited | Rejected

  datatype Intent = CryptoPrice | OtherIntent(name: string)

  datatype Evidence = Evidence(id: Id, admissibility: Admissibility, sourceIntent: Option<Intent>)

  /** The typed observation; the price is absent if it is no exact number. */
  datatype Typed = Typed(supportedSchema: bool, asset: string, quoteCurrency: string,
                         price: Option<CanonicalDecimals.Decimal>, observedAt: Option<Time>)
  {
    function At(f: Field): string {
      match f
      case Asset => asset
      case QuoteCurrency => quoteCurrency
    }
  }

  datatype RelationState = Satisfies | Contradicts | Unresolved | NotApplicable

  datatype Limitation = TemporalWindowUnresolved | UnspecifiedContractCase | MissingRequiredDatum

  datatype Basis =
    | TypedUnavailable
    | UnsupportedSchema
    | MissingDatum(field: Field)
    | FieldMatch(field: Field, expected: string, observed: string)
    | FieldMismatch(field: Field, expected: string, observed: string)
    | InvalidValue
    | ValuePresent(value: Numerals.Text)
    | WindowRequired
    | TimestampUnavailable
    | OutsideWindow(targetAsOf: Time, observedAt: Time, maxAge: int)
    | InsideWindow(targetAsOf: Time, observedAt: Time, maxAge: int)
    | UnsupportedRequirement
    | IntentNotApplicable(intent: Intent)

  datatype Judgement = Judgement(state: RelationState, basis: Basis, limitations: set<Limitation>)

  datatype RelationId = RelationId(target: Id, requirement: Id, evidence: Id)

  datatype Relation = Relation(id: RelationId, state: RelationState, basis: Basis)

  datatype RequirementState = IsSatisfied | IsUnresolved | IsContradicted

  datatype RequirementResult = RequirementResult(requirement: Id, requirementType: RequirementType, required: bool, state: RequirementState,
                                                 supporting: seq<RelationId>, contradicting: seq<RelationId>,
                                                 unresolved: seq<RelationId>, notApplicable: seq<RelationId>)

  datatype StructuralState = Complete | Incomplete | Contradicted

  datatype Contradiction = Contradiction(requirement: Id, supporting: seq<RelationId>, contradicting: seq<RelationId>)

  datatype Evaluation = Evaluation(results: seq<RequirementResult>, relations: seq<Relation>, contradictions: seq<Contradiction>,
                                   limitations: set<Limitation>, structural: StructuralState, sources: seq<Id>)

  // ---------------------------------------------------------------------------------------------------
  // One piece of evidence against one requirement
  // ---------------------------------------------------------------------------------------------------

  /** A usable text: present, a text, and not empty. */
  function TargetValue(p: Parameter): Option<string> {
    if p.OfText? && p.text != "" then Some(p.text) else None
  }

  /** The identity field a requirement is about. */
  function IdentityField(t: RequirementType): Option<Field> {
    match t
    case IdentityOf(f) => Some(f)
    case PlainField(f) => Some(f)
    case _ => None
  }

  function ExplicitWindow(r: Requirement): Option<nat> {
    if r.maxAge.Some? && r.maxAge.value >= 0 then Some(r.maxAge.value) else None
  }

  function Unsettled(basis: Basis, limitation: Limitation): Judgement {
    Judgement(Unresolved, basis, {limitation})
  }

  function JudgeIdentity(target: Target, typed: Typed, f: Field): Judgement {
    var expected, observed := TargetValue(target.At(f)), typed.At(f);
    if expected.None? || observed == "" then Unsettled(MissingDatum(f), MissingRequiredDatum)
    else if observed == expected.value then Judgement(Satisfies, FieldMatch(f, expected.value, observed), {})
    else Judgement(Contradicts, FieldMismatch(f, expected.value, observed), {})
  }

  function JudgePrice(typed: Typed): Judgement {
    if typed.price.None? then Unsettled(InvalidValue, MissingRequiredDatum)
    else
      match CanonicalDecimals.CanonicalDecimal(typed.price.value)
      case Err(_) => Unsettled(InvalidValue, MissingRequiredDatum)
      case Ok(text) => Judgement(Satisfies, ValuePresent(text), {})
  }

  function JudgeAge(target: Target, requirement: Requirement, typed: Typed): Judgement {
    var window := ExplicitWindow(requirement);
    if window.None? then Unsettled(WindowRequired, TemporalWindowUnresolved)
    else if target.asOf.None? || typed.observedAt.None? then Unsettled(TimestampUnavailable, TemporalWindowUnresolved)
    else
      var asOf, at := target.asOf.value, typed.observedAt.value;
      if Distance(asOf, at) > window.value * SECOND then Judgement(NotApplicable, OutsideWindow(asOf, at, window.value), {})
      else Judgement(Satisfies, InsideWindow(asOf, at, window.value), {})
  }

  function Distance(a: Time, b: Time): nat {
    if a <= b then b - a else a - b
  }

  function JudgeValueFeed(target: Target, requirement: Requirement, typed: Option<Typed>): Judgement {
    if typed.None? then Unsettled(TypedUnavailable, UnspecifiedContractCase)
    else if !typed.value.supportedSchema then Unsettled(UnsupportedSchema, UnspecifiedContractCase)
    else
      match requirement.requirementType
      case IdentityOf(f) => JudgeIdentity(target, typed.value, f)
      case PlainField(f) => JudgeIdentity(target, typed.value, f)
      case PriceValue => JudgePrice(typed.value)
      case PlainPrice => JudgePrice(typed.value)
      case TemporalApplicability => JudgeAge(target, requirement, typed.value)
      case OtherType => Unsettled(UnsupportedRequirement, UnspecifiedContractCase)
  }

  function TypedOf(typed: map<Id, Typed>, e: Evidence): Option<Typed> {
    if e.id in typed then Some(typed[e.id]) else None
  }

  function Judge(target: Target, requirement: Requirement, e: Evidence, typed: map<Id, Typed>): Judgement {
    if e.sourceIntent.Some? && e.sourceIntent.value != CryptoPrice then
      Judgement(NotApplicable, IntentNotApplicable(e.sourceIntent.value), {})
    else JudgeValueFeed(target, requirement, TypedOf(typed, e))
  }

  function RelationOf(target: Target, requirement: Requirement, e: Evidence, typed: map<Id, Typed>): Relation {
    var j := Judge(target, requirement, e, typed);
    Relation(RelationId(target.id, requirement.id, e.id), j.state, j.basis)
  }

  // ---------------------------------------------------------------------------------------------------
  // The evaluation
  // ---------------------------------------------------------------------------------------------------

  function IsEligible(): Evidence -> bool {
    (e: Evidence) => e.admissibility != Rejected
  }

  predicate ByEvidenceId(a: Evidence, b: Evidence) {
    a.id <= b.id
  }

  predicate ByRequirementId(a: Requirement, b: Requirement) {
    a.id <= b.id
  }

  /** The order of related relations: evidence first, then the relation identifier. */
  predicate ByEvidence(a: Relation, b: Relation) {
    a.id.evidence <= b.id.evidence
  }

  function Eligible(evidence: seq<Evidence>): seq<Evidence> {
    SortBy(Filter(evidence, IsEligible()), ByEvidenceId)
  }

  function RowsFor(target: Target, requirements: seq<Requirement>, e: Evidence, typed: map<Id, Typed>): (rows: seq<Relation>)
    ensures |rows| == |requirements| && forall j | 0 <= j < |rows| :: rows[j] == RelationOf(target, requirements[j], e, typed)
  {
    seq(|requirements|, j requires 0 <= j < |requirements| => RelationOf(target, requirements[j], e, typed))
  }

  function Rows(target: Target, requirements: seq<Requirement>, eligible: seq<Evidence>, typed: map<Id, Typed>): seq<Relation> {
    if eligible == [] then []
    else
      var n := |eligible| - 1;
      Rows(target, requirements, eligible[..n], typed) + RowsFor(target, requirements, eligible[n], typed)
  }

  function About(requirement: Id): Relation -> bool {
    (r: Relation) => r.id.requirement == requirement
  }

  function InState(s: RelationState): Relation -> bool {
    (r: Relation) => r.state == s
  }

  function IdsOf(rows: seq<Relation>): (ids: seq<RelationId>)
    ensures |ids| == |rows|
  {
    seq(|rows|, i requires 0 <= i < |rows| => rows[i].id)
  }

  function ResultOf(r: Requirement, relations: seq<Relation>): RequirementResult {
    var related := SortBy(relations, ByEvidence);
    var supporting, contradicting := IdsOf(Filter(related, InState(Satisfies))), IdsOf(Filter(related, InState(Contradicts)));
    RequirementResult(
      r.id, r.requirementType, r.required,
      if contradicting != [] then IsContradicted else if supporting != [] then IsSatisfied else IsUnresolved,
      supporting, contradicting, IdsOf(Filter(related, InState(Unresolved))), IdsOf(Filter(related, InState(NotApplicable))))
  }

  function ResultsOf(requirements: seq<Requirement>, rows: seq<Relation>): (results: seq<RequirementResult>)
    ensures |results| == |requirements|
    ensures forall i | 0 <= i < |results| :: results[i] == ResultOf(requirements[i], Filter(rows, About(requirements[i].id)))
  {
    seq(|requirements|, i requires 0 <= i < |requirements| => ResultOf(requirements[i], Filter(rows, About(requirements[i].id))))
  }

  predicate RequiredIn(results: seq<RequirementResult>, s: RequirementState) {
    exists i | 0 <= i < |results| :: results[i].required && results[i].state == s
  }

  function StructuralOf(results: seq<RequirementResult>): StructuralState {
    if RequiredIn(results, IsContradicted) then Contradicted
    else if RequiredIn(results, IsUnresolved) then Incomplete
    else Complete
  }

  function ContradictionsOf(results: seq<RequirementResult>): seq<Contradiction> {
    if results == [] then []
    else
      var n := |results| - 1;
      var r := results[n];
      if r.contradicting != [] then
        ContradictionsOf(results[..n]) + [Contradiction(r.requirement, r.supporting, r.contradicting)]
      else ContradictionsOf(results[..n])
  }

  function LimitationsFor(target: Target, requirements: seq<Requirement>, e: Evidence, typed: map<Id, Typed>): set<Limitation> {
    set r, l | r in requirements && l in Judge(target, r, e, typed).limitations :: l
  }

  function LimitationsOf(target: Target, requirements: seq<Requirement>, eligible: seq<Evidence>, typed: map<Id, Typed>): set<Limitation> {
    set e, l | e in eligible && l in LimitationsFor(target, requirements, e, typed) :: l
  }

  function SourcesOf(eligible: seq<Evidence>): seq<Id> {
    seq(|eligible|, i requires 0 <= i < |eligible| => eligible[i].id)
  }

  function EvaluationOf(target: Target, ordered: seq<Requirement>, eligible: seq<Evidence>, typed: map<Id, Typed>): Evaluation {
    var rows := Rows(target, ordered, eligible, typed);
    var results := ResultsOf(ordered, rows);
    Evaluation(results, rows, ContradictionsOf(results), LimitationsOf(target, ordered, eligible, typed), StructuralOf(results),
               SourcesOf(eligible))
  }

  function Evaluate(target: Target, requirements: seq<Requirement>, evidence: seq<Evidence>, typed: map<Id, Typed>): Evaluation {
    EvaluationOf(target, SortBy(requirements, ByRequirementId), Eligible(evidence), typed)
  }

  function IdSet(requirements: seq<Requirement>): set<Id> {
    set r | r in requirements :: r.id
  }

  /** Each list holds the relations of its requirement, in the order of the rows. */
  ghost predicate Grouped(byRequirement: map<Id, seq<Relation>>, rows: seq<Relation>, requirements: seq<Requirement>) {
    && byRequirement.Keys == IdSet(requirements)
    && forall id | id in byRequirement :: byRequirement[id] == Filter(rows, About(id))
  }

  lemma GroupStep(byRequirement: map<Id, seq<Relation>>, rows: seq<Relation>, requirements: seq<Requirement>, relation: Relation)
    requires Grouped(byRequirement, rows, requirements) && relation.id.requirement in byRequirement
    ensures Grouped(byRequirement[relation.id.requirement := byRequirement[relation.id.requirement] + [relation]],
                    rows + [relation], requirements)
  {
    assert (rows + [relation])[..|rows|] == rows;
  }

  lemma LimitationStep(target: Target, requirements: seq<Requirement>, j: nat, e: Evidence, typed: map<Id, Typed>)
    requires j < |requirements|
    ensures LimitationsFor(target, requirements[..j + 1], e, typed)
         == LimitationsFor(target, requirements[..j], e, typed) + Judge(target, requirements[j], e, typed).limitations
  {
    assert requirements[..j + 1] == requirements[..j] + [requirements[j]];
  }

  /** The inner loop: one piece of evidence against every requirement. */
  method RelateToAll(target: Target, ordered: seq<Requirement>, e: Evidence, typed: map<Id, Typed>,
                     rowsBefore: seq<Relation>, groupedBefore: map<Id, seq<Relation>>)
    returns (rows: seq<Relation>, byRequirement: map<Id, seq<Relation>>, limitations: set<Limitation>)
    requires Grouped(groupedBefore, rowsBefore, ordered)
    ensures rows == rowsBefore + RowsFor(target, ordered, e, typed) && Grouped(byRequirement, rows, ordered)
    ensures limitations == LimitationsFor(target, ordered, e, typed)
  {
    rows, byRequirement, limitations := rowsBefore, groupedBefore, {};
    for j := 0 to |ordered|
      invariant rows == rowsBefore + RowsFor(target, ordered[..j], e, typed) && Grouped(byRequirement, rows, ordered)
      invariant limitations == LimitationsFor(target, ordered[..j], e, typed)
    {
      var judgement := Judge(target, ordered[j], e, typed);
      LimitationStep(target, ordered, j, e, typed);
      limitations := limitations + judgement.limitations;
      var id := ordered[j].id;
      var relation := Relation(RelationId(target.id, id, e.id), judgement.state, judgement.basis);
      assert RowsFor(target, ordered[..j + 1], e, typed) == RowsFor(target, ordered[..j], e, typed) + [relation];
      GroupStep(byRequirement, rows, ordered, relation);
      byRequirement := byRequirement[id := byRequirement[id] + [relation]];
      rows := rows + [relation];
    }
    assert ordered[..|ordered|] == ordered;
  }

  lemma EvidenceStep(target: Target, ordered: seq<Requirement>, eligible: seq<Evidence>, i: nat, typed: map<Id, Typed>)
    requires i < |eligible|
    ensures Rows(target, ordered, eligible[..i + 1], typed)
         == Rows(target, ordered, eligible[..i], typed) + RowsFor(target, ordered, eligible[i], typed)
    ensures LimitationsOf(target, ordered, eligible[..i + 1], typed)
         == LimitationsOf(target, ordered, eligible[..i], typed) + LimitationsFor(target, ordered, eligible[i], typed)
  {
    assert eligible[..i + 1][..i] == eligible[..i];
    assert eligible[..i + 1] == eligible[..i] + [eligible[i]];
  }

  /** The outer loop: the rows, grouped by requirement, and the limitations met on the way. */
  method RelateEvidence(target: Target, ordered: seq<Requirement>, eligible: seq<Evidence>, typed: map<Id, Typed>)
    returns (rows: seq<Relation>, byRequirement: map<Id, seq<Relation>>, limitations: set<Limitation>)
    ensures rows == Rows(target, ordered, eligible, typed) && Grouped(byRequirement, rows, ordered)
    ensures limitations == LimitationsOf(target, ordered, eligible, typed)
  {
    rows, limitations := [], {};
    byRequirement := map i | i in IdSet(ordered) :: [];
    for i := 0 to |eligible|
      invariant rows == Rows(target, ordered, eligible[..i], typed) && Grouped(byRequirement, rows, ordered)
      invariant limitations == LimitationsOf(target, ordered, eligible[..i], typed)
    {
      EvidenceStep(target, ordered, eligible, i, typed);
      var found;
      rows, byRequirement, found := RelateToAll(target, ordered, eligible[i], typed, rows, byRequirement);
      limitations := limitations + found;
    }
    assert eligible[..|eligible|] == eligible;
  }

  lemma ResultsStep(ordered: seq<Requirement>, i: nat, rows: seq<Relation>)
    requires i < |ordered|
    ensures ResultsOf(ordered[..i + 1], rows)
         == ResultsOf(ordered[..i], rows) + [ResultOf(ordered[i], Filter(rows, About(ordered[i].id)))]
  {
  }

  /** One state per requirement, from its own list of relations. */
  method FoldResults(ordered: seq<Requirement>, byRequirement: map<Id, seq<Relation>>, ghost rows: seq<Relation>)
    returns (results: seq<RequirementResult>)
    requires Grouped(byRequirement, rows, ordered)
    ensures results == ResultsOf(ordered, rows)
  {
    results := [];
    for i := 0 to |ordered|
      invariant results == ResultsOf(ordered[..i], rows)
    {
      assert ordered[i].id in IdSet(ordered);
      var result := ResultOf(ordered[i], byRequirement[ordered[i].id]);
      ResultsStep(ordered, i, rows);
      results := results + [result];
    }
    assert ordered[..|ordered|] == ordered;
  }

  method EvaluateCryptoPrice(target: Target, requirements: seq<Requirement>, evidence: seq<Evidence>, typed: map<Id, Typed>)
    returns (evaluation: Evaluation)
    ensures evaluation == Evaluate(target, requirements, evidence, typed)
  {
    var ordered, eligible := SortBy(requirements, ByRequirementId), Eligible(evidence);
    var rows, byRequirement, limitations := RelateEvidence(target, ordered, eligible, typed);
    var results := FoldResults(ordered, byRequirement, rows);
    return Evaluation(results, rows, ContradictionsOf(results), limitations, StructuralOf(results), SourcesOf(eligible));
  }
}
