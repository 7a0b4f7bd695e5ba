/**
 Turnover of relation sets and its causal baselines (backend/app/epistemic/phi_candidates.py).

 Exact fractions are modelled by reals. A semantic relation keeps its six components; all but the relation state
 are opaque values.
 */
module PhiCandidates {
  import opened Wrappers
  import opened Ordering
  import opened FiniteSets

  // ---------------------------------------------------------------------------------------------------
  // The turnover of a relation set
  // ---------------------------------------------------------------------------------------------------

  datatype RelationState = Satisfies | Contradicts | Unresolved | NotApplicable | UnsupportedState

  datatype SemanticRelation = SemanticRelation(target: nat, requirement: nat, requirementType: nat, evidence: nat,
                                               state: RelationState, basis: nat)

  type RelationSet = set<SemanticRelation>

  datatype Error =
    | UnsupportedRelationState
    | RequirementTypeChanged
    | DuplicateEventIndex
    | CrossesLineages
    | CrossesVersions
    | NotStrictlyOrdered
    | NotNextEvent

  function CanonicalSet(items: seq<SemanticRelation>): Result<RelationSet, Error> {
    if exists r | r in items :: r.state == UnsupportedState then Err(UnsupportedRelationState)
    else Ok(set r | r in items)
  }

  function Loss(previous: RelationSet, current: RelationSet): RelationSet {
    previous - current
  }

  function Gain(previous: RelationSet, current: RelationSet): RelationSet {
    current - previous
  }

  function SymmetricDifference(a: RelationSet, b: RelationSet): RelationSet {
    (a + b) - (a * b)
  }

  function SetDistance(previous: RelationSet, current: RelationSet): real {
    if previous + current == {} then 0.0
    else |SymmetricDifference(previous, current)| as real / |previous + current| as real
  }

  function RelationalSetDistance(previous: seq<SemanticRelation>, current: seq<SemanticRelation>): Result<real, Error> {
    var p :- CanonicalSet(previous);
    var c :- CanonicalSet(current);
    Ok(SetDistance(p, c))
  }

  /** The numerator counts exactly the lost and the gained relations. */
  lemma DifferenceIsLossPlusGain(a: RelationSet, b: RelationSet)
    ensures |SymmetricDifference(a, b)| == |Loss(a, b)| + |Gain(a, b)|
    ensures SymmetricDifference(a, b) == Loss(a, b) + Gain(a, b)
  {
    assert SymmetricDifference(a, b) == Loss(a, b) + Gain(a, b);
  }

  lemma UnionSize(a: RelationSet, b: RelationSet)
    ensures |a + b| == |a * b| + |SymmetricDifference(a, b)|
    ensures 2 * |a + b| == |a| + |b| + |SymmetricDifference(a, b)|
  {
    assert a + b == (a * b) + SymmetricDifference(a, b);
    assert a == (a * b) + (a - b) && b == (a * b) + (b - a);
    DifferenceIsLossPlusGain(a, b);
  }

  lemma DifferenceTriangle(a: RelationSet, b: RelationSet, c: RelationSet)
    ensures |SymmetricDifference(a, c)| <= |SymmetricDifference(a, b)| + |SymmetricDifference(b, c)|
    ensures |b| <= |a| + |SymmetricDifference(a, b)|
  {
    SubsetSize(SymmetricDifference(a, c), SymmetricDifference(a, b) + SymmetricDifference(b, c));
    SubsetSize(b, a + SymmetricDifference(a, b));
  }

  lemma FractionGrows(p: real, q: real, r: real)
    requires 0.0 <= p <= q && 0.0 < q && 0.0 <= r
    ensures p / q <= (p + r) / (q + r)
  {
    assert p * (q + r) <= (p + r) * q by {
      assert p * (q + r) == p * q + p * r;
      assert (p + r) * q == p * q + q * r;
      assert p * r <= q * r;
    }
    CrossMultiply(p, q, p + r, q + r);
  }

  lemma CrossMultiply(p: real, q: real, s: real, t: real)
    requires 0.0 < q && 0.0 < t && p * t <= s * q
    ensures p / q <= s / t
  {
    assert p / q == (p * t) / (q * t);
    assert s / t == (s * q) / (q * t);
  }

  lemma HalfFraction(d: real, u: real)
    requires 0.0 < u
    ensures d / u == 2.0 * (d / (2.0 * u))
  {
  }

  lemma SmallerDenominator(p: real, q: real, t: real)
    requires 0.0 <= p && 0.0 < q <= t
    ensures p / t <= p / q
  {
    CrossMultiply(p, t, p, q);
  }

  /** The distance as twice the difference over the sum of both sizes and the difference. */
  lemma DistanceForm(a: RelationSet, b: RelationSet)
    requires a + b != {}
    ensures var d := |SymmetricDifference(a, b)| as real;
            0.0 < |a| as real + |b| as real + d && SetDistance(a, b) == 2.0 * (d / (|a| as real + |b| as real + d))
  {
    UnionSize(a, b);
    var d, u := |SymmetricDifference(a, b)| as real, |a + b| as real;
    assert |a + b| > 0;
    HalfFraction(d, u);
  }

  lemma EmptyDifference(a: RelationSet, b: RelationSet)
    ensures SymmetricDifference(a, b) == {} <==> a == b
  {
    if SymmetricDifference(a, b) == {} {
      assert Loss(a, b) == {} && Gain(a, b) == {} by {
        DifferenceIsLossPlusGain(a, b);
      }
      assert a <= b && b <= a by {
        assert forall r | r in a && r !in b :: r in Loss(a, b);
        assert forall r | r in b && r !in a :: r in Gain(a, b);
      }
    }
  }

  lemma FractionRange(p: real, q: real)
    requires 0.0 <= p <= q && 0.0 < q
    ensures 0.0 <= p / q <= 1.0
    ensures p / q == 0.0 <==> p == 0.0
  {
  }

  /** Bounds, symmetry and identity: the range of the distance and the first laws of a metric. */
  lemma DistanceLaws(a: RelationSet, b: RelationSet)
    ensures 0.0 <= SetDistance(a, b) <= 1.0
    ensures SetDistance(a, b) == SetDistance(b, a)
    ensures SetDistance(a, b) == 0.0 <==> a == b
  {
    assert a + b == b + a && SymmetricDifference(a, b) == SymmetricDifference(b, a);
    EmptyDifference(a, b);
    if a + b != {} {
      assert |a + b| > 0;
      SubsetSize(SymmetricDifference(a, b), a + b);
      FractionRange(|SymmetricDifference(a, b)| as real, |a + b| as real);
    }
  }

  /** The triangle inequality, for all three sets and in every empty case. */
  lemma DistanceTriangle(a: RelationSet, b: RelationSet, c: RelationSet)
    ensures SetDistance(a, c) <= SetDistance(a, b) + SetDistance(b, c)
  {
    if a + c == {} {
      DistanceLaws(a, b);
      DistanceLaws(b, c);
    } else if b == {} && (a == {} || c == {}) {
      DistanceLaws(a, b);
      DistanceLaws(b, c);
      assert a == b || b == c;
    } else {
      TriangleNonEmpty(a, b, c);
    }
  }

  lemma TriangleNonEmpty(a: RelationSet, b: RelationSet, c: RelationSet)
    requires a + c != {} && a + b != {} && b + c != {}
    ensures SetDistance(a, c) <= SetDistance(a, b) + SetDistance(b, c)
  {
    var x, y, z := |SymmetricDifference(a, c)| as real, |SymmetricDifference(a, b)| as real, |SymmetricDifference(b, c)| as real;
    var na, nb, nc := |a| as real, |b| as real, |c| as real;
    DistanceForm(a, c);
    DistanceForm(a, b);
    DistanceForm(b, c);
    DifferenceTriangle(a, b, c);
    DifferenceTriangle(c, b, a);
    assert SymmetricDifference(c, b) == SymmetricDifference(b, c);
    TriangleOfFractions(x, y, z, na, nb, nc);
  }

  lemma TriangleOfFractions(x: real, y: real, z: real, na: real, nb: real, nc: real)
    requires 0.0 <= x <= y + z && 0.0 <= y && 0.0 <= z && 0.0 <= na && 0.0 <= nb && 0.0 <= nc
    requires nb <= na + y && nb <= nc + z
    requires 0.0 < na + nc + x && 0.0 < na + nb + y && 0.0 < nb + nc + z
    ensures x / (na + nc + x) <= y / (na + nb + y) + z / (nb + nc + z)
  {
    var t := na + nc + y + z;
    FractionGrows(x, na + nc + x, y + z - x);
    SmallerDenominator(y, na + nb + y, t);
    SmallerDenominator(z, nb + nc + z, t);
    SumOfFractions(y, z, t);
  }

  lemma SumOfFractions(y: real, z: real, t: real)
    requires 0.0 < t
    ensures (y + z) / t == y / t + z / t
  {
  }

  /** Fails exactly on a relation without a known state, and else gives the share of relations that only one list holds. */
  lemma DistanceExactly(previous: seq<SemanticRelation>, current: seq<SemanticRelation>)
    ensures var d := RelationalSetDistance(previous, current);
            && (d.Err? <==> exists r :: r in previous + current && r.state == UnsupportedState)
            && (d.Err? ==> d.error == UnsupportedRelationState)
            && (d.Ok? ==> var all := set r | r in previous + current;
                          d.value * |all| as real == |set r | r in all && !(r in previous && r in current)| as real)
            && (d.Ok? && previous == [] && current == [] ==> d.value == 0.0)
  {
    var p, c := set r | r in previous, set r | r in current;
    var all := set r | r in previous + current;
    assert all == p + c;
    assert (set r | r in all && !(r in previous && r in current)) == SymmetricDifference(p, c);
    SharesOf(p, c);
  }

  lemma SharesOf(p: RelationSet, c: RelationSet)
    ensures SetDistance(p, c) * |p + c| as real == |SymmetricDifference(p, c)| as real
  {
    if p + c != {} {
      DividedTimes(|SymmetricDifference(p, c)| as real, |p + c| as real);
    } else {
      assert SymmetricDifference(p, c) == {};
    }
  }

  lemma DividedTimes(x: real, n: real)
    requires n > 0.0
    ensures x / n * n == x
  {
  }

  /** The distance of two lists depends only on which relations occur in them. */
  lemma DistanceForgetsRepetition(p1: seq<SemanticRelation>, c1: seq<SemanticRelation>, p2: seq<SemanticRelation>, c2: seq<SemanticRelation>)
    requires (forall r :: r in p1 <==> r in p2) && (forall r :: r in c1 <==> r in c2)
    ensures RelationalSetDistance(p1, c1) == RelationalSetDistance(p2, c2)
  {
    assert (set r | r in p1) == (set r | r in p2) && (set r | r in c1) == (set r | r in c2);
  }

  // ---------------------------------------------------------------------------------------------------
  // Causal expectations
  // ---------------------------------------------------------------------------------------------------

  type Turnover = x: real | 0.0 <= x <= 1.0 witness 0.0

  /** The population key stands for lineage, target, requirement and semantic versions together. */
  datatype Point = Point(population: nat, requirementType: nat, index: nat)

  datatype Observation = Observation(point: Point, turnover: Turnover)

  predicate ByIndex(a: Observation, b: Observation) {
    a.point.index < b.point.index || (a.point.index == b.point.index && a.turnover <= b.turnover)
  }

  function PriorTo(current: Point): Observation -> bool {
    (o: Observation) => o.point.population == current.population && o.point.index < current.index
  }

  function Turnovers(os: seq<Observation>): (ts: seq<Turnover>)
    ensures |ts| == |os| && forall i | 0 <= i < |os| :: ts[i] == os[i].turnover
  {
    if os == [] then [] else Turnovers(os[..|os| - 1]) + [os[|os| - 1].turnover]
  }

  predicate RepeatsIndex(prior: seq<Observation>, i: nat)
    requires i < |prior|
  {
    i + 1 < |prior| && prior[i].point.index == prior[i + 1].point.index
  }

  /** The turnovers strictly before the current point in its population, oldest first. */
  function PriorTurnovers(history: seq<Observation>, current: Point): Result<seq<Turnover>, Error> {
    var matching := Filter(history, PriorTo(current));
    if exists o | o in matching :: o.point.requirementType != current.requirementType then Err(RequirementTypeChanged)
    else
      var prior := SortBy(matching, ByIndex);
      if exists i | 0 <= i < |prior| :: RepeatsIndex(prior, i) then Err(DuplicateEventIndex)
      else Ok(Turnovers(prior))
  }

  function Sum(ts: seq<Turnover>): real {
    if ts == [] then 0.0 else Sum(ts[..|ts| - 1]) + ts[|ts| - 1]
  }

  lemma {:induction false} SumBounds(ts: seq<Turnover>, low: real, high: real)
    requires forall t | t in ts :: low <= t <= high
    ensures |ts| as real * low <= Sum(ts) <= |ts| as real * high
  {
    if ts != [] {
      var n := |ts| - 1;
      assert ts[n] in ts && forall t | t in ts[..n] :: t in ts;
      SumBounds(ts[..n], low, high);
      assert |ts| as real == n as real + 1.0;
    }
  }

  /** The mean lies between any bounds of the values. */
  lemma MeanBounds(ts: seq<Turnover>, low: real, high: real)
    requires ts != [] && forall t | t in ts :: low <= t <= high
    ensures low <= Sum(ts) / |ts| as real <= high
  {
    SumBounds(ts, low, high);
    QuotientBounds(Sum(ts), |ts| as real, low, high);
  }

  lemma QuotientBounds(sum: real, n: real, low: real, high: real)
    requires 0.0 < n && n * low <= sum <= n * high
    ensures low <= sum / n <= high
  {
    assert sum == n * (sum / n);
  }

  function Mean(ts: seq<Turnover>): (mean: Turnover)
    requires ts != []
    ensures mean == Sum(ts) / |ts| as real
  {
    MeanBounds(ts, 0.0, 1.0);
    Sum(ts) / |ts| as real
  }

  function PreviousValueExpectation(history: seq<Observation>, current: Point): Result<Option<Turnover>, Error> {
    var prior :- PriorTurnovers(history, current);
    Ok(if prior == [] then None else Some(prior[|prior| - 1]))
  }

  function ExpandingCausalMeanExpectation(history: seq<Observation>, current: Point): Result<Option<Turnover>, Error> {
    var prior :- PriorTurnovers(history, current);
    Ok(if prior == [] then None else Some(Mean(prior)))
  }

  lemma ByIndexIsTotal()
    ensures Total(ByIndex)
  {
  }

  /** Two histories that hold the same strictly earlier observations of the population. */
  ghost predicate SamePast(h1: seq<Observation>, h2: seq<Observation>, current: Point) {
    multiset(Filter(h1, PriorTo(current))) == multiset(Filter(h2, PriorTo(current)))
  }

  /** Strict causality: both baselines depend on nothing but the strictly earlier observations of the population. */
  lemma ExpectationsAreCausal(h1: seq<Observation>, h2: seq<Observation>, current: Point)
    requires SamePast(h1, h2, current)
    ensures PriorTurnovers(h1, current) == PriorTurnovers(h2, current)
    ensures PreviousValueExpectation(h1, current) == PreviousValueExpectation(h2, current)
    ensures ExpandingCausalMeanExpectation(h1, current) == ExpandingCausalMeanExpectation(h2, current)
  {
    TurnoversAreCausal(h1, h2, current);
  }

  lemma TurnoversAreCausal(h1: seq<Observation>, h2: seq<Observation>, current: Point)
    requires SamePast(h1, h2, current)
    ensures PriorTurnovers(h1, current) == PriorTurnovers(h2, current)
  {
    var m1, m2 := Filter(h1, PriorTo(current)), Filter(h2, PriorTo(current));
    MultisetMembers(m1, m2);
    FilterMembers(h1, PriorTo(current));
    if !(exists o | o in m1 :: o.point.requirementType != current.requirementType) {
      SamePastSorts(m1, m2);
    }
  }

  lemma SamePastSorts(m1: seq<Observation>, m2: seq<Observation>)
    requires multiset(m1) == multiset(m2) && Separates(m1, ByIndex)
    ensures SortBy(m1, ByIndex) == SortBy(m2, ByIndex)
  {
    ByIndexIsTotal();
    SortForgetsInputOrder(m1, m2, ByIndex);
  }

  /** Replacing an observation that is not strictly earlier in the population by any other such one changes nothing. */
  lemma PresentAndForeignAreIrrelevant(history: seq<Observation>, j: nat, o: Observation, current: Point)
    requires j < |history| && !PriorTo(current)(history[j]) && !PriorTo(current)(o)
    ensures SamePast(history, history[j := o], current)
  {
    var front, back := history[..j], history[j + 1..];
    FilterSkips(front, history[j], back, PriorTo(current));
    FilterSkips(front, o, back, PriorTo(current));
    assert history == front + [history[j]] + back && history[j := o] == front + [o] + back;
  }

  /** The order in which the history is given is irrelevant. */
  lemma HistoryOrderIsIrrelevant(h1: seq<Observation>, h2: seq<Observation>, current: Point)
    requires multiset(h1) == multiset(h2)
    ensures SamePast(h1, h2, current)
  {
    FilterMultiset(h1, h2, PriorTo(current));
  }

  /** Both baselines are unavailable exactly during warm-up; the mean lies between the least and the greatest earlier value. */
  lemma ExpectationRange(history: seq<Observation>, current: Point, low: real, high: real)
    requires PriorTurnovers(history, current).Ok?
    requires forall o | o in history && PriorTo(current)(o) :: low <= o.turnover <= high
    ensures var pv, ecm := PreviousValueExpectation(history, current), ExpandingCausalMeanExpectation(history, current);
            && pv.Ok? && ecm.Ok?
            && (pv.value.None? <==> forall o | o in history :: !PriorTo(current)(o))
            && (ecm.value.None? <==> pv.value.None?)
            && (pv.value.Some? ==> low <= pv.value.value <= high && low <= ecm.value.value <= high)
  {
    var m := Filter(history, PriorTo(current));
    var prior := SortBy(m, ByIndex);
    FilterMembers(history, PriorTo(current));
    MultisetMembers(m, prior);
    var ts := PriorTurnovers(history, current).value;
    forall t | t in ts ensures low <= t <= high {
      var i :| 0 <= i < |ts| && ts[i] == t;
      assert prior[i] in prior;
    }
    if ts != [] {
      assert prior[0] in prior;
      MeanBounds(ts, low, high);
    } else {
      forall o | o in history ensures !PriorTo(current)(o) {
        assert o in m <==> o in prior;
      }
    }
  }

  /** Sorted and free of repeated indices means strictly increasing indices. */
  lemma StrictlyByIndex(prior: seq<Observation>, i: nat, j: nat)
    requires Sorted(prior, ByIndex) && i < j < |prior| && !RepeatsIndex(prior, j - 1)
    ensures prior[i].point.index < prior[j].point.index
  {
    assert ByIndex(prior[j - 1], prior[j]);
    assert i == j - 1 || ByIndex(prior[i], prior[j - 1]);
  }

  /** The observations an available past consists of. */
  lemma PastIsSorted(history: seq<Observation>, current: Point) returns (prior: seq<Observation>)
    requires PriorTurnovers(history, current).Ok?
    ensures prior == SortBy(Filter(history, PriorTo(current)), ByIndex)
    ensures Sorted(prior, ByIndex) && PriorTurnovers(history, current).value == Turnovers(prior)
    ensures forall o :: o in prior <==> o in history && PriorTo(current)(o)
    ensures forall i | 0 <= i < |prior| :: !RepeatsIndex(prior, i)
  {
    var m := Filter(history, PriorTo(current));
    prior := SortBy(m, ByIndex);
    FilterMembers(history, PriorTo(current));
    MultisetMembers(m, prior);
    ByIndexIsTotal();
    SortBySorted(m, ByIndex);
  }

  lemma LastIsLatest(prior: seq<Observation>, x: Observation)
    requires Sorted(prior, ByIndex) && x in prior && forall i | 0 <= i < |prior| :: !RepeatsIndex(prior, i)
    ensures x == prior[|prior| - 1] || x.point.index < prior[|prior| - 1].point.index
  {
    var i :| 0 <= i < |prior| && prior[i] == x;
    if i < |prior| - 1 {
      StrictlyByIndex(prior, i, |prior| - 1);
    }
  }

  /** The previous-value baseline is the turnover of the latest earlier observation. */
  lemma PreviousValueIsLatest(history: seq<Observation>, current: Point) returns (o: Observation)
    requires PriorTurnovers(history, current).Ok?
    requires exists x | x in history :: PriorTo(current)(x)
    ensures o in history && PriorTo(current)(o)
    ensures PreviousValueExpectation(history, current) == Ok(Some(o.turnover))
    ensures forall x | x in history && PriorTo(current)(x) :: x == o || x.point.index < o.point.index
  {
    var prior := PastIsSorted(history, current);
    var w :| w in history && PriorTo(current)(w);
    assert w in prior;
    o := prior[|prior| - 1];
    assert o in prior;
    forall x | x in history && PriorTo(current)(x) ensures x == o || x.point.index < o.point.index {
      LastIsLatest(prior, x);
    }
  }

  /** One more observation moves the mean by its deviation over the new count. */
  lemma MeanRecurrence(ts: seq<Turnover>, t: Turnover)
    requires ts != []
    ensures Mean(ts + [t]) == Mean(ts) + (t - Mean(ts)) / (|ts| + 1) as real
  {
    assert (ts + [t])[..|ts|] == ts;
    IncrementalMean(Sum(ts), |ts| as real, t);
  }

  lemma IncrementalMean(sum: real, n: real, t: real)
    requires 0.0 < n
    ensures (sum + t) / (n + 1.0) == sum / n + (t - sum / n) / (n + 1.0)
  {
    var mean := sum / n;
    assert sum == mean * n;
    assert sum + t == mean * (n + 1.0) + (t - mean);
    assert (mean * (n + 1.0)) / (n + 1.0) == mean;
  }

  /** Observing the current point appends its turnover to the past of the next point. */
  lemma PastGrowsByOne(history: seq<Observation>, o: Observation, next: Point)
    requires next == o.point.(index := o.point.index + 1)
    requires forall x | x in history && x.point.population == o.point.population :: x.point.index != o.point.index
    requires PriorTurnovers(history, o.point).Ok?
    ensures PriorTurnovers(history + [o], next) == Ok(PriorTurnovers(history, o.point).value + [o.turnover])
  {
    var prior := PastIsSorted(history, o.point);
    GrownPast(history, o, next, prior);
    GrownHasNoRepeats(prior, o);
    assert (prior + [o])[..|prior|] == prior;
    assert Turnovers(prior + [o]) == Turnovers(prior) + [o.turnover];
    var grown := Filter(history + [o], PriorTo(next));
    forall x | x in grown ensures x.point.requirementType == next.requirementType {
      MultisetMembers(grown, prior + [o]);
      FilterMembers(history, PriorTo(o.point));
      assert x == o || x in Filter(history, PriorTo(o.point));
    }
  }

  lemma GrownPast(history: seq<Observation>, o: Observation, next: Point, prior: seq<Observation>)
    requires next == o.point.(index := o.point.index + 1)
    requires forall x | x in history && x.point.population == o.point.population :: x.point.index != o.point.index
    requires prior == SortBy(Filter(history, PriorTo(o.point)), ByIndex)
    ensures Filter(history + [o], PriorTo(next)) == Filter(history, PriorTo(o.point)) + [o]
    ensures SortBy(Filter(history + [o], PriorTo(next)), ByIndex) == prior + [o]
  {
    SamePastUntil(history, o.point, next);
    assert (history + [o])[..|history|] == history;
    FilterMembers(history, PriorTo(o.point));
    SortAppendsGreatest(Filter(history, PriorTo(o.point)), o, ByIndex);
  }

  lemma GrownHasNoRepeats(prior: seq<Observation>, o: Observation)
    requires forall x | x in prior :: x.point.index < o.point.index
    requires forall i | 0 <= i < |prior| :: !RepeatsIndex(prior, i)
    ensures forall i | 0 <= i < |prior + [o]| :: !RepeatsIndex(prior + [o], i)
  {
    forall i | 0 <= i < |prior + [o]| ensures !RepeatsIndex(prior + [o], i) {
      if i < |prior| {
        assert prior[i] in prior && !RepeatsIndex(prior, i);
      }
    }
  }

  lemma {:induction false} SamePastUntil(history: seq<Observation>, point: Point, next: Point)
    requires next == point.(index := point.index + 1)
    requires forall x | x in history && x.point.population == point.population :: x.point.index != point.index
    ensures Filter(history, PriorTo(next)) == Filter(history, PriorTo(point))
  {
    if history != [] {
      var n := |history| - 1;
      assert history[n] in history && forall x | x in history[..n] :: x in history;
      SamePastUntil(history[..n], point, next);
    }
  }

  // ---------------------------------------------------------------------------------------------------
  // The stream of expectations
  // ---------------------------------------------------------------------------------------------------

  datatype Estimator = PreviousValue | ExpandingCausalMean

  function Expectation(estimator: Estimator, history: seq<Observation>, current: Point): Result<Option<Turnover>, Error> {
    match estimator
    case PreviousValue => PreviousValueExpectation(history, current)
    case ExpandingCausalMean => ExpandingCausalMeanExpectation(history, current)
  }

  /** Ordered by population, then by index, then by turnover. */
  predicate ByPopulation(a: Observation, b: Observation) {
    || a.point.population < b.point.population
    || (a.point.population == b.point.population && ByIndex(a, b))
  }

  /** The expectation at each of the observations, or the first error. */
  function ExpectationsAt(estimate: Point -> Result<Option<Turnover>, Error>, points: seq<Observation>): (r: Result<seq<Option<Turnover>>, Error>)
    ensures r.Ok? ==> |r.value| == |points|
    ensures r.Ok? ==> forall j | 0 <= j < |points| :: estimate(points[j].point) == Ok(r.value[j])
  {
    if points == [] then Ok([])
    else
      var n := |points| - 1;
      var earlier :- ExpectationsAt(estimate, points[..n]);
      var last :- estimate(points[n].point);
      Ok(earlier + [last])
  }

  function Over(estimator: Estimator, history: seq<Observation>): Point -> Result<Option<Turnover>, Error> {
    (current: Point) => Expectation(estimator, history, current)
  }

  function CausalExpectationStream(observations: seq<Observation>, estimator: Estimator): Result<seq<Option<Turnover>>, Error> {
    var ordered := SortBy(observations, ByPopulation);
    ExpectationsAt(Over(estimator, ordered), ordered)
  }

  lemma SameExpectation(estimator: Estimator, h1: seq<Observation>, h2: seq<Observation>, current: Point)
    requires multiset(h1) == multiset(h2)
    ensures Expectation(estimator, h1, current) == Expectation(estimator, h2, current)
  {
    HistoryOrderIsIrrelevant(h1, h2, current);
    ExpectationsAreCausal(h1, h2, current);
  }

  /** Each entry of the stream is the causal expectation at its own observation, taken over the observations as given. */
  lemma StreamEntriesAreCausal(observations: seq<Observation>, estimator: Estimator, j: nat)
    requires CausalExpectationStream(observations, estimator).Ok? && j < |observations|
    ensures var ordered := SortBy(observations, ByPopulation);
            Expectation(estimator, observations, ordered[j].point) == Ok(CausalExpectationStream(observations, estimator).value[j])
  {
    var ordered := SortBy(observations, ByPopulation);
    SameExpectation(estimator, ordered, observations, ordered[j].point);
  }

  /** What the stream is ordered by. */
  function KeyOf(o: Observation): Observation {
    o.(point := o.point.(requirementType := 0))
  }

  function Keys(os: seq<Observation>): (r: seq<Observation>)
    ensures |r| == |os| && forall i | 0 <= i < |os| :: r[i] == KeyOf(os[i])
  {
    seq(|os|, i requires 0 <= i < |os| => KeyOf(os[i]))
  }

  lemma KeysAround(front: seq<Observation>, x: Observation, back: seq<Observation>)
    ensures multiset(Keys(front + [x] + back)) == multiset(Keys(front + back)) + multiset{KeyOf(x)}
  {
    assert Keys(front + [x] + back) == Keys(front) + [KeyOf(x)] + Keys(back);
    assert Keys(front + back) == Keys(front) + Keys(back);
  }

  lemma SplitAt(a: seq<Observation>, x: Observation) returns (front: seq<Observation>, back: seq<Observation>)
    requires x in a
    ensures a == front + [x] + back
  {
    var i :| 0 <= i < |a| && a[i] == x;
    front, back := a[..i], a[i + 1..];
  }

  lemma SameSize(a: seq<Observation>, b: seq<Observation>)
    requires multiset(a) == multiset(b)
    ensures |a| == |b|
  {
    assert |multiset(a)| == |a| && |multiset(b)| == |b|;
  }

  lemma {:induction false} KeysPermute(a: seq<Observation>, b: seq<Observation>)
    requires multiset(a) == multiset(b)
    ensures multiset(Keys(a)) == multiset(Keys(b))
    decreases |b|
  {
    if b == [] {
      SameSize(a, b);
      assert a == b;
    } else {
      MultisetMembers(a, b);
      assert b[0] in b && [] + [b[0]] + b[1..] == b;
      var front, back := SplitAt(a, b[0]);
      HeadAndTail(b);
      RemoveOne(front, b[0], back, b[1..]);
      KeysPermute(front + back, b[1..]);
      KeysAround(front, b[0], back);
      KeysAround([], b[0], b[1..]);
      assert [] + b[1..] == b[1..];
    }
  }

  lemma SortedKeys(a: seq<Observation>)
    ensures Sorted(Keys(SortBy(a, ByPopulation)), ByPopulation) && Separates(Keys(SortBy(a, ByPopulation)), ByPopulation)
    ensures multiset(SortBy(a, ByPopulation)) == multiset(a)
  {
    assert Total(ByPopulation);
    SortBySorted(a, ByPopulation);
  }

  /** Sorting the same observations in two ways puts equal keys at equal places. */
  lemma SortedKeysAgree(a: seq<Observation>, b: seq<Observation>)
    requires multiset(a) == multiset(b)
    ensures Keys(SortBy(a, ByPopulation)) == Keys(SortBy(b, ByPopulation))
  {
    SortedKeys(a);
    SortedKeys(b);
    KeysPermute(SortBy(a, ByPopulation), SortBy(b, ByPopulation));
    assert Total(ByPopulation);
    SortedUnique(Keys(SortBy(a, ByPopulation)), Keys(SortBy(b, ByPopulation)), ByPopulation);
  }

  /** Two points at one place of the population have the same expectation, if they have one. */
  lemma SamePlaceSameExpectation(estimator: Estimator, history: seq<Observation>, p: Point, q: Point)
    requires p.population == q.population && p.index == q.index
    requires Expectation(estimator, history, p).Ok? && Expectation(estimator, history, q).Ok?
    ensures Expectation(estimator, history, p) == Expectation(estimator, history, q)
  {
    FilterAgree(history, PriorTo(p), PriorTo(q));
  }

  lemma {:induction false} AllExpected(estimate: Point -> Result<Option<Turnover>, Error>, points: seq<Observation>, values: seq<Option<Turnover>>)
    requires |values| == |points| && forall j | 0 <= j < |points| :: estimate(points[j].point) == Ok(values[j])
    ensures ExpectationsAt(estimate, points) == Ok(values)
  {
    if points != [] {
      var n := |points| - 1;
      AllExpected(estimate, points[..n], values[..n]);
      assert values == values[..n] + [values[n]];
    }
  }

  lemma SamePlace(a: seq<Observation>, b: seq<Observation>, j: nat)
    requires multiset(a) == multiset(b) && j < |a|
    ensures |SortBy(a, ByPopulation)| == |SortBy(b, ByPopulation)| == |b| == |a|
    ensures var p, q := SortBy(a, ByPopulation)[j].point, SortBy(b, ByPopulation)[j].point;
            p.population == q.population && p.index == q.index
    ensures SortBy(b, ByPopulation)[j] in SortBy(a, ByPopulation)
  {
    var sa, sb := SortBy(a, ByPopulation), SortBy(b, ByPopulation);
    SortedKeys(a);
    SortedKeys(b);
    SameSize(a, b);
    SameSize(sa, a);
    SameSize(sb, b);
    SortedKeysAgree(a, b);
    assert Keys(sa)[j] == Keys(sb)[j];
    MultisetMembers(sa, sb);
    assert sb[j] in sb;
  }

  lemma EntriesAgree(a: seq<Observation>, b: seq<Observation>, estimator: Estimator, j: nat)
    requires multiset(a) == multiset(b) && CausalExpectationStream(a, estimator).Ok? && j < |a|
    ensures |SortBy(b, ByPopulation)| == |a|
    ensures var sb := SortBy(b, ByPopulation);
            Expectation(estimator, sb, sb[j].point) == Ok(CausalExpectationStream(a, estimator).value[j])
  {
    var sa, sb := SortBy(a, ByPopulation), SortBy(b, ByPopulation);
    SamePlace(a, b, j);
    var k :| 0 <= k < |sa| && sa[k] == sb[j];
    SameExpectation(estimator, sa, sb, sb[j].point);
    assert Over(estimator, sa)(sa[k].point).Ok? && Over(estimator, sa)(sa[j].point).Ok?;
    SamePlaceSameExpectation(estimator, sa, sa[k].point, sa[j].point);
  }

  lemma StreamIsKept(a: seq<Observation>, b: seq<Observation>, estimator: Estimator)
    requires multiset(a) == multiset(b) && CausalExpectationStream(a, estimator).Ok?
    ensures CausalExpectationStream(b, estimator) == CausalExpectationStream(a, estimator)
  {
    var sb := SortBy(b, ByPopulation);
    SameSize(a, b);
    forall j | 0 <= j < |b|
      ensures Over(estimator, sb)(sb[j].point) == Ok(CausalExpectationStream(a, estimator).value[j])
    {
      EntriesAgree(a, b, estimator, j);
    }
    AllExpected(Over(estimator, sb), sb, CausalExpectationStream(a, estimator).value);
  }

  /**
   The stream does not depend on the order in which the observations are given. If it is an error then only the observations
   that tie in all but their requirement type may decide which one comes first.
   */
  lemma StreamForgetsInputOrder(a: seq<Observation>, b: seq<Observation>, estimator: Estimator)
    requires multiset(a) == multiset(b)
    ensures CausalExpectationStream(a, estimator).Ok? <==> CausalExpectationStream(b, estimator).Ok?
    ensures CausalExpectationStream(a, estimator).Ok? || Separates(a, ByPopulation) ==>
              CausalExpectationStream(a, estimator) == CausalExpectationStream(b, estimator)
  {
    if CausalExpectationStream(a, estimator).Ok? {
      StreamIsKept(a, b, estimator);
    } else if CausalExpectationStream(b, estimator).Ok? {
      StreamIsKept(b, a, estimator);
    } else if Separates(a, ByPopulation) {
      assert Total(ByPopulation);
      SortForgetsInputOrder(a, b, ByPopulation);
    }
  }

  // ---------------------------------------------------------------------------------------------------
  // Restoration of an earlier relation set
  // ---------------------------------------------------------------------------------------------------

  datatype RelationSetPoint = RelationSetPoint(lineage: nat, index: nat, versions: nat, relations: RelationSet)

  /** The history is one strictly ordered lineage that the current point continues. */
  ghost predicate Continues(history: seq<RelationSetPoint>, current: RelationSetPoint) {
    && (forall p | p in history :: p.lineage == current.lineage && p.versions == current.versions)
    && (forall i, j | 0 <= i < j < |history| :: history[i].index < history[j].index)
    && (history != [] ==> current.index == history[|history| - 1].index + 1)
  }

  /** The i-th point has the relations and a later one does not. */
  predicate LeftBehind(history: seq<RelationSetPoint>, i: nat, relations: RelationSet)
    requires i < |history|
  {
    history[i].relations == relations && exists k | i < k < |history| :: history[k].relations != relations
  }

  lemma RestoredIsRepeated(history: seq<RelationSetPoint>, relations: RelationSet)
    requires history != [] && history[|history| - 1].relations != relations
    ensures (exists i | 0 <= i < |history| :: LeftBehind(history, i, relations))
       <==> exists p :: p in history && p.relations == relations
  {
    if p :| p in history && p.relations == relations {
      var i :| 0 <= i < |history| && history[i] == p;
      assert i < |history| - 1;
      assert LeftBehind(history, i, relations);
    }
    if i :| 0 <= i < |history| && LeftBehind(history, i, relations) {
      assert history[i] in history;
    }
  }

  /** A set is restored exactly if it differs from the latest one but occurred before. */
  method RelationalRestoration(history: seq<RelationSetPoint>, current: RelationSetPoint) returns (r: Result<bool, Error>)
    ensures r.Ok? <==> Continues(history, current)
    ensures r.Ok? ==> (r.value <==>
              && history != [] && history[|history| - 1].relations != current.relations
              && exists p :: p in history && p.relations == current.relations)
  {
    if history == [] {
      return Ok(false);
    }
    var failure := CheckHistory(history, current);
    if failure.Some? {
      return Err(failure.value);
    }
    if history[|history| - 1].relations == current.relations {
      return Ok(false);
    }
    RestoredIsRepeated(history, current.relations);
    return Ok(exists i | 0 <= i < |history| :: LeftBehind(history, i, current.relations));
  }

  /** The loop over the history, and the check that the current point comes next. */
  method CheckHistory(history: seq<RelationSetPoint>, current: RelationSetPoint) returns (failure: Option<Error>)
    requires history != []
    ensures failure.None? <==> Continues(history, current)
  {
    var previousIndex: int := -1;
    for i := 0 to |history|
      invariant forall p | p in history[..i] :: p.lineage == current.lineage && p.versions == current.versions
      invariant forall k, j | 0 <= k < j < i :: history[k].index < history[j].index
      invariant previousIndex == if i == 0 then -1 else history[i - 1].index
    {
      assert history[i] in history;
      assert history[..i + 1] == history[..i] + [history[i]];
      if history[i].lineage != current.lineage {
        return Some(CrossesLineages);
      }
      if history[i].versions != current.versions {
        return Some(CrossesVersions);
      }
      if history[i].index <= previousIndex {
        return Some(NotStrictlyOrdered);
      }
      previousIndex := history[i].index;
    }
    assert history[..|history|] == history;
    if current.index != previousIndex + 1 {
      return Some(NotNextEvent);
    }
    return None;
  }
}
