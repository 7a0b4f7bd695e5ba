/** Sums over the values of a finite map. */
module MapSums {

  ghost function SumOf<K, V>(m: map<K, V>, f: V -> int): int
    decreases |m|
  {
    if m == map[] then 0
    else
      var k :| k in m;
      f(m[k]) + SumOf(m - {k}, f)
  }

  lemma {:induction false} SumRemove<K, V>(m: map<K, V>, f: V -> int, k: K)
    requires k in m
    ensures SumOf(m, f) == f(m[k]) + SumOf(m - {k}, f)
    decreases |m|
  {
    var k' :| k' in m && SumOf(m, f) == f(m[k']) + SumOf(m - {k'}, f);
    if k' != k {
      SumRemove(m - {k'}, f, k);
      SumRemove(m - {k}, f, k');
      assert m - {k} - {k'} == m - {k'} - {k};
    }
  }

  /** Replacing or adding one value changes the sum by the difference. */
  lemma SumUpdate<K, V>(m: map<K, V>, f: V -> int, k: K, v: V)
    ensures SumOf(m[k := v], f) == SumOf(m, f) - (if k in m then f(m[k]) else 0) + f(v)
  {
    SumRemove(m[k := v], f, k);
    if k in m {
      SumRemove(m, f, k);
      assert m[k := v] - {k} == m - {k};
    } else {
      assert m[k := v] - {k} == m;
    }
  }

  /** With non-negative terms, every single term is at most the sum. */
  lemma TermWithinSum<K, V>(m: map<K, V>, f: V -> int, k: K)
    requires k in m
    requires forall x | x in m :: f(m[x]) >= 0
    ensures f(m[k]) <= SumOf(m, f)
  {
    SumRemove(m, f, k);
    SumNonNegative(m - {k}, f);
  }

  lemma {:induction false} SumNonNegative<K, V>(m: map<K, V>, f: V -> int)
    requires forall x | x in m :: f(m[x]) >= 0
    ensures SumOf(m, f) >= 0
    decreases |m|
  {
    if m != map[] {
      var k :| k in m && SumOf(m, f) == f(m[k]) + SumOf(m - {k}, f);
      SumNonNegative(m - {k}, f);
    }
  }
}
