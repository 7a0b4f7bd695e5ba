/**
 Sorting by a caller-supplied order, and filtering.

 The order of equal keys is the order of the input (the sort is stable); a list whose elements the order
 tells apart has exactly one sorted arrangement, which is what makes results independent of input order.
 */
module Ordering {

  ghost predicate Total<T(!new)>(le: (T, T) -> bool) {
    && (forall x, y :: le(x, y) || le(y, x))
    && (forall x, y, z :: le(x, y) && le(y, z) ==> le(x, z))
  }

  ghost predicate Sorted<T>(s: seq<T>, le: (T, T) -> bool) {
    forall i, j | 0 <= i < j < |s| :: le(s[i], s[j])
  }

  /** The order tells any two elements of s apart. */
  ghost predicate Separates<T>(s: seq<T>, le: (T, T) -> bool) {
    forall x, y | x in s && y in s && le(x, y) && le(y, x) :: x == y
  }

  function Insert<T>(x: T, s: seq<T>, le: (T, T) -> bool): (r: seq<T>)
    ensures multiset(r) == multiset{x} + multiset(s)
  {
    if s == [] then [x]
    else if le(x, s[0]) then [x] + s
    else
      assert s == [s[0]] + s[1..];
      [s[0]] + Insert(x, s[1..], le)
  }

  function SortBy<T>(s: seq<T>, le: (T, T) -> bool): (r: seq<T>)
    ensures multiset(r) == multiset(s)
    ensures |r| == |s|
  {
    if s == [] then []
    else
      assert s == [s[0]] + s[1..];
      var r := Insert(s[0], SortBy(s[1..], le), le);
      assert |multiset(r)| == |r|;
      r
  }

  lemma MultisetMembers<T(!new)>(a: seq<T>, b: seq<T>)
    requires multiset(a) == multiset(b)
    ensures forall x :: x in a <==> x in b
    ensures |a| == |b|
  {
    forall x ensures x in a <==> x in b {
      assert x in a <==> x in multiset(a);
      assert x in b <==> x in multiset(b);
    }
    assert |multiset(a)| == |a| && |multiset(b)| == |b|;
  }

  lemma {:induction false} InsertSorted<T(!new)>(x: T, s: seq<T>, le: (T, T) -> bool)
    requires Total(le) && Sorted(s, le)
    ensures Sorted(Insert(x, s, le), le)
  {
    if s == [] {
    } else if le(x, s[0]) {
      assert forall j | 0 < j < |s| :: le(s[0], s[j]);
    } else {
      var rest := Insert(x, s[1..], le);
      InsertSorted(x, s[1..], le);
      assert multiset([x] + s[1..]) == multiset(rest);
      MultisetMembers([x] + s[1..], rest);
      forall j | 0 <= j < |rest| ensures le(s[0], rest[j]) {
        assert rest[j] in [x] + s[1..];
      }
    }
  }

  lemma {:induction false} SortBySorted<T(!new)>(s: seq<T>, le: (T, T) -> bool)
    requires Total(le)
    ensures Sorted(SortBy(s, le), le)
  {
    if s != [] {
      SortBySorted(s[1..], le);
      InsertSorted(s[0], SortBy(s[1..], le), le);
    }
  }

  lemma LeastComesFirst<T(!new)>(a: seq<T>, b: seq<T>, le: (T, T) -> bool)
    requires Total(le) && Sorted(a, le) && Sorted(b, le) && a != [] && b != []
    requires a[0] in b && b[0] in a
    ensures le(a[0], b[0]) && le(b[0], a[0])
  {
    var i :| 0 <= i < |b| && b[i] == a[0];
    var j :| 0 <= j < |a| && a[j] == b[0];
    assert i == 0 || le(b[0], b[i]);
    assert j == 0 || le(a[0], a[j]);
    assert le(a[0], a[0]) && le(b[0], b[0]);
  }

  lemma HeadAndTail<T>(a: seq<T>)
    requires a != []
    ensures multiset(a) == multiset(a[1..]) + multiset{a[0]}
  {
    assert a == [a[0]] + a[1..];
  }

  lemma TailsPermute<T>(a: seq<T>, b: seq<T>)
    requires a != [] && b != [] && a[0] == b[0] && multiset(a) == multiset(b)
    ensures multiset(a[1..]) == multiset(b[1..])
  {
    HeadAndTail(a);
    HeadAndTail(b);
    AddedOnce(multiset(a[1..]), multiset(b[1..]), a[0]);
  }

  lemma {:induction false} SortedUnique<T(!new)>(a: seq<T>, b: seq<T>, le: (T, T) -> bool)
    requires Total(le) && Sorted(a, le) && Sorted(b, le)
    requires multiset(a) == multiset(b) && Separates(a, le)
    ensures a == b
  {
    MultisetMembers(a, b);
    if a != [] {
      assert a[0] in a && b[0] in b;
      assert b[0] in a && a[0] in b;
      LeastComesFirst(a, b, le);
      assert a[0] == b[0];
      TailsPermute(a, b);
      TailSeparates(a, le);
      SortedUnique(a[1..], b[1..], le);
      assert a == [a[0]] + a[1..] && b == [b[0]] + b[1..];
    }
  }

  lemma TailSeparates<T(!new)>(a: seq<T>, le: (T, T) -> bool)
    requires a != [] && Separates(a, le)
    ensures Separates(a[1..], le)
  {
    assert forall x | x in a[1..] :: x in a;
  }

  /** Sorting forgets the order of the input wherever the order tells its elements apart. */
  lemma SortForgetsInputOrder<T(!new)>(a: seq<T>, b: seq<T>, le: (T, T) -> bool)
    requires Total(le) && multiset(a) == multiset(b) && Separates(a, le)
    ensures SortBy(a, le) == SortBy(b, le)
  {
    SortBySorted(a, le);
    SortBySorted(b, le);
    MultisetMembers(a, SortBy(a, le));
    SortedUnique(SortBy(a, le), SortBy(b, le), le);
  }

  /** A list that is already sorted is left as it is. */
  lemma {:induction false} SortOfSorted<T(!new)>(s: seq<T>, le: (T, T) -> bool)
    requires Total(le) && Sorted(s, le)
    ensures SortBy(s, le) == s
  {
    if s != [] {
      SortOfSorted(s[1..], le);
      assert s == [s[0]] + s[1..];
    }
  }

  lemma {:induction false} InsertBeforeGreatest<T>(x: T, s: seq<T>, last: T, le: (T, T) -> bool)
    requires le(x, last)
    ensures Insert(x, s + [last], le) == Insert(x, s, le) + [last]
  {
    if s != [] && !le(x, s[0]) {
      assert (s + [last])[1..] == s[1..] + [last];
      InsertBeforeGreatest(x, s[1..], last, le);
    }
  }

  /** Adding an element that no other exceeds only appends it to the sorted list. */
  lemma {:induction false} SortAppendsGreatest<T>(s: seq<T>, last: T, le: (T, T) -> bool)
    requires forall x | x in s :: le(x, last)
    ensures SortBy(s + [last], le) == SortBy(s, le) + [last]
  {
    if s == [] {
      assert s + [last] == [last];
    } else {
      assert (s + [last])[1..] == s[1..] + [last];
      SortAppendsGreatest(s[1..], last, le);
      InsertBeforeGreatest(s[0], SortBy(s[1..], le), last, le);
    }
  }

  function Filter<T>(s: seq<T>, p: T -> bool): seq<T> {
    if s == [] then []
    else
      var n := |s| - 1;
      if p(s[n]) then Filter(s[..n], p) + [s[n]] else Filter(s[..n], p)
  }

  lemma FilterStep<T>(s: seq<T>, i: nat, p: T -> bool)
    requires i < |s|
    ensures Filter(s[..i + 1], p) == if p(s[i]) then Filter(s[..i], p) + [s[i]] else Filter(s[..i], p)
  {
    assert s[..i + 1][..i] == s[..i];
  }

  lemma {:induction false} FilterMembers<T(!new)>(s: seq<T>, p: T -> bool)
    ensures forall x :: x in Filter(s, p) <==> x in s && p(x)
  {
    if s != [] {
      var n := |s| - 1;
      FilterMembers(s[..n], p);
      assert s == s[..n] + [s[n]];
    }
  }

  lemma {:induction false} FilterConcat<T(!new)>(a: seq<T>, b: seq<T>, p: T -> bool)
    ensures Filter(a + b, p) == Filter(a, p) + Filter(b, p)
  {
    if b == [] {
      assert a + b == a;
    } else {
      var n := |b| - 1;
      assert (a + b)[..|a + b| - 1] == a + b[..n];
      FilterConcat(a, b[..n], p);
    }
  }

  lemma {:induction false} FilterMultiset<T(!new)>(a: seq<T>, b: seq<T>, p: T -> bool)
    requires multiset(a) == multiset(b)
    ensures multiset(Filter(a, p)) == multiset(Filter(b, p))
  {
    forall x ensures multiset(Filter(a, p))[x] == multiset(Filter(b, p))[x] {
      FilterCount(a, p, x);
      FilterCount(b, p, x);
    }
  }

  lemma {:induction false} FilterCount<T(!new)>(a: seq<T>, p: T -> bool, x: T)
    ensures multiset(Filter(a, p))[x] == if p(x) then multiset(a)[x] else 0
  {
    if a != [] {
      var n := |a| - 1;
      FilterCount(a[..n], p, x);
      assert a == a[..n] + [a[n]];
    }
  }

  ghost predicate Distinct<T>(s: seq<T>) {
    forall i, j | 0 <= i < j < |s| :: s[i] != s[j]
  }

  lemma {:induction false} DistinctIsOnce<T(!new)>(s: seq<T>)
    ensures Distinct(s) <==> forall x :: multiset(s)[x] <= 1
  {
    if s != [] {
      var n := |s| - 1;
      DistinctIsOnce(s[..n]);
      assert s == s[..n] + [s[n]];
      assert Distinct(s) <==> Distinct(s[..n]) && s[n] !in s[..n];
      assert s[n] in s[..n] <==> multiset(s[..n])[s[n]] >= 1;
      if Distinct(s) {
        forall x ensures multiset(s)[x] <= 1 {
        }
      } else if Distinct(s[..n]) {
        assert multiset(s)[s[n]] >= 2;
      } else {
        var x :| multiset(s[..n])[x] > 1;
        assert multiset(s)[x] > 1;
      }
    }
  }

  lemma DistinctPermutation<T(!new)>(a: seq<T>, b: seq<T>)
    requires multiset(a) == multiset(b) && Distinct(a)
    ensures Distinct(b)
  {
    DistinctIsOnce(a);
    DistinctIsOnce(b);
  }

  lemma AddedOnce<T>(m: multiset<T>, n: multiset<T>, x: T)
    requires m + multiset{x} == n + multiset{x}
    ensures m == n
  {
    assert m == (m + multiset{x}) - multiset{x};
    assert n == (n + multiset{x}) - multiset{x};
  }

  lemma RemoveOne<T>(front: seq<T>, x: T, back: seq<T>, rest: seq<T>)
    requires multiset(front + [x] + back) == multiset([x] + rest)
    ensures multiset(front + back) == multiset(rest)
  {
    assert multiset(front + [x] + back) == multiset(front + back) + multiset{x};
    assert multiset([x] + rest) == multiset(rest) + multiset{x};
    AddedOnce(multiset(front + back), multiset(rest), x);
  }

  /** An element that does not pass leaves no trace. */
  lemma FilterSkips<T(!new)>(front: seq<T>, x: T, back: seq<T>, p: T -> bool)
    requires !p(x)
    ensures Filter(front + [x] + back, p) == Filter(front, p) + Filter(back, p)
  {
    FilterConcat(front + [x], back, p);
    assert (front + [x])[..|front|] == front;
  }

  /** Filters that agree on the elements give the same list. */
  lemma {:induction false} FilterAgree<T(!new)>(s: seq<T>, p: T -> bool, q: T -> bool)
    requires forall x | x in s :: p(x) <==> q(x)
    ensures Filter(s, p) == Filter(s, q)
  {
    if s != [] {
      var n := |s| - 1;
      assert s == s[..n] + [s[n]];
      FilterAgree(s[..n], p, q);
    }
  }

  /** A filter implied by another one may be applied first. */
  lemma {:induction false} FilterWithin<T(!new)>(s: seq<T>, p: T -> bool, q: T -> bool)
    requires forall x | x in s && p(x) :: q(x)
    ensures Filter(Filter(s, q), p) == Filter(s, p)
  {
    if s != [] {
      var n := |s| - 1;
      assert s == s[..n] + [s[n]];
      FilterWithin(s[..n], p, q);
      FilterLast(Filter(s[..n], q), s[n], p);
    }
  }

  /** As many elements are kept as there are places whose element meets the predicate. */
  lemma {:induction false} FilterCountsPlaces<T(!new)>(s: seq<T>, p: T -> bool, places: set<int>)
    requires forall i | i in places :: 0 <= i < |s| && p(s[i])
    requires forall i | 0 <= i < |s| && p(s[i]) :: i in places
    ensures |Filter(s, p)| == |places|
  {
    if s == [] {
      assert !exists i :: i in places;
    } else {
      var n := |s| - 1;
      FilterCountsPlaces(s[..n], p, places - {n});
    }
  }

  lemma FilterLast<T>(s: seq<T>, x: T, p: T -> bool)
    ensures Filter(s + [x], p) == if p(x) then Filter(s, p) + [x] else Filter(s, p)
  {
    assert (s + [x])[..|s|] == s;
  }

  lemma {:induction false} FilterSwap<T(!new)>(s: seq<T>, p: T -> bool, q: T -> bool)
    ensures Filter(Filter(s, p), q) == Filter(Filter(s, q), p)
  {
    if s != [] {
      var n := |s| - 1;
      FilterSwap(s[..n], p, q);
      FilterLast(Filter(s[..n], p), s[n], q);
      FilterLast(Filter(s[..n], q), s[n], p);
    }
  }

  lemma {:induction false} FilterAll<T(!new)>(s: seq<T>, p: T -> bool)
    requires forall x | x in s :: p(x)
    ensures Filter(s, p) == s
  {
    if s != [] {
      var n := |s| - 1;
      assert s == s[..n] + [s[n]];
      FilterAll(s[..n], p);
    }
  }

  lemma {:induction false} FilterNone<T(!new)>(s: seq<T>, p: T -> bool)
    requires forall x | x in s :: !p(x)
    ensures Filter(s, p) == []
  {
    if s != [] {
      var n := |s| - 1;
      assert s == s[..n] + [s[n]];
      FilterNone(s[..n], p);
    }
  }
}
