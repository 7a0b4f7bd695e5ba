/** Sizes of finite sets. */
module FiniteSets {

  lemma SubsetSize<T>(a: set<T>, b: set<T>)
    requires a <= b
    ensures |a| <= |b|
  {
    assert b == a + (b - a);
  }

  /** Sets that differ in one element at most differ in size by one at most. */
  lemma SetSizes<T>(a: set<T>, b: set<T>, x: T)
    requires a - {x} == b - {x}
    ensures |b| - 1 <= |a| <= |b| + 1
  {
    assert a <= (a - {x}) + {x} == (b - {x}) + {x} == b + {x};
    assert b <= (b - {x}) + {x} == (a - {x}) + {x} == a + {x};
    SubsetSize(a, b + {x});
    SubsetSize(b, a + {x});
  }

  /** A one-to-one image is as large as the set. */
  lemma {:induction false} ImageSize<A(!new), B(!new)>(s: set<A>, f: A -> B, image: set<B>)
    requires forall x, y | x in s && y in s && f(x) == f(y) :: x == y
    requires forall x | x in s :: f(x) in image
    requires forall y | y in image :: exists x :: x in s && f(x) == y
    ensures |image| == |s|
    decreases |s|
  {
    if s == {} {
      assert image == {};
    } else {
      var x :| x in s;
      ImageSize(s - {x}, f, image - {f(x)});
    }
  }
}
