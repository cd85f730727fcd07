/** Counting members of finite sets. */
module Counting {
  function One(b: bool): nat { if b then 1 else 0 }

  /** Two sets that differ at one element at most. */
  lemma CardMove<T>(a: set<T>, b: set<T>, x: T)
    requires forall y | y != x :: y in a <==> y in b
    ensures |b| == |a| - One(x in a) + One(x in b)
  {
    assert a - {x} == b - {x};
    assert a == if x in a then a - {x} + {x} else a - {x};
    assert b == if x in b then b - {x} + {x} else b - {x};
  }

  lemma CardLess<T>(a: set<T>, b: set<T>)
    requires a <= b
    ensures |a| <= |b|
  {
    assert b == a + (b - a);
  }

  lemma CardDiff<T>(a: set<T>, b: set<T>)
    requires b <= a
    ensures |a - b| == |a| - |b|
  {
  }
}
