/** Sizes of finite sets. */
module Sets {

  lemma SubsetIsNoLarger<T>(a: set<T>, b: set<T>)
    requires a <= b
    ensures |a| <= |b|
  {
    assert b == a + (b - a);
  }

  lemma SubsetOfEqualSize<T>(a: set<T>, b: set<T>)
    requires a <= b && |a| == |b|
    ensures a == b
  {
    assert b == a + (b - a);
  }

  lemma StrictSubsetIsSmaller<T>(a: set<T>, b: set<T>, x: T)
    requires a <= b && x in b && x !in a
    ensures |a| < |b|
  {
    assert b == a + {x} + (b - a - {x});
  }

  lemma PartsOfSet<T>(all: set<T>, part: set<T>)
    requires part <= all
    ensures |part| + |all - part| == |all|
  {
    assert all == part + (all - part);
  }
}
