/** Lists of references: when they repeat, and when they name the same set
  * (`isUniqueGatewayStringArray`, `sameGatewayStringSet`, `isUniqueStringArray`, `sameStringSet`). */
module References {
  import opened Sets
  import opened Totals
  import opened CanonicalJson
  import opened DispatchInput

  predicate Distinct<T(==)>(xs: seq<T>) {
    forall i, j | 0 <= i < j < |xs| :: xs[i] != xs[j]
  }

  function SetOf<T>(xs: seq<T>): set<T> { set x | x in xs }

  predicate IsNonEmptyText(v: Json) { v.String? && !IsBlank(v.text) }

  predicate IsUniqueTextArray(v: Json) {
    v.Array? && (forall x | x in v.items :: IsNonEmptyText(x)) && |SetOf(v.items)| == |v.items|
  }

  predicate SameTextSet(values: seq<Json>, expected: set<Json>) {
    |values| == |expected| && forall v | v in values :: v in expected
  }

  lemma SetOfSnoc<T>(xs: seq<T>, x: T)
    ensures SetOf(xs + [x]) == SetOf(xs) + {x}
  {
  }

  lemma DistinctSnoc<T>(xs: seq<T>, x: T)
    ensures Distinct(xs + [x]) <==> Distinct(xs) && x !in xs
  {
    var s := xs + [x];
    if Distinct(s) {
      forall i, j | 0 <= i < j < |xs| ensures xs[i] != xs[j] { assert s[i] != s[j]; }
      forall i | 0 <= i < |xs| ensures xs[i] != x { assert s[i] != s[|xs|]; }
    }
  }

  lemma DistinctAppend<T>(xs: seq<T>, ys: seq<T>)
    ensures Distinct(xs + ys) <==> Distinct(xs) && Distinct(ys) && forall y | y in ys :: y !in xs
  {
    var s := xs + ys;
    if Distinct(s) {
      forall i, j | 0 <= i < j < |xs| ensures xs[i] != xs[j] { assert s[i] != s[j]; }
      forall i, j | 0 <= i < j < |ys| ensures ys[i] != ys[j] { assert s[|xs| + i] != s[|xs| + j]; }
      forall y | y in ys ensures y !in xs {
        var j :| 0 <= j < |ys| && ys[j] == y;
        forall i | 0 <= i < |xs| ensures xs[i] != y { assert s[i] != s[|xs| + j]; }
      }
    } else {
      var i, j :| 0 <= i < j < |s| && s[i] == s[j];
      if i < |xs| <= j { assert xs[i] == ys[j - |xs|] && ys[j - |xs|] in ys; }
      else if |xs| <= i { assert ys[i - |xs|] == ys[j - |xs|]; }
    }
  }

  lemma DistinctPrefix<T>(xs: seq<T>, n: nat)
    requires n <= |xs| && Distinct(xs)
    ensures Distinct(xs[..n])
  {
  }

  lemma {:induction false} FilterDistinct<T>(xs: seq<T>, keep: T -> bool)
    requires Distinct(xs)
    ensures Distinct(Filter(xs, keep))
  {
    if xs != [] {
      DistinctAppend([xs[0]], xs[1..]);
      assert [xs[0]] + xs[1..] == xs;
      FilterDistinct(xs[1..], keep);
      if keep(xs[0]) { DistinctAppend([xs[0]], Filter(xs[1..], keep)); }
    }
  }

  /** Comparing sizes decides whether a list repeats itself. */
  lemma {:induction false} SizeTellsDistinct<T>(xs: seq<T>)
    ensures |SetOf(xs)| <= |xs|
    ensures |SetOf(xs)| == |xs| <==> Distinct(xs)
  {
    if xs != [] {
      var front, x := xs[..|xs| - 1], xs[|xs| - 1];
      assert xs == front + [x];
      SizeTellsDistinct(front);
      SetOfSnoc(front, x);
      DistinctSnoc(front, x);
      if x in front { assert SetOf(front) + {x} == SetOf(front); }
    }
  }

  lemma UniqueTextsAreDistinct(v: Json)
    ensures IsUniqueTextArray(v) <==> v.Array? && (forall x | x in v.items :: IsNonEmptyText(x)) && Distinct(v.items)
  {
    if v.Array? { SizeTellsDistinct(v.items); }
  }

  /** On a list without repetitions, equal size and membership one way mean equal sets. */
  lemma SameTextSetIsEquality(values: seq<Json>, expected: set<Json>)
    requires Distinct(values)
    ensures SameTextSet(values, expected) <==> SetOf(values) == expected
  {
    SizeTellsDistinct(values);
    if SameTextSet(values, expected) { SubsetOfEqualSize(SetOf(values), expected); }
  }

  /** Without that guard the comparison would accept a list that leaves members out. */
  lemma SameTextSetNeedsDistinctValues()
    ensures exists values: seq<Json>, expected: set<Json> :: SameTextSet(values, expected) && SetOf(values) != expected
  {
    var a, b := String([97]), String([98]);
    var values, expected := [a, a], {a, b};
    assert b in expected && b !in SetOf(values);
    assert SameTextSet(values, expected);
  }

  // ---- Order does not matter ----

  lemma SameSetOf<T>(xs: seq<T>, ys: seq<T>)
    requires multiset(xs) == multiset(ys)
    ensures SetOf(xs) == SetOf(ys) && |xs| == |ys| && (Distinct(xs) <==> Distinct(ys))
  {
    forall x ensures x in xs <==> x in ys {
      assert x in xs <==> x in multiset(xs);
      assert x in ys <==> x in multiset(ys);
    }
    assert |multiset(xs)| == |xs| && |multiset(ys)| == |ys|;
    SizeTellsDistinct(xs);
    SizeTellsDistinct(ys);
  }

  /** All the references that the members of a list hold, in order. */
  function Collect<S, T>(xs: seq<S>, refs: S -> seq<T>): seq<T> {
    if xs == [] then [] else Collect(xs[..|xs| - 1], refs) + refs(xs[|xs| - 1])
  }

  lemma CollectSnoc<S, T>(xs: seq<S>, x: S, refs: S -> seq<T>)
    ensures Collect(xs + [x], refs) == Collect(xs, refs) + refs(x)
  {
    assert (xs + [x])[..|xs|] == xs;
  }

  lemma {:induction false} CollectAppend<S, T>(xs: seq<S>, ys: seq<S>, refs: S -> seq<T>)
    ensures Collect(xs + ys, refs) == Collect(xs, refs) + Collect(ys, refs)
  {
    if ys == [] {
      assert xs + ys == xs;
    } else {
      var front, y := ys[..|ys| - 1], ys[|ys| - 1];
      assert xs + ys == (xs + front) + [y] && ys == front + [y];
      CollectAppend(xs, front, refs);
      CollectSnoc(xs + front, y, refs);
    }
  }

  lemma CollectOne<S, T>(x: S, refs: S -> seq<T>)
    ensures Collect([x], refs) == refs(x)
  {
    assert [x][..0] == [];
    assert Collect([x], refs) == Collect([], refs) + refs(x);
  }

  lemma FirstOfCollected<S, T>(xs: seq<S>, refs: S -> seq<T>)
    requires xs != [] && refs(xs[0]) != []
    ensures Collect(xs, refs) != [] && Collect(xs, refs)[0] == refs(xs[0])[0]
  {
    assert xs == [xs[0]] + xs[1..] && [xs[0]] == [] + [xs[0]];
    CollectAppend([xs[0]], xs[1..], refs);
    CollectSnoc([], xs[0], refs);
    assert Collect([xs[0]], refs) == [] + refs(xs[0]) == refs(xs[0]);
  }

  lemma MiddleOut<T>(front: seq<T>, middle: seq<T>, back: seq<T>)
    ensures multiset(front + (middle + back)) == multiset(middle) + multiset(front + back)
  {
  }

  lemma CollectMiddle<S, T>(front: seq<S>, x: S, back: seq<S>, refs: S -> seq<T>)
    ensures multiset(Collect(front + ([x] + back), refs)) == multiset(refs(x)) + multiset(Collect(front + back, refs))
  {
    hide Collect;
    CollectAppend(front, [x] + back, refs);
    CollectAppend([x], back, refs);
    CollectAppend(front, back, refs);
    CollectOne(x, refs);
    MiddleOut(Collect(front, refs), refs(x), Collect(back, refs));
  }

  lemma CollectExtract<S, T>(xs: seq<S>, k: nat, refs: S -> seq<T>)
    requires k < |xs|
    ensures multiset(Collect(xs, refs)) == multiset(refs(xs[k])) + multiset(Collect(RemoveAt(xs, k), refs))
  {
    hide RemoveAt, Collect;
    RemoveAtParts(xs, k);
    assert xs == xs[..k] + ([xs[k]] + xs[k + 1..]);
    CollectMiddle(xs[..k], xs[k], xs[k + 1..], refs);
  }

  lemma PlaceOfFirst<T>(xs: seq<T>, ys: seq<T>) returns (k: nat)
    requires xs != [] && multiset(xs) == multiset(ys)
    ensures k < |ys| && ys[k] == xs[0]
  {
    assert xs[0] in multiset(ys);
    k :| 0 <= k < |ys| && ys[k] == xs[0];
  }

  lemma {:induction false} CollectPermutation<S, T>(xs: seq<S>, ys: seq<S>, refs: S -> seq<T>)
    requires multiset(xs) == multiset(ys)
    ensures multiset(Collect(xs, refs)) == multiset(Collect(ys, refs))
  {
    hide RemoveAt, Collect;
    if xs == [] {
      assert |ys| == |multiset(ys)| == 0;
      assert xs == ys;
    } else {
      var k := PlaceOfFirst(xs, ys);
      var rest := RemoveAt(ys, k);
      SameRest(xs, ys, rest);
      CollectPermutation(xs[1..], rest, refs);
      CollectExtract(ys, k, refs);
      CollectExtract(xs, 0, refs);
      RemoveAtParts(xs, 0);
      assert RemoveAt(xs, 0) == xs[1..];
    }
  }

  lemma {:induction false} MapIsCollect<S, T>(xs: seq<S>, f: S -> T, refs: S -> seq<T>)
    requires forall x :: refs(x) == [f(x)]
    ensures Collect(xs, refs) == Map(xs, f)
  {
    if xs != [] {
      MapIsCollect(xs[..|xs| - 1], f, refs);
    }
  }

  lemma MapMultiset<S, T>(xs: seq<S>, ys: seq<S>, f: S -> T)
    requires multiset(xs) == multiset(ys)
    ensures multiset(Map(xs, f)) == multiset(Map(ys, f))
  {
    var refs := (x: S) => [f(x)];
    MapIsCollect(xs, f, refs);
    MapIsCollect(ys, f, refs);
    CollectPermutation(xs, ys, refs);
  }

  lemma MapPermutation<S, T>(xs: seq<S>, ys: seq<S>, f: S -> T)
    requires multiset(xs) == multiset(ys)
    ensures SetOf(Map(xs, f)) == SetOf(Map(ys, f)) && (Distinct(Map(xs, f)) <==> Distinct(Map(ys, f)))
  {
    MapMultiset(xs, ys, f);
    SameSetOf(Map(xs, f), Map(ys, f));
  }
}
