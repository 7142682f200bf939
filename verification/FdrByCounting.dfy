/** The adjusted p-value without ranks: the least, over all p-values that are no smaller, of the p-value times
  * the size of the family and the multiplier, divided by how many p-values it is not exceeded by. */
module FdrByCounting {
  import opened Totals
  import opened RealArith
  import opened RealOrder
  import opened Counting
  import opened FdrAdjustment

  lemma {:induction false} CountNone(xs: seq<real>, holds: real -> bool)
    requires forall i | 0 <= i < |xs| :: !holds(xs[i])
    ensures Count(xs, holds) == 0
  {
    if xs != [] {
      assert !holds(xs[0]);
      CountNone(xs[1..], holds);
    }
  }

  /** In an ascending arrangement, as many values are at most the one at `j` as its last occurrence has
    * predecessors, and itself. */
  lemma CountUpTo(s: seq<real>, j: nat)
    requires Ascends(s) && j < |s| && (j + 1 < |s| ==> s[j] < s[j + 1])
    ensures Count(s, x => AtMostOf(s[j], x)) == j + 1
  {
    var holds := x => AtMostOf(s[j], x);
    var front, back := s[..j + 1], s[j + 1..];
    assert s == front + back;
    CountAppend(front, back, holds);
    CountAll(front, holds);
    CountNone(back, holds);
  }

  lemma LastOccurrence(s: seq<real>, i: nat) returns (j: nat)
    requires Ascends(s) && i < |s|
    ensures i <= j < |s| && s[j] == s[i] && (j + 1 < |s| ==> s[j] < s[j + 1])
  {
    j := i;
    while j + 1 < |s| && s[j + 1] == s[j]
      invariant i <= j < |s| && s[j] == s[i]
    {
      j := j + 1;
    }
  }

  /** `q` is at most the p-value `v` times the size and the multiplier over how many do not exceed it. */
  ghost predicate IsBelow(q: real, p: seq<real>, v: real, multiplier: real) {
    q * Count(p, x => AtMostOf(v, x)) as real <= v * |p| as real * multiplier
  }

  ghost predicate IsReached(q: real, p: seq<real>, v: real, multiplier: real) {
    q * Count(p, x => AtMostOf(v, x)) as real == v * |p| as real * multiplier
  }

  lemma CountAtLast(p: seq<real>, j: nat)
    requires j < |p| == |SortedValues(p)|
    requires j + 1 < |p| ==> SortedValues(p)[j] < SortedValues(p)[j + 1]
    ensures Count(p, x => AtMostOf(SortedValues(p)[j], x)) == j + 1
  {
    var s := SortedValues(p);
    SortedAscends(p);
    CountUpTo(s, j);
    CountPermutation(p, s, x => AtMostOf(s[j], x));
    hide *;
  }

  lemma CandidateAtLast(p: seq<real>, fdr: FdrMethod, j: nat, q: real)
    requires j < |p| == |SortedValues(p)| == |ScaledPValues(p, fdr)|
    requires j + 1 < |p| ==> SortedValues(p)[j] < SortedValues(p)[j + 1]
    ensures var v, m := SortedValues(p)[j], DependencyMultiplier(fdr, |p|);
      && (q <= ScaledPValues(p, fdr)[j] <==> IsBelow(q, p, v, m))
      && (q == ScaledPValues(p, fdr)[j] <==> IsReached(q, p, v, m))
  {
    CountAtLast(p, j);
    var v, m := SortedValues(p)[j], DependencyMultiplier(fdr, |p|);
    assert ScaledPValues(p, fdr)[j] == ScaledP(v, |p|, m, j + 1);
    hide SortedValues, ScaledPValues, DependencyMultiplier, IsBelow, IsReached, ScaledP, Count;
    ByQuotient(q, p, v, m, j + 1);
  }

  lemma ByQuotient(q: real, p: seq<real>, v: real, multiplier: real, n: nat)
    requires n > 0 && Count(p, x => AtMostOf(v, x)) == n
    ensures q <= ScaledP(v, |p|, multiplier, n) <==> IsBelow(q, p, v, multiplier)
    ensures q == ScaledP(v, |p|, multiplier, n) <==> IsReached(q, p, v, multiplier)
  {
    hide Count;
    QuotientAgainst(q, v * |p| as real * multiplier, n as real);
  }

  lemma QuotientAgainst(q: real, x: real, n: real)
    requires n > 0.0
    ensures q <= x / n <==> q * n <= x
    ensures q == x / n <==> q * n == x
  {
    LeDiv(q, x, n);
    var r := x / n;
    assert r * n == x;
    if q * n == x { SameFactorOf(q, r, n); }
  }

  lemma SameFactorOf(x: real, y: real, z: real)
    requires z > 0.0 && x * z == y * z
    ensures x == y
  {
    if x < y { ProductPositive(y - x, z); }
    if y < x { ProductPositive(x - y, z); }
  }

  // ---- The multiplier ----

  /** One for Benjamini-Hochberg; for Benjamini-Yekutieli the sum of the reciprocals up to the size. */
  lemma MultiplierIsSumOfReciprocals(n: nat, reciprocal: nat -> real)
    requires forall i: nat | i > 0 :: reciprocal(i) * i as real == 1.0
    ensures DependencyMultiplier(BenjaminiHochberg, n) == 1.0
    ensures DependencyMultiplier(BenjaminiYekutieli, n) == Total(UpTo(n), reciprocal)
  {
    HarmonicIsTotal(n, reciprocal);
  }

  function UpTo(n: nat): (r: seq<nat>)
    ensures |r| == n && forall i | 0 <= i < n :: r[i] == i + 1
  {
    seq(n, i requires 0 <= i < n => i + 1)
  }

  lemma {:induction false} HarmonicIsTotal(n: nat, reciprocal: nat -> real)
    requires forall i: nat | i > 0 :: reciprocal(i) * i as real == 1.0
    ensures Harmonic(n) == Total(UpTo(n), reciprocal)
  {
    if n > 0 {
      HarmonicIsTotal(n - 1, reciprocal);
      assert UpTo(n) == UpTo(n - 1) + [n];
      TotalSnoc(UpTo(n - 1), n, reciprocal);
      QuotientAgainst(reciprocal(n), 1.0, n as real);
    }
  }

  // ---- The adjusted value ----

  lemma NoLaterIsBetter(p: seq<real>, fdr: FdrMethod, q: real, i: nat, j: nat)
    requires Probabilities(p) && |SortedValues(p)| == |ScaledPValues(p, fdr)| == |p|
    requires IsMinimumFrom(q, ScaledPValues(p, fdr), i) && i <= j < |p| && q == ScaledPValues(p, fdr)[j]
    ensures exists v :: v in p && v >= SortedValues(p)[i] && IsReached(q, p, v, DependencyMultiplier(fdr, |p|))
  {
    SortedAscends(p);
    var s := SortedValues(p);
    var last := LastOccurrence(s, j);
    TieScalesLower(p, fdr, j, last);
    CandidateAtLast(p, fdr, last, q);
    assert s[last] in multiset(s) && s[last] in multiset(p);
    hide IsReached, SortedValues, ScaledPValues;
    assert s[last] in p && s[last] >= s[i];
  }

  /** The adjusted value of `p[h]` is at most one and at most what each p-value that is no smaller allows, and
    * it is one or what one of them allows. */
  lemma AdjustedByCounting(p: seq<real>, fdr: FdrMethod, q: seq<real>, h: nat)
    requires Adjusted(p, fdr, q) && Probabilities(p) && h < |p|
    ensures |q| == |p| && q[h] <= 1.0
    ensures forall v | v in p && v >= p[h] :: IsBelow(q[h], p, v, DependencyMultiplier(fdr, |p|))
    ensures q[h] == 1.0 || exists v :: v in p && v >= p[h] && IsReached(q[h], p, v, DependencyMultiplier(fdr, |p|))
  {
    var i := PositionOf(p, h);
    var s := SortedValues(p);
    SortedAscends(p);
    assert IsMinimumFrom(q[h], ScaledPValues(p, fdr), i);
    hide SortedValues, ScaledPValues, Adjusted, IsBelow, IsReached, Ordered;
    forall v | v in p && v >= p[h] ensures IsBelow(q[h], p, v, DependencyMultiplier(fdr, |p|)) {
      var j := LastOf(p, v, i);
      CandidateAtLast(p, fdr, j, q[h]);
    }
    if q[h] != 1.0 {
      var j :| i <= j < |p| && q[h] == ScaledPValues(p, fdr)[j];
      NoLaterIsBetter(p, fdr, q[h], i, j);
    }
  }

  lemma LastOf(p: seq<real>, v: real, i: nat) returns (j: nat)
    requires i < |p| == |SortedValues(p)| && v in p && v >= SortedValues(p)[i]
    ensures i <= j < |p| && SortedValues(p)[j] == v
    ensures j + 1 < |p| ==> SortedValues(p)[j] < SortedValues(p)[j + 1]
  {
    var s := SortedValues(p);
    SortedAscends(p);
    assert v in multiset(p) && v in multiset(s) && v in s;
    var k :| 0 <= k < |s| && s[k] == v;
    var m := if k < i then i else k;
    assert s[m] == v by { if k < i { assert s[k] <= s[i]; } }
    j := LastOccurrence(s, m);
  }
}
