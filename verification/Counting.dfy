/** Counting the values that are such and such, and ascending arrangements. */
module Counting {
  import opened Totals
  import opened RealOrder

  /** How many values are such. */
  function Count(xs: seq<real>, holds: real -> bool): nat {
    if xs == [] then 0 else (if holds(xs[0]) then 1 else 0) + Count(xs[1..], holds)
  }

  lemma {:induction false} CountIsTotal(xs: seq<real>, holds: real -> bool, counts: real -> real)
    requires forall i | 0 <= i < |xs| :: counts(xs[i]) == if holds(xs[i]) then 1.0 else 0.0
    ensures Count(xs, holds) as real == Total(xs, counts)
  {
    if xs != [] {
      assert counts(xs[0]) == if holds(xs[0]) then 1.0 else 0.0;
      CountIsTotal(xs[1..], holds, counts);
    }
  }

  lemma {:induction false} CountAppend(xs: seq<real>, ys: seq<real>, holds: real -> bool)
    ensures Count(xs + ys, holds) == Count(xs, holds) + Count(ys, holds)
  {
    if xs == [] {
      assert xs + ys == ys;
    } else {
      CountAppend(xs[1..], ys, holds);
      assert (xs + ys)[1..] == xs[1..] + ys;
    }
  }

  lemma CountPermutation(xs: seq<real>, ys: seq<real>, holds: real -> bool)
    requires multiset(xs) == multiset(ys)
    ensures Count(xs, holds) == Count(ys, holds)
  {
    var counts := (x: real) => if holds(x) then 1.0 else 0.0;
    CountIsTotal(xs, holds, counts);
    CountIsTotal(ys, holds, counts);
    TotalPermutation(xs, ys, counts);
  }

  lemma {:induction false} CountAll(xs: seq<real>, holds: real -> bool)
    requires forall i | 0 <= i < |xs| :: holds(xs[i])
    ensures Count(xs, holds) == |xs|
  {
    if xs != [] {
      assert holds(xs[0]);
      CountAll(xs[1..], holds);
    }
  }

  lemma {:induction false} CountMonotone(xs: seq<real>, holds: real -> bool, also: real -> bool)
    requires forall i | 0 <= i < |xs| && holds(xs[i]) :: also(xs[i])
    ensures Count(xs, holds) <= Count(xs, also)
  {
    if xs != [] {
      assert holds(xs[0]) ==> also(xs[0]);
      CountMonotone(xs[1..], holds, also);
    }
  }

  // ---- Ascending arrangements ----

  ghost predicate Ascends(s: seq<real>) { forall i, j | 0 <= i <= j < |s| :: s[i] <= s[j] }

  predicate AtMostOf(m: real, x: real) { x <= m }

  predicate AtLeastOf(m: real, x: real) { x >= m }

  lemma SortedAscends(xs: seq<real>)
    ensures Ascends(SortedValues(xs)) && multiset(SortedValues(xs)) == multiset(xs)
    ensures |SortedValues(xs)| == |xs|
  {
    Ascending(xs);
  }
}
