/** Sums over what counts, without a filtered list. */
module Tallies {
  import opened Totals

  /** The sum of a figure over the things that count. */
  function SumOver<T>(xs: seq<T>, counts: T -> bool, figure: T -> real): real {
    if xs == [] then 0.0 else (if counts(xs[0]) then figure(xs[0]) else 0.0) + SumOver(xs[1..], counts, figure)
  }

  lemma {:induction false} SumOfFiltered<T>(xs: seq<T>, keep: T -> bool, f: T -> real, counts: T -> bool,
                                            figure: T -> real)
    requires forall x | x in xs :: if keep(x) then counts(x) && figure(x) == f(x) else counts(x) ==> figure(x) == 0.0
    ensures Total(Filter(xs, keep), f) == SumOver(xs, counts, figure)
  {
    if xs != [] {
      assert xs[0] in xs;
      SumOfFiltered(xs[1..], keep, f, counts, figure);
      if keep(xs[0]) { TotalAppend([xs[0]], Filter(xs[1..], keep), f); }
    }
  }

  lemma {:induction false} SumNotNegative<T>(xs: seq<T>, counts: T -> bool, figure: T -> real)
    requires forall x :: figure(x) >= 0.0
    ensures SumOver(xs, counts, figure) >= 0.0
  {
    if xs != [] { SumNotNegative(xs[1..], counts, figure); }
  }

  lemma {:induction false} SumOfFewer<T>(xs: seq<T>, few: T -> bool, many: T -> bool, figure: T -> real)
    requires forall x :: figure(x) >= 0.0
    requires forall x :: few(x) ==> many(x)
    ensures SumOver(xs, few, figure) <= SumOver(xs, many, figure)
  {
    if xs != [] { SumOfFewer(xs[1..], few, many, figure); }
  }

  lemma {:induction false} FilterTwice<T>(xs: seq<T>, f: T -> bool, g: T -> bool, both: T -> bool)
    requires forall x | x in xs :: both(x) <==> f(x) && g(x)
    ensures Filter(Filter(xs, f), g) == Filter(xs, both)
  {
    if xs != [] {
      assert xs[0] in xs;
      FilterTwice(xs[1..], f, g, both);
    }
  }

  lemma {:induction false} SumOfFigures<T>(xs: seq<T>, f: T -> real, counts: T -> bool, figure: T -> real)
    requires forall x | x in xs :: f(x) == if counts(x) then figure(x) else 0.0
    ensures Total(xs, f) == SumOver(xs, counts, figure)
  {
    if xs != [] {
      assert xs[0] in xs;
      SumOfFigures(xs[1..], f, counts, figure);
    }
  }
}
