/** Sums over sequences. A count is the sum of an indicator, so that counting and
  * adding share one set of laws. */
module Totals {

  function Total<T>(xs: seq<T>, f: T -> real): real
  {
    if xs == [] then 0.0 else f(xs[0]) + Total(xs[1..], f)
  }

  function Identity(): real -> real { x => x }

  lemma {:induction false} TotalAppend<T>(xs: seq<T>, ys: seq<T>, f: T -> real)
    ensures Total(xs + ys, f) == Total(xs, f) + Total(ys, f)
  {
    if xs == [] {
      assert xs + ys == ys;
    } else {
      TotalAppend(xs[1..], ys, f);
      assert (xs + ys)[1..] == xs[1..] + ys;
    }
  }

  lemma TotalSnoc<T>(xs: seq<T>, x: T, f: T -> real)
    ensures Total(xs + [x], f) == Total(xs, f) + f(x)
  {
    TotalAppend(xs, [x], f);
    assert [x][1..] == [];
  }

  function RemoveAt<T>(xs: seq<T>, k: nat): (r: seq<T>)
    requires k < |xs|
    ensures multiset(xs) == multiset(r) + multiset{xs[k]}
  {
    assert xs == xs[..k] + [xs[k]] + xs[k + 1..];
    xs[..k] + xs[k + 1..]
  }

  lemma RemoveAtParts<T>(xs: seq<T>, k: nat)
    requires k < |xs|
    ensures RemoveAt(xs, k) == xs[..k] + xs[k + 1..]
  {
  }

  lemma TotalExtract<T>(xs: seq<T>, k: nat, f: T -> real)
    requires k < |xs|
    ensures Total(xs, f) == f(xs[k]) + Total(RemoveAt(xs, k), f)
  {
    hide RemoveAt;
    var front, back := xs[..k], xs[k + 1..];
    assert xs == front + xs[k..] && xs[k..][1..] == back && xs[k..][0] == xs[k];
    TotalAppend(front, xs[k..], f);
    TotalAppend(front, back, f);
    assert Total(xs[k..], f) == f(xs[k]) + Total(back, f);
    assert RemoveAt(xs, k) == front + back by { RemoveAtParts(xs, k); }
  }

  lemma SameRest<T>(xs: seq<T>, ys: seq<T>, rest: seq<T>)
    requires xs != [] && multiset(xs) == multiset(ys)
    requires multiset(ys) == multiset(rest) + multiset{xs[0]}
    ensures multiset(xs[1..]) == multiset(rest)
  {
    assert xs == [xs[0]] + xs[1..];
    assert multiset(rest) == multiset(ys) - multiset{xs[0]};
  }

  /** A sum does not depend on the order of its terms. */
  lemma {:induction false} TotalPermutation<T>(xs: seq<T>, ys: seq<T>, f: T -> real)
    requires multiset(xs) == multiset(ys)
    ensures Total(xs, f) == Total(ys, f)
  {
    if xs == [] {
      assert |ys| == |multiset(ys)| == 0;
    } else {
      assert xs[0] in multiset(ys);
      var k :| 0 <= k < |ys| && ys[k] == xs[0];
      var rest := RemoveAt(ys, k);
      TotalExtract(ys, k, f);
      SameRest(xs, ys, rest);
      TotalPermutation(xs[1..], rest, f);
    }
  }

  /** Sums whose terms agree position by position. */
  lemma {:induction false} TotalAgree<S, T>(xs: seq<S>, ys: seq<T>, f: S -> real, g: T -> real)
    requires |xs| == |ys| && forall i | 0 <= i < |xs| :: f(xs[i]) == g(ys[i])
    ensures Total(xs, f) == Total(ys, g)
  {
    if xs != [] {
      assert f(xs[0]) == g(ys[0]);
      TotalAgree(xs[1..], ys[1..], f, g);
    }
  }

  /** Linear combination of two summands. */
  lemma {:induction false} TotalLinear<T>(xs: seq<T>, f: T -> real, g: T -> real, h: T -> real, a: real, b: real)
    requires forall i | 0 <= i < |xs| :: h(xs[i]) == a * f(xs[i]) + b * g(xs[i])
    ensures Total(xs, h) == a * Total(xs, f) + b * Total(xs, g)
  {
    if xs != [] {
      assert h(xs[0]) == a * f(xs[0]) + b * g(xs[0]);
      TotalLinear(xs[1..], f, g, h, a, b);
    }
  }

  lemma {:induction false} TotalMonotone<T>(xs: seq<T>, f: T -> real, g: T -> real)
    requires forall i | 0 <= i < |xs| :: f(xs[i]) <= g(xs[i])
    ensures Total(xs, f) <= Total(xs, g)
  {
    if xs != [] {
      assert f(xs[0]) <= g(xs[0]);
      TotalMonotone(xs[1..], f, g);
    }
  }

  lemma {:induction false} TotalConstant<T>(xs: seq<T>, f: T -> real, c: real)
    requires forall i | 0 <= i < |xs| :: f(xs[i]) == c
    ensures Total(xs, f) == c * |xs| as real
  {
    if xs != [] {
      assert f(xs[0]) == c;
      TotalConstant(xs[1..], f, c);
    }
  }

  lemma TotalStrictlyMonotone<T>(xs: seq<T>, f: T -> real, g: T -> real, k: nat)
    requires forall i | 0 <= i < |xs| :: f(xs[i]) <= g(xs[i])
    requires k < |xs| && f(xs[k]) < g(xs[k])
    ensures Total(xs, f) < Total(xs, g)
  {
    TotalExtract(xs, k, f);
    TotalExtract(xs, k, g);
    var rest := RemoveAt(xs, k);
    forall i | 0 <= i < |rest| ensures f(rest[i]) <= g(rest[i]) {
      assert rest[i] == xs[if i < k then i else i + 1];
    }
    TotalMonotone(rest, f, g);
  }

  lemma {:induction false} TotalNonNegative<T>(xs: seq<T>, f: T -> real)
    requires forall i | 0 <= i < |xs| :: 0.0 <= f(xs[i])
    ensures 0.0 <= Total(xs, f)
  {
    TotalMonotone(xs, (x: T) => 0.0, f);
    TotalConstant(xs, (x: T) => 0.0, 0.0);
  }

  /** Dropping terms that are not negative can only lower a sum. */
  lemma {:induction false} TotalFilter<T>(xs: seq<T>, keep: T -> bool, f: T -> real)
    requires forall i | 0 <= i < |xs| :: 0.0 <= f(xs[i])
    ensures 0.0 <= Total(Filter(xs, keep), f) <= Total(xs, f)
  {
    if xs != [] {
      assert 0.0 <= f(xs[0]);
      TotalFilter(xs[1..], keep, f);
      if keep(xs[0]) {
        TotalAppend([xs[0]], Filter(xs[1..], keep), f);
      }
    }
  }

  function Filter<T>(xs: seq<T>, keep: T -> bool): (r: seq<T>)
    ensures forall x | x in r :: x in xs && keep(x)
    ensures forall x | x in xs && keep(x) :: x in r
  {
    if xs == [] then []
    else if keep(xs[0]) then [xs[0]] + Filter(xs[1..], keep)
    else Filter(xs[1..], keep)
  }

  lemma {:induction false} TotalOfFilter<T>(xs: seq<T>, keep: T -> bool, f: T -> real, g: T -> real)
    requires forall x :: g(x) == if keep(x) then f(x) else 0.0
    ensures Total(Filter(xs, keep), f) == Total(xs, g)
  {
    if xs != [] {
      TotalOfFilter(xs[1..], keep, f, g);
      if keep(xs[0]) { TotalAppend([xs[0]], Filter(xs[1..], keep), f); }
    }
  }

  lemma {:induction false} FilterSnoc<T>(xs: seq<T>, x: T, keep: T -> bool)
    ensures Filter(xs + [x], keep) == Filter(xs, keep) + if keep(x) then [x] else []
  {
    if xs != [] {
      FilterSnoc(xs[1..], x, keep);
      assert (xs + [x])[1..] == xs[1..] + [x];
    }
  }

  lemma {:induction false} SameFilter<T>(xs: seq<T>, f: T -> bool, g: T -> bool)
    requires forall x :: f(x) == g(x)
    ensures Filter(xs, f) == Filter(xs, g)
  {
    if xs != [] { SameFilter(xs[1..], f, g); }
  }

  function Map<S, T>(xs: seq<S>, f: S -> T): (r: seq<T>)
    ensures |r| == |xs| && forall i | 0 <= i < |xs| :: r[i] == f(xs[i])
  {
    seq(|xs|, i requires 0 <= i < |xs| => f(xs[i]))
  }

  function Abs(x: real): real { if x < 0.0 then -x else x }

  function Max(x: real, y: real): real { if x < y then y else x }

  function Min(x: real, y: real): real { if y < x then y else x }
}
