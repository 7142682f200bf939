/** Tie-averaged ranks and the Pearson / Spearman coefficient
  * (`_ranks`, `_correlation`). Numbers are exact. */
module RankCorrelation {
  import opened Wrappers
  import opened Totals
  import opened RealArith
  import opened RealOrder

  // ---- Ranks ----

  /** How many are smaller, plus the middle of the places taken by the equal ones. */
  function MidRank(xs: seq<real>, v: real): real {
    Total(xs, Below(v)) + (Total(xs, EqualTo(v)) + 1.0) / 2.0
  }

  function MidRanks(xs: seq<real>): (r: seq<real>)
    ensures |r| == |xs| && forall i | 0 <= i < |xs| :: r[i] == MidRank(xs, xs[i])
  {
    seq(|xs|, i requires 0 <= i < |xs| => MidRank(xs, xs[i]))
  }

  /** The sorted positions before `upTo` hold their rank. */
  ghost predicate RankedUpTo(ranks: seq<real>, values: seq<real>, upTo: nat)
  {
    && |ranks| == |values| == |Ordered(values)|
    && forall k | 0 <= k < upTo && k < |values| ::
         Ordered(values)[k].0 < |values| && ranks[Ordered(values)[k].0] == MidRank(values, values[Ordered(values)[k].0])
  }

  method Ranks(values: seq<real>) returns (ranks: seq<real>)
    ensures ranks == MidRanks(values)
  {
    hide MidRank, Ordered, SortedValues, Values;
    var indexed := Ordered(values);
    OrderedFacts(values);
    ghost var s := SortedValues(values);
    assert forall k | 0 <= k < |s| :: indexed[k].1 == Values(indexed)[k] == s[k];
    ranks := seq(|values|, _ => 0.0);
    var index := 0;
    while index < |indexed|
      invariant 0 <= index <= |indexed|
      invariant 0 < index < |s| ==> s[index - 1] < s[index]
      invariant RankedUpTo(ranks, values, index)
    {
      var end := index + 1;
      while end < |indexed| && indexed[end].1 == indexed[index].1
        invariant index < end <= |indexed|
        invariant forall k | index <= k < end :: s[k] == s[index]
      {
        end := end + 1;
      }
      var averageRank := (index + 1 + end) as real / 2.0;
      RunRank(values, index, end);
      var k := index;
      while k < end
        invariant index <= k <= end
        invariant RankedUpTo(ranks, values, k)
      {
        RankStep(ranks, values, k, averageRank);
        ranks := ranks[indexed[k].0 := averageRank];
        k := k + 1;
      }
      index := end;
    }
    AllRanked(ranks, values);
  }

  lemma RunRank(values: seq<real>, index: nat, end: nat)
    requires |SortedValues(values)| == |values| && index < end <= |values|
    requires forall k | index <= k < end :: SortedValues(values)[k] == SortedValues(values)[index]
    requires index > 0 ==> SortedValues(values)[index - 1] < SortedValues(values)[index]
    requires end < |values| ==> SortedValues(values)[end] != SortedValues(values)[index]
    ensures MidRank(values, SortedValues(values)[index]) == (index + 1 + end) as real / 2.0
  {
    OrderedFacts(values);
    var s := SortedValues(values);
    var v := s[index];
    forall k | 0 <= k < index ensures s[k] < v { assert s[k] <= s[index - 1]; }
    forall k | end <= k < |s| ensures s[k] > v { assert v <= s[end] <= s[k]; }
    CountsOfRun(s, index, end, v);
    TotalPermutation(s, values, Below(v));
    TotalPermutation(s, values, EqualTo(v));
  }

  lemma RankStep(ranks: seq<real>, values: seq<real>, k: nat, rank: real)
    requires RankedUpTo(ranks, values, k) && k < |values|
    requires Ordered(values)[k].0 < |values| && rank == MidRank(values, Ordered(values)[k].1)
    ensures RankedUpTo(ranks[Ordered(values)[k].0 := rank], values, k + 1)
  {
    hide MidRank, Ordered, SortedValues, Values;
    OrderedFacts(values);
    var order := Ordered(values);
    var place := order[k].0;
    assert values[place] == order[k].1;
    forall l | 0 <= l < k + 1
      ensures order[l].0 < |values| && ranks[place := rank][order[l].0] == MidRank(values, values[order[l].0])
    {
      if l < k { assert order[l].0 != place; }
    }
  }

  lemma AllRanked(ranks: seq<real>, values: seq<real>)
    requires RankedUpTo(ranks, values, |values|)
    ensures ranks == MidRanks(values)
  {
    hide MidRank;
    OrderedFacts(values);
    forall i | 0 <= i < |values| ensures ranks[i] == MidRanks(values)[i] {
      var k :| 0 <= k < |values| && Ordered(values)[k] == (i, values[i]);
    }
  }

  /** `x` counts once towards the rank of a larger value and half towards that of an equal one. */
  function W(x: real, v: real): real {
    if x < v then 1.0 else if x == v then 0.5 else 0.0
  }

  function Weight(v: real): real -> real { x => W(x, v) }

  function WeightOn(x: real): real -> real { v => W(x, v) }

  lemma {:induction false} MidRankByWeight(xs: seq<real>, v: real)
    ensures MidRank(xs, v) == Total(xs, Weight(v)) + 0.5
  {
    TotalLinear(xs, Below(v), EqualTo(v), Weight(v), 1.0, 0.5);
  }

  function WeightsOf(xs: seq<real>): real -> real { v => Total(xs, Weight(v)) }

  lemma {:induction false} WeightsSplit(xs: seq<real>, ys: seq<real>)
    requires ys != []
    ensures Total(xs, WeightsOf(ys)) == Total(xs, WeightOn(ys[0])) + Total(xs, WeightsOf(ys[1..]))
  {
    TotalLinear(xs, WeightOn(ys[0]), WeightsOf(ys[1..]), WeightsOf(ys), 1.0, 1.0);
  }

  lemma {:induction false} WeightBothWays(xs: seq<real>, y: real)
    ensures Total(xs, WeightOn(y)) + Total(xs, Weight(y)) == |xs| as real
  {
    var one := (x: real) => 1.0;
    assert forall x :: WeightOn(y)(x) + Weight(y)(x) == 1.0;
    TotalLinear(xs, WeightOn(y), Weight(y), one, 1.0, 1.0);
    TotalConstant(xs, one, 1.0);
  }

  /** Every pair of one value from each sequence contributes exactly 1 to the two sums together. */
  lemma {:induction false} WeightsPair(xs: seq<real>, ys: seq<real>)
    ensures Total(ys, WeightsOf(xs)) + Total(xs, WeightsOf(ys)) == |xs| as real * |ys| as real
  {
    if ys == [] {
      TotalConstant(xs, WeightsOf(ys), 0.0);
    } else {
      WeightsPair(xs, ys[1..]);
      WeightsSplit(xs, ys);
      WeightBothWays(xs, ys[0]);
      assert Total(ys, WeightsOf(xs)) == Total(xs, Weight(ys[0])) + Total(ys[1..], WeightsOf(xs));
      assert |xs| as real * |ys| as real == |xs| as real * |ys[1..]| as real + |xs| as real;
    }
  }

  /** Ranks share out 1 + 2 + ... + n whatever the ties. */
  lemma RankSum(xs: seq<real>)
    ensures Total(MidRanks(xs), Identity()) == |xs| as real * (|xs| as real + 1.0) / 2.0
  {
    var n, half := |xs| as real, (v: real) => 0.5;
    TotalConstant(xs, half, 0.5);
    RanksByWeight(xs, half);
    WeightsPair(xs, xs);
    assert n * (n + 1.0) == n * n + n;
  }

  lemma RanksByWeight(xs: seq<real>, half: real -> real)
    requires forall v :: half(v) == 0.5
    ensures Total(MidRanks(xs), Identity()) == Total(xs, WeightsOf(xs)) + Total(xs, half)
  {
    hide Total, Weight, MidRank;
    var rank := (v: real) => Total(xs, Weight(v)) + 0.5;
    TotalLinear(xs, WeightsOf(xs), half, rank, 1.0, 1.0);
    forall i | 0 <= i < |xs| ensures Identity()(MidRanks(xs)[i]) == rank(xs[i]) {
      MidRankByWeight(xs, xs[i]);
    }
    TotalAgree(MidRanks(xs), xs, Identity(), rank);
  }

  /** A larger value has a larger rank. */
  lemma RankStrictlyMonotone(xs: seq<real>, i: nat, j: nat)
    requires i < |xs| && j < |xs| && xs[i] < xs[j]
    ensures MidRanks(xs)[i] < MidRanks(xs)[j]
  {
    MidRankByWeight(xs, xs[i]);
    MidRankByWeight(xs, xs[j]);
    TotalStrictlyMonotone(xs, Weight(xs[i]), Weight(xs[j]), i);
  }

  ghost predicate SameOrder(xs: seq<real>, ys: seq<real>) {
    |xs| == |ys| && forall i, j | 0 <= i < |xs| && 0 <= j < |xs| :: xs[i] < xs[j] <==> ys[i] < ys[j]
  }

  /** Ranks see nothing but the order of the values. */
  lemma RanksDependOnOrder(xs: seq<real>, ys: seq<real>)
    requires SameOrder(xs, ys)
    ensures MidRanks(xs) == MidRanks(ys)
  {
    forall i | 0 <= i < |xs| ensures MidRanks(xs)[i] == MidRanks(ys)[i] {
      forall j | 0 <= j < |xs| ensures Weight(xs[i])(xs[j]) == Weight(ys[i])(ys[j]) {
        assert xs[i] < xs[j] <==> ys[i] < ys[j];
        assert xs[j] < xs[i] <==> ys[j] < ys[i];
      }
      TotalAgree(xs, ys, Weight(xs[i]), Weight(ys[i]));
      MidRankByWeight(xs, xs[i]);
      MidRankByWeight(ys, ys[i]);
    }
  }

  // ---- The coefficient ----

  function Mean(xs: seq<real>): real
    requires xs != []
  {
    Total(xs, Identity()) / |xs| as real
  }

  function Deviations(xs: seq<real>): (d: seq<real>)
    requires xs != []
    ensures |d| == |xs| && forall i | 0 <= i < |xs| :: d[i] == xs[i] - Mean(xs)
  {
    seq(|xs|, i requires 0 <= i < |xs| => xs[i] - Mean(xs))
  }

  function Dot(a: seq<real>, b: seq<real>): real
    requires |a| == |b|
  {
    if a == [] then 0.0 else a[0] * b[0] + Dot(a[1..], b[1..])
  }

  ghost predicate SquareRoots(sqrt: real -> real) {
    forall x :: 0.0 <= x ==> 0.0 <= sqrt(x) && sqrt(x) * sqrt(x) == x
  }

  /** The coefficient before it is clamped; none when a series does not vary. */
  function Coefficient(xs: seq<real>, ys: seq<real>, sqrt: real -> real): Option<real>
    requires |xs| == |ys| && xs != [] && SquareRoots(sqrt)
  {
    var vx, vy := Dot(Deviations(xs), Deviations(xs)), Dot(Deviations(ys), Deviations(ys));
    if vx <= 0.0 || vy <= 0.0 then None
    else Some(Normalised(Dot(Deviations(xs), Deviations(ys)), vx, vy, sqrt))
  }

  function Normalised(c: real, vx: real, vy: real, sqrt: real -> real): real
    requires vx > 0.0 && vy > 0.0 && SquareRoots(sqrt)
  {
    RootPositive(vx, vy, sqrt);
    c / sqrt(vx * vy)
  }

  function First(pairs: seq<(real, real)>): (r: seq<real>)
    ensures |r| == |pairs| && forall i | 0 <= i < |r| :: r[i] == pairs[i].0
  {
    seq(|pairs|, i requires 0 <= i < |pairs| => pairs[i].0)
  }

  function Second(pairs: seq<(real, real)>): (r: seq<real>)
    ensures |r| == |pairs| && forall i | 0 <= i < |r| :: r[i] == pairs[i].1
  {
    seq(|pairs|, i requires 0 <= i < |pairs| => pairs[i].1)
  }

  datatype Method = Pearson | Spearman

  function Prepared(xs: seq<real>, how: Method): (r: seq<real>)
    ensures |r| == |xs|
  {
    if how == Spearman then MidRanks(xs) else xs
  }

  /** The clamp to [-1, 1] never changes a coefficient, and there is no coefficient exactly
    * when one of the two series is constant. */
  method Correlation(pairs: seq<(real, real)>, how: Method, sqrt: real -> real) returns (r: Option<real>)
    requires pairs != [] && SquareRoots(sqrt)
    ensures r == Coefficient(Prepared(First(pairs), how), Prepared(Second(pairs), how), sqrt)
    ensures r.Some? ==> -1.0 <= r.value <= 1.0
    ensures r.None? <==> Constant(First(pairs)) || Constant(Second(pairs))
  {
    hide Coefficient, Constant, SquareRoots, MidRanks, First, Second;
    var target, candidate := First(pairs), Second(pairs);
    if how == Spearman {
      target := Ranks(target);
      candidate := Ranks(candidate);
    }
    CoefficientBounds(target, candidate, sqrt);
    NoneWhenConstant(target, candidate, sqrt);
    if how == Spearman {
      RanksConstant(First(pairs));
      RanksConstant(Second(pairs));
    }
    var coefficient := Coefficient(target, candidate, sqrt);
    if coefficient == None {
      return None;
    }
    var upper := if coefficient.value < 1.0 then coefficient.value else 1.0;
    r := Some(if upper > -1.0 then upper else -1.0);
  }

  lemma {:induction false} DotNonNegative(a: seq<real>)
    ensures Dot(a, a) >= 0.0
  {
    if a != [] {
      SquareNonNegative(a[0]);
      DotNonNegative(a[1..]);
    }
  }

  lemma {:induction false} DotSymmetric(a: seq<real>, b: seq<real>)
    requires |a| == |b|
    ensures Dot(a, b) == Dot(b, a)
  {
    if a != [] {
      DotSymmetric(a[1..], b[1..]);
    }
  }

  lemma ProductOfSquares(p: real, q: real, u: real, v: real)
    requires p >= 0.0 && q >= 0.0
    ensures 4.0 * (p * q) * (u * v) * (u * v) <= (p * v * v + q * u * u) * (p * v * v + q * u * u)
  {
    var x, y := p * v * v, q * u * u;
    SquareNonNegative(x - y);
    assert (x + y) * (x + y) == (x - y) * (x - y) + 4.0 * x * y;
    assert x * y == (p * q) * (u * v) * (u * v) by {
      assert x * y == p * q * (v * v) * (u * u);
      assert (u * v) * (u * v) == (v * v) * (u * u);
    }
  }

  /** One more term keeps the inequality. */
  lemma CauchyStep(s: real, p: real, q: real, u: real, v: real)
    requires p >= 0.0 && q >= 0.0 && s * s <= p * q
    ensures (u * v + s) * (u * v + s) <= (u * u + p) * (v * v + q)
  {
    var w, bound := u * v, p * v * v + q * u * u;
    var lhs := 2.0 * s * w;
    CrossTermIsBounded(s, p, q, u, v, lhs, bound);
    assert (w + s) * (w + s) == s * s + lhs + w * w;
    assert (u * u + p) * (v * v + q) == p * q + bound + w * w;
  }

  lemma CrossTermIsBounded(s: real, p: real, q: real, u: real, v: real, lhs: real, bound: real)
    requires p >= 0.0 && q >= 0.0 && s * s <= p * q
    requires lhs == 2.0 * s * (u * v) && bound == p * v * v + q * u * u
    ensures lhs <= bound
  {
    var w := u * v;
    ProductOfSquares(p, q, u, v);
    SquareNonNegative(w);
    assert lhs * lhs == 4.0 * (s * s) * (w * w);
    ProductMonotone(s * s, p * q, w * w);
    assert (p * q) * (w * w) == (p * q) * w * w;
    BoundIsNotNegative(p, q, u, v);
    SquareMonotone(lhs, bound);
  }

  lemma BoundIsNotNegative(p: real, q: real, u: real, v: real)
    requires p >= 0.0 && q >= 0.0
    ensures p * v * v + q * u * u >= 0.0
  {
    SquareNonNegative(v);
    SquareNonNegative(u);
    assert p * (v * v) >= 0.0 && q * (u * u) >= 0.0;
  }

  /** Cauchy-Schwarz for sequences of any length. */
  lemma {:induction false} CauchySchwarz(a: seq<real>, b: seq<real>)
    requires |a| == |b|
    ensures Dot(a, b) * Dot(a, b) <= Dot(a, a) * Dot(b, b)
  {
    if a != [] {
      var s, p, q := Dot(a[1..], b[1..]), Dot(a[1..], a[1..]), Dot(b[1..], b[1..]);
      CauchySchwarz(a[1..], b[1..]);
      DotNonNegative(a[1..]);
      DotNonNegative(b[1..]);
      CauchyStep(s, p, q, a[0], b[0]);
      DotUnfold(a, b);
      DotUnfold(a, a);
      DotUnfold(b, b);
    }
  }

  lemma DotUnfold(a: seq<real>, b: seq<real>)
    requires |a| == |b| && a != []
    ensures Dot(a, b) == a[0] * b[0] + Dot(a[1..], b[1..])
  {
  }

  /** A covariance bounded by the root of its two variations gives a coefficient in [-1, 1]. */
  lemma QuotientBounds(c: real, v: real, root: real)
    requires root > 0.0 && root * root == v && c * c <= v
    ensures -1.0 <= c / root <= 1.0
  {
    SquareMonotone(c, root);
    var x := c / root;
    assert x * root == c;
  }

  lemma RootPositive(x: real, y: real, sqrt: real -> real)
    requires x > 0.0 && y > 0.0 && SquareRoots(sqrt)
    ensures sqrt(x * y) > 0.0 && sqrt(x * y) * sqrt(x * y) == x * y
  {
    var v := x * y;
    assert v > 0.0;
    assert 0.0 <= sqrt(v) && sqrt(v) * sqrt(v) == v;
  }

  lemma NormalisedBounds(c: real, vx: real, vy: real, sqrt: real -> real)
    requires vx > 0.0 && vy > 0.0 && SquareRoots(sqrt) && c * c <= vx * vy
    ensures -1.0 <= Normalised(c, vx, vy, sqrt) <= 1.0
  {
    RootPositive(vx, vy, sqrt);
    QuotientBounds(c, vx * vy, sqrt(vx * vy));
  }

  lemma CoefficientBounds(xs: seq<real>, ys: seq<real>, sqrt: real -> real)
    requires |xs| == |ys| && xs != [] && SquareRoots(sqrt)
    ensures Coefficient(xs, ys, sqrt).Some? ==> -1.0 <= Coefficient(xs, ys, sqrt).value <= 1.0
  {
    hide Normalised, Dot;
    var dx, dy := Deviations(xs), Deviations(ys);
    if Coefficient(xs, ys, sqrt).Some? {
      CauchySchwarz(dx, dy);
      NormalisedBounds(Dot(dx, dy), Dot(dx, dx), Dot(dy, dy), sqrt);
    }
  }

  // ---- Constant series ----

  ghost predicate Constant(xs: seq<real>) {
    forall i, j | 0 <= i < |xs| && 0 <= j < |xs| :: xs[i] == xs[j]
  }

  lemma {:induction false} DotZero(a: seq<real>)
    ensures Dot(a, a) <= 0.0 <==> forall i | 0 <= i < |a| :: a[i] == 0.0
  {
    if a != [] {
      DotZero(a[1..]);
      DotNonNegative(a[1..]);
      var x := a[0];
      SquareNonNegative(x);
      DotUnfold(a, a);
      assert Dot(a, a) == x * x + Dot(a[1..], a[1..]);
      assert forall i | 0 < i < |a| :: a[i] == a[1..][i - 1];
      assert forall i | 0 <= i < |a[1..]| :: a[1..][i] == a[i + 1];
      if Dot(a, a) <= 0.0 {
        assert Dot(a[1..], a[1..]) <= 0.0;
        assert x * x <= 0.0;
        SquareZero(x, x * x);
      }
      if forall i | 0 <= i < |a| :: a[i] == 0.0 {
        assert x * x == 0.0;
      }
    }
  }

  lemma DeviationsZero(xs: seq<real>)
    requires xs != []
    ensures Dot(Deviations(xs), Deviations(xs)) <= 0.0 <==> Constant(xs)
  {
    var d := Deviations(xs);
    DotZero(d);
    if Constant(xs) {
      MeanOfConstant(xs);
      forall i | 0 <= i < |d| ensures d[i] == 0.0 { assert xs[i] == xs[0]; }
    }
    if forall i | 0 <= i < |d| :: d[i] == 0.0 {
      forall i | 0 <= i < |xs| ensures xs[i] == Mean(xs) { assert d[i] == 0.0; }
    }
  }

  lemma MeanOfConstant(xs: seq<real>)
    requires xs != [] && Constant(xs)
    ensures Mean(xs) == xs[0]
  {
    TotalConstant(xs, Identity(), xs[0]);
    var n := |xs| as real;
    assert xs[0] * n / n == xs[0];
  }

  lemma NoneWhenConstant(xs: seq<real>, ys: seq<real>, sqrt: real -> real)
    requires |xs| == |ys| && xs != [] && SquareRoots(sqrt)
    ensures Coefficient(xs, ys, sqrt).None? <==> Constant(xs) || Constant(ys)
  {
    DeviationsZero(xs);
    DeviationsZero(ys);
  }

  lemma RanksConstant(xs: seq<real>)
    ensures Constant(MidRanks(xs)) <==> Constant(xs)
  {
    forall i, j | 0 <= i < |xs| && 0 <= j < |xs|
      ensures MidRanks(xs)[i] == MidRanks(xs)[j] <==> xs[i] == xs[j]
    {
      if xs[i] < xs[j] { RankStrictlyMonotone(xs, i, j); }
      if xs[j] < xs[i] { RankStrictlyMonotone(xs, j, i); }
    }
  }

  // ---- Laws of the coefficient ----

  ghost predicate StrictlyIncreasing(f: real -> real) {
    forall x, y :: x < y ==> f(x) < f(y)
  }

  /** Passing either series through a strictly increasing function leaves Spearman unchanged. */
  lemma SpearmanInvariant(xs: seq<real>, ys: seq<real>, f: real -> real, g: real -> real, sqrt: real -> real)
    requires |xs| == |ys| && xs != [] && SquareRoots(sqrt)
    requires StrictlyIncreasing(f) && StrictlyIncreasing(g)
    ensures Coefficient(MidRanks(Map(xs, f)), MidRanks(Map(ys, g)), sqrt)
            == Coefficient(MidRanks(xs), MidRanks(ys), sqrt)
  {
    IncreasingKeepsOrder(xs, f);
    IncreasingKeepsOrder(ys, g);
    RanksDependOnOrder(xs, Map(xs, f));
    RanksDependOnOrder(ys, Map(ys, g));
  }

  lemma IncreasingKeepsOrder(xs: seq<real>, f: real -> real)
    requires StrictlyIncreasing(f)
    ensures SameOrder(xs, Map(xs, f))
  {
    var ys := Map(xs, f);
    forall i, j | 0 <= i < |xs| && 0 <= j < |xs| ensures xs[i] < xs[j] <==> ys[i] < ys[j] {
      if xs[j] < xs[i] { assert f(xs[j]) < f(xs[i]); }
    }
  }

  /** The coefficient does not tell target from candidate. */
  lemma CoefficientSymmetric(xs: seq<real>, ys: seq<real>, sqrt: real -> real)
    requires |xs| == |ys| && xs != [] && SquareRoots(sqrt)
    ensures Coefficient(xs, ys, sqrt) == Coefficient(ys, xs, sqrt)
  {
    var dx, dy := Deviations(xs), Deviations(ys);
    DotSymmetric(dx, dy);
    assert Dot(dx, dx) * Dot(dy, dy) == Dot(dy, dy) * Dot(dx, dx);
  }
}
