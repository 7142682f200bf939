/** The sums that means, variances and coefficients are usually computed from. */
module Moments {
  import opened Totals
  import opened RealArith
  import opened RankCorrelation

  ghost predicate Shifted(xs: seq<real>, ys: seq<real>, c: real) {
    |ys| == |xs| && forall i | 0 <= i < |xs| :: ys[i] == xs[i] - c
  }

  function Sum(xs: seq<real>): real { if xs == [] then 0.0 else xs[0] + Sum(xs[1..]) }

  lemma {:induction false} SumIsTotal(xs: seq<real>)
    ensures Sum(xs) == Total(xs, Identity())
  {
    if xs != [] { SumIsTotal(xs[1..]); }
  }

  /** The product of two sums of two terms. */
  lemma ShiftedTerm(x: real, y: real, c: real, d: real)
    ensures (x - c) * (y - d) == x * y - c * y - d * x + c * d
  {
  }

  lemma ShiftedStep(c: real, d: real, x: real, y: real, sx: real, sy: real, n: real)
    ensures (x * y - c * y - d * x + c * d) + (- c * sy - d * sx + n * (c * d))
         == x * y - c * (y + sy) - d * (x + sx) + (n + 1.0) * (c * d)
  {
  }

  lemma {:induction false} ShiftedDot(xs: seq<real>, ys: seq<real>, a: seq<real>, b: seq<real>, c: real, d: real)
    requires |xs| == |ys| && Shifted(xs, a, c) && Shifted(ys, b, d)
    ensures Dot(a, b) == Dot(xs, ys) - c * Sum(ys) - d * Sum(xs) + |xs| as real * (c * d)
  {
    if xs != [] {
      ShiftedDot(xs[1..], ys[1..], a[1..], b[1..], c, d);
      ShiftedTerm(xs[0], ys[0], c, d);
      ShiftedStep(c, d, xs[0], ys[0], Sum(xs[1..]), Sum(ys[1..]), |xs[1..]| as real);
    }
  }

  lemma Collapse(n: real, mx: real, my: real, sx: real, sy: real, p: real)
    requires sx == n * mx && sy == n * my
    ensures n * (p - mx * sy - my * sx + n * (mx * my)) == n * p - sx * sy
  {
    assert mx * sy == n * (mx * my);
    assert my * sx == n * (mx * my);
    assert sx * sy == n * (n * (mx * my)) by {
      assert sx * sy == (n * mx) * (n * my);
      assert (n * mx) * (n * my) == n * (mx * (n * my));
      assert mx * (n * my) == n * (mx * my);
    }
  }

  lemma {:induction false} MeanTimesCount(xs: seq<real>)
    requires xs != []
    ensures |xs| as real * Mean(xs) == Sum(xs)
  {
    SumIsTotal(xs);
  }

  /** Products of deviations add up to what the sums of products and of values say. */
  lemma DeviationsBySums(xs: seq<real>, ys: seq<real>)
    requires |xs| == |ys| && xs != []
    ensures |xs| as real * Dot(Deviations(xs), Deviations(ys)) == |xs| as real * Dot(xs, ys) - Sum(xs) * Sum(ys)
  {
    hide Mean, Dot, Sum;
    ShiftedDot(xs, ys, Deviations(xs), Deviations(ys), Mean(xs), Mean(ys));
    MeanTimesCount(xs);
    MeanTimesCount(ys);
    Collapse(|xs| as real, Mean(xs), Mean(ys), Sum(xs), Sum(ys), Dot(xs, ys));
  }

  /** What the sums of two series say about how they vary, together or each with itself. */
  function Covariation(xs: seq<real>, ys: seq<real>): real
    requires |xs| == |ys|
  {
    |xs| as real * Dot(xs, ys) - Sum(xs) * Sum(ys)
  }

  lemma SquareOfProduct(x: real, y: real, xx: real, yy: real, xy: real)
    requires xx == x * x && yy == y * y && xy == x * y
    ensures xy * xy == xx * yy
  {
    assert xy * xy == x * (y * xy);
    assert y * xy == x * yy;
    assert x * (x * yy) == xx * yy;
  }

  lemma SquareOfQuotient(c: real, root: real, u: real, v: real, w: real, n: real, nu: real, nv: real, nw: real)
    requires c * root == w && root * root == u * v && nu == n * u && nv == n * v && nw == n * w
    ensures (c * c) * (nu * nv) == nw * nw
  {
    SquareOfProduct(c, root, c * c, u * v, w);
    SquareOfProduct(n, w, n * n, w * w, nw);
    assert nu * nv == (n * n) * (u * v) by {
      assert nu * nv == n * (u * nv);
      assert u * nv == n * (u * v);
      assert n * (n * (u * v)) == (n * n) * (u * v);
    }
    Regroup(c * c, n * n, u * v);
  }

  lemma Regroup(a: real, b: real, c: real)
    ensures a * (b * c) == b * (a * c)
  {
  }

  lemma SameSign(c: real, root: real, w: real, n: real, nw: real)
    requires c * root == w && root > 0.0 && n > 0.0 && nw == n * w
    ensures c > 0.0 <==> nw > 0.0
    ensures c < 0.0 <==> nw < 0.0
  {
    if c > 0.0 {
      PositiveProduct(c, root, w);
      PositiveProduct(n, w, nw);
    } else if c < 0.0 {
      PositiveProduct(-c, root, -w);
      PositiveProduct(n, -w, -nw);
    }
  }

  /** The coefficient of the textbook: its square is that of the covariation over the product of the
    * variations, and it has the sign of the covariation. */
  ghost predicate IsCoefficient(c: real, variation: real, otherVariation: real, covariation: real) {
    && (c * c) * (variation * otherVariation) == covariation * covariation
    && (c > 0.0 <==> covariation > 0.0)
    && (c < 0.0 <==> covariation < 0.0)
  }

  ghost predicate IsNormalised(c: real, root: real, u: real, v: real, w: real) {
    c * root == w && root * root == u * v && root > 0.0
  }

  lemma IsCoefficientByParts(c: real, root: real, u: real, v: real, w: real, n: real, nu: real, nv: real, nw: real)
    requires IsNormalised(c, root, u, v, w) && n > 0.0 && nu == n * u && nv == n * v && nw == n * w
    ensures IsCoefficient(c, nu, nv, nw)
  {
    SquareOfQuotient(c, root, u, v, w, n, nu, nv, nw);
    SameSign(c, root, w, n, nw);
  }

  /** What is computed from deviations is what the sums alone determine. */
  lemma CoefficientBySums(xs: seq<real>, ys: seq<real>, sqrt: real -> real)
    requires |xs| == |ys| && xs != [] && SquareRoots(sqrt) && Coefficient(xs, ys, sqrt).Some?
    ensures IsCoefficient(Coefficient(xs, ys, sqrt).value, Covariation(xs, xs), Covariation(ys, ys),
                          Covariation(xs, ys))
  {
    var c := Coefficient(xs, ys, sqrt).value;
    var root := RootOfVariations(xs, ys, sqrt);
    CovariationOfDeviations(xs, xs);
    CovariationOfDeviations(ys, ys);
    CovariationOfDeviations(xs, ys);
    var dx, dy, n := Deviations(xs), Deviations(ys), |xs| as real;
    hide *;
    IsCoefficientByParts(c, root, Dot(dx, dx), Dot(dy, dy), Dot(dx, dy), n,
                         Covariation(xs, xs), Covariation(ys, ys), Covariation(xs, ys));
  }

  lemma CovariationOfDeviations(xs: seq<real>, ys: seq<real>)
    requires |xs| == |ys| && xs != []
    ensures Covariation(xs, ys) == |xs| as real * Dot(Deviations(xs), Deviations(ys))
  {
    hide Dot, Sum, Deviations;
    DeviationsBySums(xs, ys);
  }

  lemma RootOfVariations(xs: seq<real>, ys: seq<real>, sqrt: real -> real) returns (root: real)
    requires |xs| == |ys| && xs != [] && SquareRoots(sqrt) && Coefficient(xs, ys, sqrt).Some?
    ensures IsNormalised(Coefficient(xs, ys, sqrt).value, root, Dot(Deviations(xs), Deviations(xs)),
                         Dot(Deviations(ys), Deviations(ys)), Dot(Deviations(xs), Deviations(ys)))
  {
    hide Dot, Deviations;
    var u, v := Dot(Deviations(xs), Deviations(xs)), Dot(Deviations(ys), Deviations(ys));
    RootPositive(u, v, sqrt);
    RootOfProduct(u, v, sqrt);
    root := sqrt(u * v);
    QuotientTimes(Dot(Deviations(xs), Deviations(ys)), root);
  }

  lemma RootOfProduct(u: real, v: real, sqrt: real -> real)
    requires SquareRoots(sqrt) && u > 0.0 && v > 0.0
    ensures sqrt(u * v) * sqrt(u * v) == u * v
  {
    PositiveProduct(u, v, u * v);
  }

  lemma QuotientTimes(w: real, root: real)
    requires root != 0.0
    ensures (w / root) * root == w
  {
  }
}
