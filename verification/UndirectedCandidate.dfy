/** Pairs without any correlation, where the sign of the candidate decides the stability verdict. */
module UndirectedCandidate {
  import opened Wrappers
  import opened Totals
  import opened RankCorrelation
  import opened RollingStability
  import opened SignReversal
  import opened Association

  const Undirected: seq<(real, real)> := [(0.0, 0.0), (1.0, 3.0), (2.0, 6.0), (3.0, 3.0), (3.0, 0.0), (3.0, 0.0)]

  const OneWindow: Configuration := Configuration(3, 3, 3, Thresholds(1, 1.0, 0.0, 0.05))

  lemma SumOfThree(xs: seq<real>)
    requires |xs| == 3
    ensures Total(xs, Identity()) == xs[0] + xs[1] + xs[2]
  {
    assert Total(xs, Identity()) == xs[0] + Total(xs[1..], Identity());
    assert Total(xs[1..], Identity()) == xs[1] + Total(xs[1..][1..], Identity());
    assert Total(xs[1..][1..], Identity()) == xs[2] + Total(xs[1..][1..][1..], Identity());
  }

  lemma DotOfThree(a: seq<real>, b: seq<real>)
    requires |a| == |b| == 3
    ensures Dot(a, b) == a[0] * b[0] + a[1] * b[1] + a[2] * b[2]
  {
    DotUnfold(a, b);
    DotUnfold(a[1..], b[1..]);
    DotUnfold(a[1..][1..], b[1..][1..]);
  }

  lemma DotOfNone()
    ensures Dot([], []) == 0.0
  {
  }

  lemma {:induction false} DotAppend(a: seq<real>, b: seq<real>, c: seq<real>, d: seq<real>)
    requires |a| == |b| && |c| == |d|
    ensures Dot(a + c, b + d) == Dot(a, b) + Dot(c, d)
  {
    hide Dot;
    if a == [] {
      assert a + c == c && b + d == d && a == [] && b == [];
      DotOfNone();
    } else {
      DotAppend(a[1..], b[1..], c, d);
      assert (a + c)[1..] == a[1..] + c && (b + d)[1..] == b[1..] + d;
      DotUnfold(a + c, b + d);
      DotUnfold(a, b);
    }
  }

  lemma MeanOfSix(xs: seq<real>)
    requires |xs| == 6
    ensures Mean(xs) == (xs[0] + xs[1] + xs[2] + xs[3] + xs[4] + xs[5]) / 6.0
  {
    assert xs == xs[..3] + xs[3..];
    TotalAppend(xs[..3], xs[3..], Identity());
    SumOfThree(xs[..3]);
    SumOfThree(xs[3..]);
  }

  lemma DotOfSix(a: seq<real>, b: seq<real>)
    requires |a| == |b| == 6
    ensures Dot(a, b) == a[0] * b[0] + a[1] * b[1] + a[2] * b[2] + a[3] * b[3] + a[4] * b[4] + a[5] * b[5]
  {
    hide Dot;
    assert a == a[..3] + a[3..] && b == b[..3] + b[3..];
    DotAppend(a[..3], b[..3], a[3..], b[3..]);
    DotOfThree(a[..3], b[..3]);
    DotOfThree(a[3..], b[3..]);
  }

  lemma DeviationsAre(xs: seq<real>, mean: real, d: seq<real>)
    requires xs != [] && Mean(xs) == mean && |d| == |xs| && forall i | 0 <= i < |xs| :: d[i] == xs[i] - mean
    ensures Deviations(xs) == d
  {
    hide Mean;
  }

  lemma CoefficientFromDots(xs: seq<real>, ys: seq<real>, sqrt: real -> real, vx: real, vy: real, c: real)
    requires |xs| == |ys| && xs != [] && SquareRoots(sqrt) && vx > 0.0 && vy > 0.0
    requires Dot(Deviations(xs), Deviations(xs)) == vx && Dot(Deviations(ys), Deviations(ys)) == vy
    requires Dot(Deviations(xs), Deviations(ys)) == c
    ensures Coefficient(xs, ys, sqrt) == Some(Normalised(c, vx, vy, sqrt))
  {
    hide Dot, Deviations, SquareRoots, Normalised;
  }

  lemma UndirectedDots(dx: seq<real>, dy: seq<real>)
    requires dx == [-2.0, -1.0, 0.0, 1.0, 1.0, 1.0] && dy == [-2.0, 1.0, 4.0, 1.0, -2.0, -2.0]
    ensures Dot(dx, dx) == 8.0 && Dot(dy, dy) == 30.0 && Dot(dx, dy) == 0.0
  {
    hide Dot;
    DotOfSix(dx, dx);
    DotOfSix(dy, dy);
    DotOfSix(dx, dy);
  }

  lemma NoneNormalised(sqrt: real -> real)
    requires SquareRoots(sqrt)
    ensures Normalised(0.0, 8.0, 30.0, sqrt) == 0.0
  {
    RootPositive(8.0, 30.0, sqrt);
  }

  lemma {:induction false} UndirectedCoefficient(sqrt: real -> real)
    requires SquareRoots(sqrt)
    ensures FullCoefficient(Undirected, Pearson, sqrt) == Some(0.0)
  {
    hide Mean, Dot, Deviations, Coefficient, SquareRoots, Normalised, First, Second;
    var xs, ys := [0.0, 1.0, 2.0, 3.0, 3.0, 3.0], [0.0, 3.0, 6.0, 3.0, 0.0, 0.0];
    assert First(Undirected) == xs && Second(Undirected) == ys;
    MeanOfSix(xs);
    MeanOfSix(ys);
    var dx, dy := [-2.0, -1.0, 0.0, 1.0, 1.0, 1.0], [-2.0, 1.0, 4.0, 1.0, -2.0, -2.0];
    DeviationsAre(xs, 2.0, dx);
    DeviationsAre(ys, 2.0, dy);
    UndirectedDots(dx, dy);
    CoefficientFromDots(xs, ys, sqrt, 8.0, 30.0, 0.0);
    NoneNormalised(sqrt);
  }

  lemma WindowDots(dx: seq<real>, dy: seq<real>)
    requires dx == [-1.0, 0.0, 1.0] && dy == [-3.0, 0.0, 3.0]
    ensures Dot(dx, dx) == 2.0 && Dot(dy, dy) == 18.0 && Dot(dx, dy) == 6.0
  {
    hide Dot;
    DotOfThree(dx, dx);
    DotOfThree(dy, dy);
    DotOfThree(dx, dy);
  }

  lemma SixNormalised(sqrt: real -> real)
    requires SquareRoots(sqrt)
    ensures Normalised(6.0, 2.0, 18.0, sqrt) == 1.0
  {
    RootPositive(2.0, 18.0, sqrt);
    RootOfThirtySix(sqrt(2.0 * 18.0));
  }

  lemma MeanOfThree(xs: seq<real>)
    requires |xs| == 3
    ensures Mean(xs) == (xs[0] + xs[1] + xs[2]) / 3.0
  {
    SumOfThree(xs);
  }

  lemma FirstWindow(sqrt: real -> real)
    requires SquareRoots(sqrt)
    ensures WindowCoefficient(Undirected, 0, 3, Pearson, sqrt) == Some(1.0)
  {
    hide Mean, Dot, Deviations, Coefficient, SquareRoots, Normalised, First, Second;
    var w, xs, ys := Undirected[0..3], [0.0, 1.0, 2.0], [0.0, 3.0, 6.0];
    assert First(w) == xs && Second(w) == ys;
    MeanOfThree(xs);
    MeanOfThree(ys);
    var dx, dy := [-1.0, 0.0, 1.0], [-3.0, 0.0, 3.0];
    DeviationsAre(xs, 1.0, dx);
    DeviationsAre(ys, 3.0, dy);
    WindowDots(dx, dy);
    CoefficientFromDots(xs, ys, sqrt, 2.0, 18.0, 6.0);
    SixNormalised(sqrt);
  }

  lemma RootOfThirtySix(root: real)
    requires root > 0.0 && root * root == 36.0
    ensures root == 6.0
  {
    assert (root - 6.0) * (root + 6.0) == 0.0;
  }

  lemma SecondWindow(sqrt: real -> real)
    requires SquareRoots(sqrt)
    ensures WindowCoefficient(Undirected, 3, 3, Pearson, sqrt) == None
  {
    var w := Undirected[3..6];
    assert Constant(First(w));
    hide Constant, Coefficient;
    NoneWhenConstant(First(w), Second(w), sqrt);
  }

  lemma TwoStarts()
    ensures Starts(6, 3, 3) == [0, 3] && StartsFit([0, 3], 6, 3)
  {
    StartsUnfold(0, 3, 3);
    StartsUnfold(3, 3, 3);
  }

  lemma NoWindows(sqrt: real -> real)
    requires SquareRoots(sqrt)
    ensures WindowCoefficients(Undirected, [], 3, Pearson, sqrt) == []
  {
  }

  lemma NextWindow(front: seq<int>, start: int, sqrt: real -> real)
    requires SquareRoots(sqrt) && StartsFit(front + [start], 6, 3) && StartsFit(front, 6, 3) && 0 <= start <= 3
    ensures WindowCoefficients(Undirected, front + [start], 3, Pearson, sqrt)
            == WindowCoefficients(Undirected, front, 3, Pearson, sqrt)
               + (var c := WindowCoefficient(Undirected, start, 3, Pearson, sqrt); if c.Some? then [c.value] else [])
  {
    assert (front + [start])[..|front|] == front;
    hide WindowCoefficient, SquareRoots;
  }

  lemma UndirectedWindows(sqrt: real -> real)
    requires SquareRoots(sqrt) && StartsFit([0, 3], 6, 3)
    ensures WindowCoefficients(Undirected, [0, 3], 3, Pearson, sqrt) == [1.0]
  {
    hide WindowCoefficients, WindowCoefficient, SquareRoots;
    FirstWindow(sqrt);
    SecondWindow(sqrt);
    assert [] + [0] == [0] && [0] + [3] == [0, 3];
    NoWindows(sqrt);
    NextWindow([], 0, sqrt);
    NextWindow([0], 3, sqrt);
  }

  lemma UndirectedRolling(pairs: seq<(real, real)>, c: real, sqrt: real -> real, beta: Beta)
    requires SquareRoots(sqrt) && |pairs| == 6 && (c == 1.0 || c == -1.0) && StartsFit([0, 3], 6, 3)
    requires Starts(6, 3, 3) == [0, 3] && WindowCoefficients(pairs, [0, 3], 3, Pearson, sqrt) == [c]
    ensures var r := RollingOf(pairs, Pearson, 0.0, 3, 3, OneWindow.thresholds, sqrt, beta);
            r.windowCount == 1 && (r.stable <==> c == 1.0)
  {
    hide WindowCoefficients, Starts, SquareRoots, Median, SameDirectionRatio, SignificantRatio;
    SummaryOfOne(c, 0.0, 3, beta);
  }

  lemma UndirectedEstimate(pairs: seq<(real, real)>, sqrt: real -> real, beta: Beta)
    requires SquareRoots(sqrt) && |pairs| == 6 && FullCoefficient(pairs, Pearson, sqrt) == Some(0.0)
    ensures var e := EstimateOf(pairs, Pearson, OneWindow, sqrt, beta);
      && e.coefficient == Some(0.0)
      && e.rolling == RollingOf(pairs, Pearson, 0.0, 3, 3, OneWindow.thresholds, sqrt, beta)
  {
    hide FullCoefficient, RollingOf, SquareRoots, PValue;
  }

  /** Six pairs without any correlation: their only window that varies is stable one way and not the other. */
  lemma UndirectedVerdictTurns(sqrt: real -> real, beta: Beta)
    requires SquareRoots(sqrt)
    ensures var e := EstimateOf(Undirected, Pearson, OneWindow, sqrt, beta);
            var f := EstimateOf(Map(Undirected, Turn), Pearson, OneWindow, sqrt, beta);
      && e.coefficient == f.coefficient == Some(0.0) && e.rolling.windowCount == f.rolling.windowCount == 1
      && e.rolling.stable && !f.rolling.stable
  {
    hide SquareRoots, FullCoefficient, RollingOf, EstimateOf, WindowCoefficients, Starts, Turn, Negatives;
    UndirectedCoefficient(sqrt);
    TurnedCoefficient(Undirected, Pearson, sqrt);
    TwoStarts();
    UndirectedWindows(sqrt);
    TurnedWindows(Undirected, [0, 3], 3, Pearson, sqrt);
    assert Negatives([1.0]) == [-1.0];
    UndirectedRolling(Undirected, 1.0, sqrt, beta);
    UndirectedRolling(Map(Undirected, Turn), -1.0, sqrt, beta);
    UndirectedEstimate(Undirected, sqrt, beta);
    UndirectedEstimate(Map(Undirected, Turn), sqrt, beta);
  }
}
