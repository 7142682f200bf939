/** What becomes of a coefficient, its windows and its stability when the candidate series is negated. */
module SignReversal {
  import opened Wrappers
  import opened Totals
  import References
  import opened Sorting
  import opened RealOrder
  import opened RankCorrelation
  import opened RollingStability

  function Negated(x: real): real { -x }

  function Negatives(xs: seq<real>): (r: seq<real>)
    ensures |r| == |xs| && forall i | 0 <= i < |xs| :: r[i] == -xs[i]
  {
    Map(xs, Negated)
  }

  function Opposite(x: Option<real>): Option<real> { if x.Some? then Some(-x.value) else None }

  /** The pair with its candidate negated. */
  function Turn(p: (real, real)): (real, real) { (p.0, -p.1) }

  // ---- The series and its pairs ----

  /** Negating the candidate series negates the second member of every pair. */
  lemma PairsOfNegated(target: Series, candidate: Series, lag: int)
    ensures Pairs(target, Map(candidate, Opposite), lag) == Map(Pairs(target, candidate, lag), Turn)
  {
    var turned := Map(candidate, Opposite);
    PairTimesFacts(target, candidate, lag);
    forall t ensures Has(target, turned, lag)(t) == Has(target, candidate, lag)(t) {
    }
    SameFilter(Indices(|target|), Has(target, turned, lag), Has(target, candidate, lag));
    var times := PairTimes(target, candidate, lag);
    hide Filter;
    forall k | 0 <= k < |times|
      ensures PairAt(target, turned, lag, times[k]) == Turn(PairAt(target, candidate, lag, times[k]))
    {
      assert times[k] in times;
    }
  }

  // ---- Deviations and products ----

  /** Every value is reflected at the same place. */
  ghost predicate Reflected(xs: seq<real>, zs: seq<real>, sum: real) {
    |zs| == |xs| && forall i | 0 <= i < |xs| :: zs[i] == sum - xs[i]
  }

  lemma MeanReflected(xs: seq<real>, zs: seq<real>, sum: real)
    requires xs != [] && Reflected(xs, zs, sum)
    ensures Mean(zs) == sum - Mean(xs)
  {
    var one, reflect, n := (x: real) => 1.0, (x: real) => sum - x, |xs| as real;
    TotalAgree(zs, xs, Identity(), reflect);
    TotalConstant(xs, one, 1.0);
    TotalLinear(xs, one, Identity(), reflect, sum, -1.0);
    hide Total;
    QuotientReflected(sum, Total(xs, Identity()), n);
  }

  lemma QuotientReflected(sum: real, total: real, n: real)
    requires n > 0.0
    ensures (sum * n - total) / n == sum - total / n
  {
    var q := total / n;
    assert q * n == total;
    assert sum * n - total == (sum - q) * n;
  }

  lemma DeviationsReflected(xs: seq<real>, zs: seq<real>, sum: real)
    requires xs != [] && Reflected(xs, zs, sum)
    ensures Deviations(zs) == Negatives(Deviations(xs))
  {
    MeanReflected(xs, zs, sum);
    hide Mean;
    forall i | 0 <= i < |xs| ensures Deviations(zs)[i] == -Deviations(xs)[i] {
      assert zs[i] == sum - xs[i];
    }
  }

  lemma NegativesTail(b: seq<real>)
    requires b != []
    ensures Negatives(b)[0] == -b[0] && Negatives(b)[1..] == Negatives(b[1..])
  {
  }

  lemma {:induction false} DotNegated(a: seq<real>, b: seq<real>)
    requires |a| == |b|
    ensures Dot(a, Negatives(b)) == -Dot(a, b)
  {
    if a != [] {
      DotNegated(a[1..], b[1..]);
      NegativesTail(b);
      DotUnfold(a, b);
      DotUnfold(a, Negatives(b));
      hide Dot, Negatives;
      assert a[0] * -b[0] == -(a[0] * b[0]);
    }
  }

  lemma DotNegatives(a: seq<real>)
    ensures Dot(Negatives(a), Negatives(a)) == Dot(a, a)
  {
    DotNegated(Negatives(a), a);
    DotSymmetric(Negatives(a), a);
    DotNegated(a, a);
  }

  lemma NormalisedNegated(c: real, vx: real, vy: real, sqrt: real -> real)
    requires vx > 0.0 && vy > 0.0 && SquareRoots(sqrt)
    ensures Normalised(-c, vx, vy, sqrt) == -Normalised(c, vx, vy, sqrt)
  {
    RootPositive(vx, vy, sqrt);
    QuotientNegated(c, sqrt(vx * vy));
  }

  lemma QuotientNegated(c: real, d: real)
    requires d != 0.0
    ensures -c / d == -(c / d)
  {
    var q := c / d;
    assert q * d == c;
    assert -c == -q * d;
  }

  lemma CoefficientReflected(xs: seq<real>, ys: seq<real>, zs: seq<real>, sum: real, sqrt: real -> real)
    requires |xs| == |ys| && xs != [] && SquareRoots(sqrt) && Reflected(ys, zs, sum)
    ensures Coefficient(xs, zs, sqrt) == Opposite(Coefficient(xs, ys, sqrt))
  {
    var dx, dy := Deviations(xs), Deviations(ys);
    DeviationsReflected(ys, zs, sum);
    DotNegated(dx, dy);
    DotNegatives(dy);
    hide Dot, Deviations, Normalised, Reflected;
    var vx, vy := Dot(dx, dx), Dot(dy, dy);
    if vx > 0.0 && vy > 0.0 { NormalisedNegated(Dot(dx, dy), vx, vy, sqrt); }
  }

  // ---- Ranks ----

  lemma WeightReflected(x: real, v: real)
    ensures W(-x, -v) == 1.0 - W(x, v)
  {
  }

  /** Turned round, the ranks are counted from the other end. */
  lemma RankReflected(xs: seq<real>, v: real)
    ensures MidRank(Negatives(xs), -v) == |xs| as real + 1.0 - MidRank(xs, v)
  {
    var one, rest := (x: real) => 1.0, (x: real) => 1.0 - W(x, v);
    MidRankByWeight(xs, v);
    MidRankByWeight(Negatives(xs), -v);
    forall i | 0 <= i < |xs| ensures Weight(-v)(Negatives(xs)[i]) == rest(xs[i]) { WeightReflected(xs[i], v); }
    hide MidRank;
    TotalAgree(Negatives(xs), xs, Weight(-v), rest);
    TotalConstant(xs, one, 1.0);
    TotalLinear(xs, one, Weight(v), rest, 1.0, -1.0);
  }

  lemma RanksReflected(xs: seq<real>)
    ensures Reflected(MidRanks(xs), MidRanks(Negatives(xs)), |xs| as real + 1.0)
  {
    hide MidRank;
    forall i | 0 <= i < |xs| ensures MidRanks(Negatives(xs))[i] == |xs| as real + 1.0 - MidRanks(xs)[i] {
      RankReflected(xs, xs[i]);
    }
  }

  lemma PreparedReflected(ys: seq<real>, how: Method)
    ensures Reflected(Prepared(ys, how), Prepared(Negatives(ys), how),
                      if how == Spearman then |ys| as real + 1.0 else 0.0)
  {
    hide MidRanks, Negatives;
    if how == Spearman { RanksReflected(ys); }
  }

  /** Negating the candidate negates the coefficient, for values and for ranks. */
  lemma NegatedCandidate(xs: seq<real>, ys: seq<real>, how: Method, sqrt: real -> real)
    requires |xs| == |ys| && xs != [] && SquareRoots(sqrt)
    ensures Coefficient(Prepared(xs, how), Prepared(Negatives(ys), how), sqrt)
            == Opposite(Coefficient(Prepared(xs, how), Prepared(ys, how), sqrt))
  {
    PreparedReflected(ys, how);
    var sum := if how == Spearman then |ys| as real + 1.0 else 0.0;
    hide Coefficient, Prepared, Reflected, SquareRoots;
    CoefficientReflected(Prepared(xs, how), Prepared(ys, how), Prepared(Negatives(ys), how), sum, sqrt);
  }

  function FullCoefficient(pairs: seq<(real, real)>, how: Method, sqrt: real -> real): Option<real>
    requires pairs != [] && SquareRoots(sqrt)
  {
    Coefficient(Prepared(First(pairs), how), Prepared(Second(pairs), how), sqrt)
  }

  lemma TurnedParts(pairs: seq<(real, real)>)
    ensures First(Map(pairs, Turn)) == First(pairs) && Second(Map(pairs, Turn)) == Negatives(Second(pairs))
  {
  }

  lemma TurnedCoefficient(pairs: seq<(real, real)>, how: Method, sqrt: real -> real)
    requires pairs != [] && SquareRoots(sqrt)
    ensures FullCoefficient(Map(pairs, Turn), how, sqrt) == Opposite(FullCoefficient(pairs, how, sqrt))
  {
    TurnedParts(pairs);
    NegatedCandidate(First(pairs), Second(pairs), how, sqrt);
  }

  // ---- Windows ----

  lemma TurnedWindow(pairs: seq<(real, real)>, start: int, window: int, how: Method, sqrt: real -> real)
    requires 0 <= start && 0 < window && start + window <= |pairs| && SquareRoots(sqrt)
    ensures WindowCoefficient(Map(pairs, Turn), start, window, how, sqrt)
            == Opposite(WindowCoefficient(pairs, start, window, how, sqrt))
  {
    hide Coefficient, Prepared, SquareRoots, Turn, First, Second;
    var w := pairs[start..start + window];
    assert Map(pairs, Turn)[start..start + window] == Map(w, Turn);
    TurnedCoefficient(w, how, sqrt);
  }

  lemma NegativesSnoc(xs: seq<real>, x: real)
    ensures Negatives(xs + [x]) == Negatives(xs) + [-x]
  {
  }

  lemma {:induction false} TurnedWindows(pairs: seq<(real, real)>, starts: seq<int>, window: int, how: Method,
                                         sqrt: real -> real)
    requires 0 < window && SquareRoots(sqrt) && StartsFit(starts, |pairs|, window)
    ensures WindowCoefficients(Map(pairs, Turn), starts, window, how, sqrt)
            == Negatives(WindowCoefficients(pairs, starts, window, how, sqrt))
  {
    hide WindowCoefficient, SquareRoots, Negatives, Turn;
    if starts != [] {
      var front, last := starts[..|starts| - 1], starts[|starts| - 1];
      TurnedWindows(pairs, front, window, how, sqrt);
      TurnedWindow(pairs, last, window, how, sqrt);
      var coefficient := WindowCoefficient(pairs, last, window, how, sqrt);
      var before := WindowCoefficients(pairs, front, window, how, sqrt);
      if coefficient.Some? { NegativesSnoc(before, coefficient.value); } else { assert before + [] == before; }
    }
  }

  // ---- The summary ----

  function Backwards(xs: seq<real>): (r: seq<real>)
    ensures |r| == |xs| && forall i | 0 <= i < |xs| :: r[i] == xs[|xs| - 1 - i]
  {
    seq(|xs|, i requires 0 <= i < |xs| => xs[|xs| - 1 - i])
  }

  lemma {:induction false} BackwardsMultiset(xs: seq<real>)
    ensures multiset(Backwards(xs)) == multiset(xs)
  {
    if xs != [] {
      var front, last := xs[..|xs| - 1], xs[|xs| - 1];
      BackwardsMultiset(front);
      assert Backwards(xs) == [last] + Backwards(front);
      assert xs == front + [last];
    }
  }

  lemma SortedNegatives(xs: seq<real>)
    ensures SortedValues(Negatives(xs)) == Backwards(Negatives(SortedValues(xs)))
  {
    var s, t := SortedValues(Negatives(xs)), Backwards(Negatives(SortedValues(xs)));
    Ascending(xs);
    Ascending(Negatives(xs));
    References.MapMultiset(SortedValues(xs), xs, Negated);
    BackwardsMultiset(Negatives(SortedValues(xs)));
    assert multiset(s) == multiset(t);
    hide SortedValues, Negatives, Backwards;
    assert TotalPreorder(AtMost) && TieFree(s, AtMost);
    SortedUnique(s, t, AtMost);
  }

  lemma MedianNegated(xs: seq<real>)
    requires xs != []
    ensures Median(Negatives(xs)) == -Median(xs)
  {
    SortedNegatives(xs);
    Ascending(xs);
    Ascending(Negatives(xs));
  }

  lemma AbsolutesOfNegatives(xs: seq<real>)
    ensures Absolutes(Negatives(xs)) == Absolutes(xs)
  {
  }

  lemma PValueIsEven(c: real, n: nat, beta: Beta)
    ensures PValue(-c, n, beta) == PValue(c, n, beta)
  {
    assert Abs(-c) == Abs(c);
  }

  lemma SignificantRatioNegated(coefficients: seq<real>, window: nat, beta: Beta, alpha: real)
    requires coefficients != []
    ensures SignificantRatio(Negatives(coefficients), window, beta, alpha)
            == SignificantRatio(coefficients, window, beta, alpha)
  {
    var significant := Significant(window, beta, alpha);
    forall i | 0 <= i < |coefficients| ensures significant(Negatives(coefficients)[i]) == significant(coefficients[i]) {
      PValueIsEven(coefficients[i], window, beta);
    }
    TotalAgree(Negatives(coefficients), coefficients, significant, significant);
  }

  lemma AgreesNegated(c: real, full: real)
    requires full != 0.0
    ensures Agrees(Direction(-full))(-c) == Agrees(Direction(full))(c)
  {
  }

  lemma DirectionRatioNegated(coefficients: seq<real>, full: real)
    requires coefficients != [] && full != 0.0
    ensures SameDirectionRatio(Negatives(coefficients), -full) == SameDirectionRatio(coefficients, full)
  {
    var turned := Negatives(coefficients);
    forall i | 0 <= i < |coefficients|
      ensures Agrees(Direction(-full))(turned[i]) == Agrees(Direction(full))(coefficients[i])
    {
      AgreesNegated(coefficients[i], full);
    }
    hide Agrees, Direction, Negatives;
    TotalAgree(turned, coefficients, Agrees(Direction(-full)), Agrees(Direction(full)));
  }

  /** Counts, sizes and significance are the same, the median has the other sign, and with a direction
    * the verdict is the same. */
  ghost predicate TurnedRolling(r: Rolling, s: Rolling, full: real) {
    && s.windowCount == r.windowCount && s.medianAbsolute == r.medianAbsolute
    && s.significantRatio == r.significantRatio
    && s.medianCorrelation == Opposite(r.medianCorrelation)
    && (full != 0.0 ==> s.sameDirectionRatio == r.sameDirectionRatio && s.stable == r.stable)
  }

  lemma TurnedSummary(coefficients: seq<real>, full: real, window: nat, t: Thresholds, beta: Beta)
    ensures TurnedRolling(Summary(coefficients, full, window, t, beta),
                          Summary(Negatives(coefficients), -full, window, t, beta), full)
  {
    hide Negatives, Median, Absolutes, SameDirectionRatio, SignificantRatio;
    if coefficients == [] {
      assert Negatives(coefficients) == [];
    } else {
      MedianNegated(coefficients);
      AbsolutesOfNegatives(coefficients);
      SignificantRatioNegated(coefficients, window, beta, t.alpha);
      if full != 0.0 { DirectionRatioNegated(coefficients, full); }
    }
  }

  /** Negating the candidate turns the rolling summary of its pairs. */
  lemma TurnedPairsTurnRolling(pairs: seq<(real, real)>, how: Method, full: real, window: nat, step: nat,
                               t: Thresholds, sqrt: real -> real, beta: Beta)
    requires window > 0 && step > 0 && SquareRoots(sqrt)
    ensures TurnedRolling(RollingOf(pairs, how, full, window, step, t, sqrt, beta),
                          RollingOf(Map(pairs, Turn), how, -full, window, step, t, sqrt, beta), full)
  {
    hide Summary, WindowCoefficients, TurnedRolling, SquareRoots, Starts, Negatives, Turn;
    if |pairs| >= window {
      StartsOfWindowsFit(|pairs|, window, step);
      var starts := Starts(|pairs|, window, step);
      TurnedWindows(pairs, starts, window, how, sqrt);
      TurnedSummary(WindowCoefficients(pairs, starts, window, how, sqrt), full, window, t, beta);
    } else {
      NothingTurns(full);
    }
  }

  lemma NothingTurns(full: real)
    ensures TurnedRolling(EmptyRolling, EmptyRolling, full)
  {
  }

  // ---- Without a direction ----

  lemma RatioOfOne(c: real, full: real)
    ensures SameDirectionRatio([c], full) == Agrees(Direction(full))(c)
  {
    TotalSnoc([], c, Agrees(Direction(full)));
    assert [] + [c] == [c];
  }

  lemma SizeOfOne(c: real)
    requires c == 1.0 || c == -1.0
    ensures Median(Absolutes([c])) == 1.0
  {
    assert Absolutes([c]) == [1.0];
    MedianBounds([1.0], 1.0, 1.0);
  }

  lemma SummaryOfOne(c: real, full: real, window: nat, beta: Beta)
    requires c == 1.0 || c == -1.0
    ensures Summary([c], full, window, Thresholds(1, 1.0, 0.0, 0.05), beta).stable <==> c * Direction(full) > 0.0
  {
    hide Median, SignificantRatio, SameDirectionRatio, Absolutes;
    RatioOfOne(c, full);
    SizeOfOne(c);
  }

  ghost predicate VerdictStands(coefficients: seq<real>, full: real, window: nat, t: Thresholds, beta: Beta) {
    Summary(Negatives(coefficients), -full, window, t, beta).stable
        == Summary(coefficients, full, window, t, beta).stable
  }

  /** Turning every coefficient round, with the whole, keeps the verdict for all windows and thresholds
    * exactly when the whole has a direction: without one it counts as positive. */
  lemma VerdictStandsExactlyWithDirection(full: real, window: nat, beta: Beta)
    ensures (forall coefficients, t :: VerdictStands(coefficients, full, window, t, beta)) <==> full != 0.0
  {
    hide Summary, Negatives;
    if full != 0.0 {
      forall coefficients, t ensures VerdictStands(coefficients, full, window, t, beta) {
        TurnedSummary(coefficients, full, window, t, beta);
      }
    } else {
      SummaryOfOne(1.0, full, window, beta);
      SummaryOfOne(-1.0, -full, window, beta);
      assert Negatives([1.0]) == [-1.0];
      assert !VerdictStands([1.0], full, window, Thresholds(1, 1.0, 0.0, 0.05), beta);
    }
  }
}
