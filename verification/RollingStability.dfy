/** Two series against each other with a lag, and over rolling windows
  * (`_lagged_pairs`, `_rolling_stability`, `_correlation_p_value`). */
module RollingStability {
  import opened Wrappers
  import opened Totals
  import opened RealArith
  import opened Sorting
  import opened RealOrder
  import opened RankCorrelation

  type Series = seq<Option<real>>

  // ---- Lagged pairs ----

  function Indices(n: nat): (r: seq<int>)
    ensures |r| == n && forall i | 0 <= i < n :: r[i] == i
  {
    seq(n, i => i)
  }

  /** Both series have a value: the target at `t`, the candidate `lag` earlier. */
  predicate HasPair(target: Series, candidate: Series, lag: int, t: int) {
    && 0 <= t < |target| && 0 <= t - lag < |candidate|
    && target[t].Some? && candidate[t - lag].Some?
  }

  function PairAt(target: Series, candidate: Series, lag: int, t: int): (real, real) {
    if HasPair(target, candidate, lag, t) then (target[t].value, candidate[t - lag].value) else (0.0, 0.0)
  }

  function PairTimes(target: Series, candidate: Series, lag: int): seq<int> {
    Filter(Indices(|target|), Has(target, candidate, lag))
  }

  /** The pairs in the order of the target's times. */
  function Pairs(target: Series, candidate: Series, lag: int): seq<(real, real)> {
    Map(PairTimes(target, candidate, lag), At(target, candidate, lag))
  }

  function Has(target: Series, candidate: Series, lag: int): int -> bool { t => HasPair(target, candidate, lag, t) }

  function At(target: Series, candidate: Series, lag: int): int -> (real, real) {
    t => PairAt(target, candidate, lag, t)
  }

  lemma PairHere(target: Series, candidate: Series, lag: int, t: int)
    requires 0 <= t < |target|
    ensures Has(target, candidate, lag)(t)
            <==> 0 <= t - lag < |candidate| && target[t].Some? && candidate[t - lag].Some?
    ensures Has(target, candidate, lag)(t) ==>
              At(target, candidate, lag)(t) == (target[t].value, candidate[t - lag].value)
  {
  }

  lemma MapSnoc<S, T>(xs: seq<S>, x: S, f: S -> T)
    ensures Map(xs + [x], f) == Map(xs, f) + [f(x)]
  {
  }

  method LaggedPairs(target: Series, candidate: Series, lag: int) returns (pairs: seq<(real, real)>)
    ensures pairs == Pairs(target, candidate, lag)
  {
    hide Has, At, Filter, Map;
    ghost var has, at, indices := Has(target, candidate, lag), At(target, candidate, lag), Indices(|target|);
    ghost var times: seq<int> := [];
    assert Filter(indices[..0], has) == [] && Map(times, at) == [] by { NothingYet(has, at); }
    pairs := [];
    for i := 0 to |target|
      invariant times == Filter(indices[..i], has)
      invariant pairs == Map(times, at)
    {
      assert indices[..i + 1] == indices[..i] + [i];
      FilterSnoc(indices[..i], i, has);
      PairHere(target, candidate, lag, i);
      assert times + [] == times;
      if !(0 <= i - lag < |candidate|) {
        continue;
      }
      if target[i].None? || candidate[i - lag].None? {
        continue;
      }
      MapSnoc(times, i, at);
      times := times + [i];
      pairs := pairs + [(target[i].value, candidate[i - lag].value)];
    }
    assert indices[..|target|] == indices;
  }

  lemma NothingYet(has: int -> bool, at: int -> (real, real))
    ensures Filter([], has) == [] && Map([], at) == []
  {
  }

  predicate Before(a: int, b: int) { a < b }

  lemma {:induction false} FilterAscends(xs: seq<int>, keep: int -> bool)
    requires StrictlySortedBy(xs, Before)
    ensures StrictlySortedBy(Filter(xs, keep), Before)
  {
    if xs != [] {
      assert StrictlySortedBy(xs[1..], Before);
      FilterAscends(xs[1..], keep);
      var rest := Filter(xs[1..], keep);
      forall j | 0 <= j < |rest| ensures xs[0] < rest[j] {
        assert rest[j] in rest;
        var k :| 0 <= k < |xs[1..]| && xs[1..][k] == rest[j];
        assert Before(xs[0], xs[k + 1]);
      }
    }
  }

  lemma PairTimesFacts(target: Series, candidate: Series, lag: int)
    ensures StrictlySortedBy(PairTimes(target, candidate, lag), Before)
    ensures forall t :: t in PairTimes(target, candidate, lag) <==> HasPair(target, candidate, lag, t)
  {
    FilterAscends(Indices(|target|), Has(target, candidate, lag));
    forall t | HasPair(target, candidate, lag, t) ensures t in Indices(|target|) { assert Indices(|target|)[t] == t; }
  }

  function Swap(p: (real, real)): (real, real) { (p.1, p.0) }

  function Shift(lag: int): int -> int { t => t - lag }

  lemma ShiftedMembers(target: Series, candidate: Series, lag: int, u: int)
    ensures u in Map(PairTimes(target, candidate, lag), Shift(lag)) <==> u in PairTimes(candidate, target, -lag)
  {
    var times := PairTimes(target, candidate, lag);
    var shifted := Map(times, Shift(lag));
    PairTimesFacts(target, candidate, lag);
    PairTimesFacts(candidate, target, -lag);
    hide PairTimes;
    assert HasPair(candidate, target, -lag, u) <==> HasPair(target, candidate, lag, u + lag);
    if u + lag in times {
      var k :| 0 <= k < |times| && times[k] == u + lag;
      assert shifted[k] == u;
    }
    if u in shifted {
      var k :| 0 <= k < |shifted| && shifted[k] == u;
      assert times[k] == u + lag && times[k] in times;
    }
  }

  lemma BeforeIsStrict()
    ensures StrictOrder(Before)
  {
  }

  lemma ShiftedTimes(target: Series, candidate: Series, lag: int)
    ensures Map(PairTimes(target, candidate, lag), Shift(lag)) == PairTimes(candidate, target, -lag)
  {
    var times, others := PairTimes(target, candidate, lag), PairTimes(candidate, target, -lag);
    var shifted := Map(times, Shift(lag));
    PairTimesFacts(target, candidate, lag);
    PairTimesFacts(candidate, target, -lag);
    forall u ensures u in shifted <==> u in others { ShiftedMembers(target, candidate, lag, u); }
    hide PairTimes, HasPair;
    assert StrictlySortedBy(shifted, Before) by {
      forall i, j | 0 <= i < j < |shifted| ensures Before(shifted[i], shifted[j]) { assert Before(times[i], times[j]); }
    }
    BeforeIsStrict();
    hide StrictlySortedBy, StrictOrder;
    StrictlySortedUnique(shifted, others, Before);
  }

  /** Exchanging the series and reversing the lag exchanges the members of every pair. */
  lemma LagIsSymmetric(target: Series, candidate: Series, lag: int)
    ensures Pairs(candidate, target, -lag) == Map(Pairs(target, candidate, lag), Swap)
  {
    var times, others := PairTimes(target, candidate, lag), PairTimes(candidate, target, -lag);
    ShiftedTimes(target, candidate, lag);
    PairTimesFacts(target, candidate, lag);
    hide PairTimes;
    forall k | 0 <= k < |times|
      ensures PairAt(candidate, target, -lag, others[k]) == Swap(PairAt(target, candidate, lag, times[k]))
    {
      assert others[k] == Shift(lag)(times[k]) && times[k] in times;
    }
  }

  // ---- Windows ----

  function NextStart(start: nat, last: nat, step: nat): nat { if start + step < last then start + step else last }

  /** The starts from this one on: they advance by `step`, and the last window ends with the pairs. */
  function StartsFrom(start: nat, last: nat, step: nat): seq<int>
    requires start <= last && step > 0
    decreases last - start
  {
    [start] + if start == last then [] else StartsFrom(NextStart(start, last, step), last, step)
  }

  function Starts(n: nat, window: nat, step: nat): seq<int>
    requires window <= n && step > 0
  {
    StartsFrom(0, n - window, step)
  }

  lemma StartsUnfold(start: nat, last: nat, step: nat)
    requires start <= last && step > 0
    ensures start + step <= last ==> StartsFrom(start, last, step) == [start] + StartsFrom(start + step, last, step)
    ensures start + step > last ==> StartsFrom(start, last, step) == [start] + if start == last then [] else [last]
  {
  }

  lemma OneMoreStart(starts: seq<int>, start: int, rest: seq<int>, whole: seq<int>)
    requires starts != [] && starts[|starts| - 1] == start && starts[..|starts| - 1] + ([start] + rest) == whole
    ensures starts + rest == whole
  {
    assert starts == starts[..|starts| - 1] + [start];
  }

  method WindowStarts(n: nat, window: nat, step: nat) returns (starts: seq<int>)
    requires 0 < window <= n && step > 0
    ensures starts == Starts(n, window, step)
  {
    hide StartsFrom;
    var lastStart := n - window;
    starts := [0];
    var next := step;
    ghost var whole := Starts(n, window, step);
    while next <= lastStart
      invariant step <= next && starts != [] && starts[|starts| - 1] == next - step <= lastStart
      invariant starts[..|starts| - 1] + StartsFrom(next - step, lastStart, step) == whole
      decreases lastStart - next
    {
      StartsUnfold(next - step, lastStart, step);
      OneMoreStart(starts, next - step, StartsFrom(next, lastStart, step), whole);
      assert (starts + [next])[..|starts|] == starts;
      starts := starts + [next];
      next := next + step;
    }
    StartsUnfold(next - step, lastStart, step);
    OneMoreStart(starts, next - step, if next - step == lastStart then [] else [lastStart], whole);
    if starts[|starts| - 1] != lastStart {
      starts := starts + [lastStart];
    }
  }

  /** The first and the last start, and the distance between neighbours. */
  ghost predicate IsCoverOf(starts: seq<int>, first: int, last: int, step: int) {
    && starts != [] && starts[0] == first && starts[|starts| - 1] == last
    && (forall k | 0 < k < |starts| - 1 :: starts[k] - starts[k - 1] == step)
    && (forall k | 0 < k < |starts| :: 0 < starts[k] - starts[k - 1] <= step)
  }

  lemma {:induction false} StartsCover(start: nat, last: nat, step: nat)
    requires start <= last && step > 0
    ensures IsCoverOf(StartsFrom(start, last, step), start, last, step)
    decreases last - start
  {
    if start < last {
      var next := NextStart(start, last, step);
      StartsCover(next, last, step);
      CoverExtends(StartsFrom(next, last, step), start, next, last, step);
    }
  }

  lemma CoverExtends(rest: seq<int>, start: nat, next: nat, last: nat, step: nat)
    requires start < last && step > 0 && next == NextStart(start, last, step) && IsCoverOf(rest, next, last, step)
    ensures IsCoverOf([start] + rest, start, last, step)
  {
    var starts := [start] + rest;
    var n := |starts|;
    if |rest| > 1 {
      CoverAscends(rest, next, last, step, 1, |rest| - 1);
      assert 0 < rest[1] - rest[0];
    }
    forall k | 0 < k < n
      ensures 0 < starts[k] - starts[k - 1] <= step && (k < n - 1 ==> starts[k] - starts[k - 1] == step)
    {
      if k == 1 { assert starts[k] == next; } else { assert rest[k - 1] - rest[k - 2] == starts[k] - starts[k - 1]; }
    }
  }

  lemma {:induction false} CoverAscends(starts: seq<int>, first: int, last: int, step: int, i: nat, j: nat)
    requires IsCoverOf(starts, first, last, step) && i <= j < |starts|
    ensures starts[i] <= starts[j]
    decreases j - i
  {
    if i < j {
      CoverAscends(starts, first, last, step, i, j - 1);
      assert 0 < starts[j] - starts[j - 1];
    }
  }

  ghost predicate InSomeWindow(starts: seq<int>, window: int, i: int) {
    exists k :: 0 <= k < |starts| && starts[k] <= i < starts[k] + window
  }

  lemma ShortStepsReach(starts: seq<int>, n: int, window: int, step: int, i: int)
    requires IsCoverOf(starts, 0, n - window, step) && 0 < step <= window && 0 <= i < n
    ensures InSomeWindow(starts, window, i)
  {
    var k := |starts| - 1;
    while k > 0 && starts[k] > i
      invariant 0 <= k < |starts|
      invariant forall j | k < j < |starts| :: starts[j] > i
    {
      k := k - 1;
    }
    assert starts[k] <= i;
    if k < |starts| - 1 { assert starts[k + 1] > i && starts[k + 1] - starts[k] <= step; }
  }

  lemma LongStepsSkip(starts: seq<int>, n: int, window: int, step: int)
    requires IsCoverOf(starts, 0, n - window, step) && 0 < window < step && 2 * window < n
    ensures !InSomeWindow(starts, window, window)
  {
    forall k | 0 <= k < |starts| ensures !(starts[k] <= window < starts[k] + window) {
      if k > 0 {
        if |starts| > 2 { assert starts[1] - starts[0] == step; }
        CoverAscends(starts, 0, n - window, step, 1, k);
      }
    }
  }

  /** Every pair is in some window exactly when windows advance by no more than their length, or the
    * first and the last window already meet. */
  lemma EveryPairIsInAWindow(n: nat, window: nat, step: nat)
    requires 0 < window <= n && step > 0
    ensures (forall i | 0 <= i < n :: InSomeWindow(Starts(n, window, step), window, i))
            <==> step <= window || n <= 2 * window
  {
    var starts := Starts(n, window, step);
    StartsCover(0, n - window, step);
    if step <= window {
      forall i | 0 <= i < n ensures InSomeWindow(starts, window, i) { ShortStepsReach(starts, n, window, step, i); }
    } else if n <= 2 * window {
      forall i | 0 <= i < n ensures InSomeWindow(starts, window, i) {
        var k := if i < window then 0 else |starts| - 1;
        assert starts[k] <= i < starts[k] + window;
      }
    } else {
      LongStepsSkip(starts, n, window, step);
    }
  }

  // ---- p-values ----

  /** The incomplete beta function between its end points, at half of the degrees of freedom. */
  type Beta = (real, nat) -> real

  function RegularizedBeta(x: real, degrees: nat, beta: Beta): real {
    if x <= 0.0 then 0.0 else if x >= 1.0 then 1.0 else beta(x, degrees)
  }

  lemma OddsNotNegative(square: real, size: real, degrees: real)
    requires 0.0 <= size < 1.0 && square == size * size && degrees > 0.0
    ensures square < 1.0 && square * degrees / (1.0 - square) >= 0.0
  {
    SquareNonNegative(size);
    ProductMonotone(size, 1.0, size);
    ProductMonotone(0.0, square, degrees);
    LeDiv(0.0, square * degrees, 1.0 - square);
  }

  /** What the degrees of freedom are of themselves and the squared test statistic together. */
  function ShareOfDegrees(square: real, degrees: real): real
    requires square < 1.0 && degrees > 0.0 && square * degrees / (1.0 - square) >= 0.0
  {
    var odds := square * degrees / (1.0 - square);
    degrees / (degrees + odds)
  }

  /** Two-sided, from the size of a coefficient over `n` pairs. */
  function PValue(c: real, n: nat, beta: Beta): (p: real)
    ensures 0.0 <= p <= 1.0
  {
    PValueOfSize(Abs(c), n, beta)
  }

  function PValueOfSize(size: real, n: nat, beta: Beta): (p: real)
    requires size >= 0.0
    ensures 0.0 <= p <= 1.0
  {
    if n <= 2 then 1.0
    else if size >= 0.999999999999999 then 0.0
    else
      var degrees, square := (n - 2) as real, size * size;
      OddsNotNegative(square, size, degrees);
      var p := RegularizedBeta(ShareOfDegrees(square, degrees), n - 2, beta);
      if p < 0.0 then 0.0 else if p > 1.0 then 1.0 else p
  }

  // ---- Stability ----

  datatype Rolling = Rolling(windowCount: nat, sameDirectionRatio: real, medianCorrelation: Option<real>,
                             medianAbsolute: Option<real>, significantRatio: real, stable: bool)

  datatype Thresholds = Thresholds(minWindows: int, directionRatio: real, minAbsCorrelation: real, alpha: real)

  function Median(xs: seq<real>): real
    requires xs != []
  {
    var s := SortedValues(xs);
    Ascending(xs);
    if |s| % 2 == 1 then s[|s| / 2] else (s[|s| / 2 - 1] + s[|s| / 2]) / 2.0
  }

  function Agrees(direction: real): real -> real { c => if c * direction > 0.0 then 1.0 else 0.0 }

  function Direction(full: real): real { if full >= 0.0 then 1.0 else -1.0 }

  function SameDirectionRatio(coefficients: seq<real>, full: real): real
    requires coefficients != []
  {
    Total(coefficients, Agrees(Direction(full))) / |coefficients| as real
  }

  function Absolutes(xs: seq<real>): (r: seq<real>)
    ensures |r| == |xs|
  {
    Map(xs, Abs)
  }

  function Significant(window: nat, beta: Beta, alpha: real): real -> real {
    c => if PValue(c, window, beta) <= alpha then 1.0 else 0.0
  }

  function SignificantRatio(coefficients: seq<real>, window: nat, beta: Beta, alpha: real): real
    requires coefficients != []
  {
    Total(coefficients, Significant(window, beta, alpha)) / |coefficients| as real
  }

  const EmptyRolling: Rolling := Rolling(0, 0.0, None, None, 0.0, false)

  function Summary(coefficients: seq<real>, full: real, window: nat, t: Thresholds, beta: Beta): Rolling {
    if coefficients == [] then EmptyRolling
    else
      var ratio, absolute := SameDirectionRatio(coefficients, full), Median(Absolutes(coefficients));
      Rolling(|coefficients|, ratio, Some(Median(coefficients)), Some(absolute),
              SignificantRatio(coefficients, window, beta, t.alpha),
              |coefficients| >= t.minWindows && ratio >= t.directionRatio && absolute >= t.minAbsCorrelation)
  }

  function WindowCoefficient(pairs: seq<(real, real)>, start: int, window: int, how: Method,
                             sqrt: real -> real): Option<real>
    requires 0 <= start && 0 < window && start + window <= |pairs| && SquareRoots(sqrt)
  {
    var w := pairs[start..start + window];
    Coefficient(Prepared(First(w), how), Prepared(Second(w), how), sqrt)
  }

  ghost predicate StartsFit(starts: seq<int>, n: int, window: int) {
    forall k | 0 <= k < |starts| :: 0 <= starts[k] && starts[k] + window <= n
  }

  /** The coefficients of the windows in which neither series is constant. */
  function WindowCoefficients(pairs: seq<(real, real)>, starts: seq<int>, window: int, how: Method,
                              sqrt: real -> real): seq<real>
    requires 0 < window && SquareRoots(sqrt) && StartsFit(starts, |pairs|, window)
  {
    if starts == [] then []
    else
      var front := starts[..|starts| - 1];
      var last := WindowCoefficient(pairs, starts[|starts| - 1], window, how, sqrt);
      WindowCoefficients(pairs, front, window, how, sqrt) + if last.Some? then [last.value] else []
  }

  lemma StartsOfWindowsFit(n: nat, window: nat, step: nat)
    requires window <= n && step > 0
    ensures StartsFit(Starts(n, window, step), n, window)
  {
    var starts := Starts(n, window, step);
    StartsCover(0, n - window, step);
    forall k | 0 <= k < |starts| ensures 0 <= starts[k] && starts[k] + window <= n {
      CoverAscends(starts, 0, n - window, step, 0, k);
      CoverAscends(starts, 0, n - window, step, k, |starts| - 1);
    }
  }

  function RollingOf(pairs: seq<(real, real)>, how: Method, full: real, window: nat, step: nat, t: Thresholds,
                     sqrt: real -> real, beta: Beta): Rolling
    requires window > 0 && step > 0 && SquareRoots(sqrt)
  {
    if |pairs| < window then EmptyRolling
    else
      StartsOfWindowsFit(|pairs|, window, step);
      var coefficients := WindowCoefficients(pairs, Starts(|pairs|, window, step), window, how, sqrt);
      Summary(coefficients, full, window, t, beta)
  }

  method RollingCorrelation(pairs: seq<(real, real)>, how: Method, full: real, window: nat, step: nat, t: Thresholds,
                            sqrt: real -> real, beta: Beta)
    returns (rolling: Rolling)
    requires window > 0 && step > 0 && SquareRoots(sqrt)
    ensures rolling == RollingOf(pairs, how, full, window, step, t, sqrt, beta)
  {
    hide WindowCoefficient, Coefficient, SquareRoots, Median, PValue, StartsFrom, SameDirectionRatio;
    if |pairs| < window {
      return EmptyRolling;
    }
    var starts := WindowStarts(|pairs|, window, step);
    StartsOfWindowsFit(|pairs|, window, step);
    var coefficients, significant := [], 0;
    ghost var isSignificant := Significant(window, beta, t.alpha);
    for k := 0 to |starts|
      invariant StartsFit(starts[..k], |pairs|, window)
      invariant coefficients == WindowCoefficients(pairs, starts[..k], window, how, sqrt)
      invariant significant as real == Total(coefficients, isSignificant)
    {
      assert starts[..k + 1][..k] == starts[..k];
      var coefficient := WindowCoefficient(pairs, starts[k], window, how, sqrt);
      assert coefficients + [] == coefficients;
      if coefficient == None {
        continue;
      }
      TotalSnoc(coefficients, coefficient.value, isSignificant);
      coefficients := coefficients + [coefficient.value];
      if PValue(coefficient.value, window, beta) <= t.alpha {
        significant := significant + 1;
      }
    }
    assert starts[..|starts|] == starts;
    if coefficients == [] {
      return EmptyRolling;
    }
    var ratio, absolute := SameDirectionRatio(coefficients, full), Median(Absolutes(coefficients));
    rolling := Rolling(
      |coefficients|, ratio, Some(Median(coefficients)), Some(absolute), significant as real / |coefficients| as real,
      |coefficients| >= t.minWindows && ratio >= t.directionRatio && absolute >= t.minAbsCorrelation);
  }

  /** The share of windows that go the way of the whole is a proportion, and the median of the sizes
    * lies within [0, 1] when the coefficients do. */
  lemma SummaryBounds(coefficients: seq<real>, full: real, window: nat, t: Thresholds, beta: Beta)
    requires coefficients != [] && forall c | c in coefficients :: -1.0 <= c <= 1.0
    ensures var r := Summary(coefficients, full, window, t, beta);
      && 0.0 <= r.sameDirectionRatio <= 1.0 && 0.0 <= r.significantRatio <= 1.0
      && 0.0 <= r.medianAbsolute.value <= 1.0 && -1.0 <= r.medianCorrelation.value <= 1.0
  {
    ShareIsProportion(coefficients, Agrees(Direction(full)));
    ShareIsProportion(coefficients, Significant(window, beta, t.alpha));
    MedianBounds(coefficients, -1.0, 1.0);
    var sizes := Absolutes(coefficients);
    forall s | s in sizes ensures 0.0 <= s <= 1.0 {
      var i :| 0 <= i < |sizes| && sizes[i] == s;
      assert coefficients[i] in coefficients;
    }
    MedianBounds(sizes, 0.0, 1.0);
  }

  lemma ShareIsProportion(coefficients: seq<real>, counts: real -> real)
    requires coefficients != [] && forall i | 0 <= i < |coefficients| :: 0.0 <= counts(coefficients[i]) <= 1.0
    ensures 0.0 <= Total(coefficients, counts) / |coefficients| as real <= 1.0
  {
    var n := |coefficients| as real;
    TotalNonNegative(coefficients, counts);
    TotalMonotone(coefficients, counts, (c: real) => 1.0);
    TotalConstant(coefficients, (c: real) => 1.0, 1.0);
    hide Total;
    LeDiv(0.0, Total(coefficients, counts), n);
    DivLe(Total(coefficients, counts), n, 1.0);
  }

  lemma MedianBounds(xs: seq<real>, low: real, high: real)
    requires xs != [] && forall x | x in xs :: low <= x <= high
    ensures low <= Median(xs) <= high
  {
    var s := SortedValues(xs);
    Ascending(xs);
    forall i | 0 <= i < |s| ensures low <= s[i] <= high {
      assert s[i] in multiset(s);
      assert s[i] in multiset(xs);
      assert s[i] in xs;
    }
  }
}
