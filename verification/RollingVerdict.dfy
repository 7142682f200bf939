/** What the stability of rolling windows means: how many windows go the way of the whole, how many are
  * significant, and where half of their coefficients lie. */
module RollingVerdict {
  import opened Wrappers
  import opened Totals
  import opened RealArith
  import opened Sorting
  import opened RealOrder
  import opened RankCorrelation
  import opened Counting
  import opened RollingStability

  // ---- The median ----

  /** The middle of an ascending arrangement: its middle value, or halfway between the two middle ones. */
  function Middle(s: seq<real>): real
    requires s != []
  {
    (s[(|s| - 1) / 2] + s[|s| / 2]) / 2.0
  }

  /** The median is the middle of the values in ascending order, however they were given. */
  lemma MedianIsTheMiddle(xs: seq<real>, s: seq<real>)
    requires xs != [] && Ascends(s) && multiset(s) == multiset(xs)
    ensures s != [] && Median(xs) == Middle(s)
  {
    var t := SortedValues(xs);
    SortedAscends(xs);
    assert |s| == |multiset(s)| == |multiset(t)| == |t|;
    assert TotalPreorder(AtMost) && TieFree(s, AtMost);
    SortedUnique(s, t, AtMost);
  }

  lemma CountOfFront(s: seq<real>, k: nat, holds: real -> bool)
    requires k <= |s| && forall i | 0 <= i < k :: holds(s[i])
    ensures Count(s, holds) >= k
  {
    assert s == s[..k] + s[k..];
    CountAppend(s[..k], s[k..], holds);
    CountAll(s[..k], holds);
  }

  lemma CountOfBack(s: seq<real>, k: nat, holds: real -> bool)
    requires k <= |s| && forall i | k <= i < |s| :: holds(s[i])
    ensures Count(s, holds) >= |s| - k
  {
    assert s == s[..k] + s[k..];
    CountAppend(s[..k], s[k..], holds);
    CountAll(s[k..], holds);
  }

  lemma LowerHalf(s: seq<real>)
    requires s != [] && Ascends(s)
    ensures 2 * Count(s, x => AtMostOf(Middle(s), x)) >= |s|
  {
    hide Count;
    CountOfFront(s, (|s| - 1) / 2 + 1, x => AtMostOf(Middle(s), x));
  }

  lemma UpperHalf(s: seq<real>)
    requires s != [] && Ascends(s)
    ensures 2 * Count(s, x => AtLeastOf(Middle(s), x)) >= |s|
  {
    hide Count;
    CountOfBack(s, |s| / 2, x => AtLeastOf(Middle(s), x));
  }

  /** At least half of the values are at most the median, and at least half are at least the median. */
  lemma MedianHalves(xs: seq<real>)
    requires xs != []
    ensures 2 * Count(xs, x => AtMostOf(Median(xs), x)) >= |xs|
    ensures 2 * Count(xs, x => AtLeastOf(Median(xs), x)) >= |xs|
  {
    var s := SortedValues(xs);
    SortedAscends(xs);
    MedianIsTheMiddle(xs, s);
    LowerHalf(s);
    UpperHalf(s);
    CountPermutation(xs, s, x => AtMostOf(Median(xs), x));
    CountPermutation(xs, s, x => AtLeastOf(Median(xs), x));
    hide *;
  }

  // ---- The summary ----

  /** A coefficient of the same sign as that of the whole; a whole of zero counts as positive. */
  predicate GoesWith(full: real, c: real) { if full >= 0.0 then c > 0.0 else c < 0.0 }

  predicate IsSignificant(window: nat, beta: Beta, alpha: real, c: real) { PValue(c, window, beta) <= alpha }

  predicate IsAsLarge(size: real, c: real) { Abs(c) >= size }

  lemma ShareOf(coefficients: seq<real>, holds: real -> bool, counts: real -> real)
    requires coefficients != []
    requires forall i | 0 <= i < |coefficients| ::
               counts(coefficients[i]) == if holds(coefficients[i]) then 1.0 else 0.0
    ensures (Total(coefficients, counts) / |coefficients| as real) * |coefficients| as real
            == Count(coefficients, holds) as real
  {
    CountIsTotal(coefficients, holds, counts);
    hide Total, Count;
  }

  /** The ratios of a summary are counts over the number of windows. */
  lemma RatiosAreCounts(coefficients: seq<real>, full: real, window: nat, t: Thresholds, beta: Beta)
    requires coefficients != []
    ensures var r, n := Summary(coefficients, full, window, t, beta), |coefficients|;
      && r.windowCount == n
      && r.sameDirectionRatio * n as real == Count(coefficients, c => GoesWith(full, c)) as real
      && r.significantRatio * n as real == Count(coefficients, c => IsSignificant(window, beta, t.alpha, c)) as real
  {
    hide Median, PValue, Total, Count;
    ShareOf(coefficients, c => GoesWith(full, c), Agrees(Direction(full)));
    ShareOf(coefficients, c => IsSignificant(window, beta, t.alpha, c), Significant(window, beta, t.alpha));
  }

  lemma {:induction false} CountOfMapped(xs: seq<real>, f: real -> real, holds: real -> bool, also: real -> bool)
    requires forall x :: holds(f(x)) == also(x)
    ensures Count(Map(xs, f), holds) == Count(xs, also)
  {
    if xs != [] {
      assert Map(xs, f)[1..] == Map(xs[1..], f);
      CountOfMapped(xs[1..], f, holds, also);
    }
  }

  /** Half of the windows have a coefficient at least as large as the median size. */
  lemma HalfAreAsLarge(coefficients: seq<real>)
    requires coefficients != []
    ensures 2 * Count(coefficients, c => IsAsLarge(Median(Absolutes(coefficients)), c)) >= |coefficients|
  {
    var sizes, m := Absolutes(coefficients), Median(Absolutes(coefficients));
    MedianHalves(sizes);
    CountOfMapped(coefficients, Abs, x => AtLeastOf(m, x), c => IsAsLarge(m, c));
    hide Median, Count;
  }

  /** Windows are stable exactly when there are enough of them, enough of these go with the whole, and the
    * middle of their sizes in ascending order reaches the threshold. */
  lemma StableExactlyWhen(coefficients: seq<real>, full: real, window: nat, t: Thresholds, beta: Beta, sizes: seq<real>)
    requires coefficients != [] && Ascends(sizes) && multiset(sizes) == multiset(Absolutes(coefficients))
    ensures sizes != []
    ensures var r, n := Summary(coefficients, full, window, t, beta), |coefficients|;
      && r.medianAbsolute == Some(Middle(sizes))
      && (r.stable <==> && n >= t.minWindows
                        && Count(coefficients, c => GoesWith(full, c)) as real >= t.directionRatio * n as real
                        && Middle(sizes) >= t.minAbsCorrelation)
  {
    hide *;
    MedianIsTheMiddle(Absolutes(coefficients), sizes);
    SummaryFields(coefficients, full, window, t, beta);
    EnoughGoWith(coefficients, full, window, t, beta);
  }

  lemma EnoughGoWith(coefficients: seq<real>, full: real, window: nat, t: Thresholds, beta: Beta)
    requires coefficients != []
    ensures Summary(coefficients, full, window, t, beta).sameDirectionRatio >= t.directionRatio
       <==> Count(coefficients, c => GoesWith(full, c)) as real >= t.directionRatio * |coefficients| as real
  {
    hide *;
    RatiosAreCounts(coefficients, full, window, t, beta);
    ShareReaches(Summary(coefficients, full, window, t, beta).sameDirectionRatio, t.directionRatio,
                 |coefficients| as real, Count(coefficients, c => GoesWith(full, c)) as real);
  }

  lemma SummaryFields(coefficients: seq<real>, full: real, window: nat, t: Thresholds, beta: Beta)
    requires coefficients != []
    ensures var r := Summary(coefficients, full, window, t, beta);
      && r.medianAbsolute == Some(Median(Absolutes(coefficients)))
      && (r.stable <==> && |coefficients| >= t.minWindows && r.sameDirectionRatio >= t.directionRatio
                        && Median(Absolutes(coefficients)) >= t.minAbsCorrelation)
  {
    hide Median, SameDirectionRatio, SignificantRatio;
  }

  lemma Distribute(x: real, y: real, n: real)
    ensures (x + y) * n == x * n + y * n
  {
  }

  lemma SmallerShare(share: real, threshold: real, n: real, count: real, needed: real)
    requires share < threshold && n > 0.0 && count == share * n && needed == threshold * n
    ensures count < needed
  {
    var gap := threshold - share;
    PositiveProduct(gap, n, gap * n);
    Distribute(share, gap, n);
    assert threshold == share + gap;
  }

  lemma ShareReaches(share: real, threshold: real, n: real, count: real)
    requires n > 0.0 && share * n == count
    ensures share >= threshold <==> count >= threshold * n
  {
    if share >= threshold {
      ProductMonotone(threshold, share, n);
    } else {
      SmallerShare(share, threshold, n, count, threshold * n);
    }
  }

  /** Whatever is stable has enough windows, of which at least half reach the size that is asked for. */
  lemma StableWindowsAreLarge(coefficients: seq<real>, full: real, window: nat, t: Thresholds, beta: Beta)
    requires Summary(coefficients, full, window, t, beta).stable
    ensures coefficients != [] && |coefficients| >= t.minWindows
    ensures 2 * Count(coefficients, c => IsAsLarge(t.minAbsCorrelation, c)) >= |coefficients|
  {
    hide *;
    StableIsNotEmpty(coefficients, full, window, t, beta);
    SummaryFields(coefficients, full, window, t, beta);
    HalfAreAsLarge(coefficients);
    LargerIsRarer(coefficients, Median(Absolutes(coefficients)), t.minAbsCorrelation);
  }

  lemma LargerIsRarer(coefficients: seq<real>, size: real, smaller: real)
    requires smaller <= size
    ensures Count(coefficients, c => IsAsLarge(size, c)) <= Count(coefficients, c => IsAsLarge(smaller, c))
  {
    CountMonotone(coefficients, c => IsAsLarge(size, c), c => IsAsLarge(smaller, c));
  }

  lemma StableIsNotEmpty(coefficients: seq<real>, full: real, window: nat, t: Thresholds, beta: Beta)
    requires Summary(coefficients, full, window, t, beta).stable
    ensures coefficients != []
  {
    hide Median, SameDirectionRatio, SignificantRatio;
  }

  // ---- The windows ----

  /** How a window is measured: by its values, or by the ranks of its values. */
  function Measured(w: seq<(real, real)>, how: Method, sqrt: real -> real): Option<real>
    requires w != [] && SquareRoots(sqrt)
  {
    match how
    case Pearson => Coefficient(First(w), Second(w), sqrt)
    case Spearman => Coefficient(MidRanks(First(w)), MidRanks(Second(w)), sqrt)
  }

  /** What each window measures, in the order of the starts. */
  ghost predicate AreMeasured(cs: seq<Option<real>>, pairs: seq<(real, real)>, starts: seq<int>, window: int,
                              how: Method, sqrt: real -> real)
    requires 0 < window && SquareRoots(sqrt)
  {
    && |cs| == |starts|
    && forall k | 0 <= k < |starts| ::
         && 0 <= starts[k] && starts[k] + window <= |pairs|
         && cs[k] == Measured(pairs[starts[k]..starts[k] + window], how, sqrt)
  }

  /** Those that are known. */
  function KnownOf(cs: seq<Option<real>>): seq<real> {
    if cs == [] then [] else KnownOf(cs[..|cs| - 1]) + match cs[|cs| - 1] { case Some(c) => [c] case None => [] }
  }

  lemma WindowIsMeasured(pairs: seq<(real, real)>, start: int, window: int, how: Method, sqrt: real -> real)
    requires 0 <= start && 0 < window && start + window <= |pairs| && SquareRoots(sqrt)
    ensures WindowCoefficient(pairs, start, window, how, sqrt) == Measured(pairs[start..start + window], how, sqrt)
  {
    hide Coefficient, MidRanks, SquareRoots, First, Second;
  }

  lemma {:induction false} KnownWindows(cs: seq<Option<real>>, pairs: seq<(real, real)>, starts: seq<int>, window: int,
                                        how: Method, sqrt: real -> real)
    requires 0 < window && SquareRoots(sqrt) && StartsFit(starts, |pairs|, window)
    requires AreMeasured(cs, pairs, starts, window, how, sqrt)
    ensures WindowCoefficients(pairs, starts, window, how, sqrt) == KnownOf(cs)
  {
    hide WindowCoefficient, Measured, SquareRoots;
    if starts != [] {
      var n := |starts| - 1;
      KnownWindows(cs[..n], pairs, starts[..n], window, how, sqrt);
      WindowIsMeasured(pairs, starts[n], window, how, sqrt);
    }
  }

  /** Too few pairs make no window. Otherwise the windows start at zero, advance by the step and end with the
    * pairs, and what is summed up is what they measure where neither series is constant. */
  lemma RollingExactly(pairs: seq<(real, real)>, how: Method, full: real, window: nat, step: nat, t: Thresholds,
                       sqrt: real -> real, beta: Beta, cs: seq<Option<real>>)
    requires window > 0 && step > 0 && SquareRoots(sqrt)
    requires |pairs| >= window ==> AreMeasured(cs, pairs, Starts(|pairs|, window, step), window, how, sqrt)
    ensures |pairs| < window ==>
              RollingOf(pairs, how, full, window, step, t, sqrt, beta) == Rolling(0, 0.0, None, None, 0.0, false)
    ensures |pairs| >= window ==>
              && IsCoverOf(Starts(|pairs|, window, step), 0, |pairs| - window, step)
              && RollingOf(pairs, how, full, window, step, t, sqrt, beta)
                 == if KnownOf(cs) == [] then Rolling(0, 0.0, None, None, 0.0, false)
                    else Summary(KnownOf(cs), full, window, t, beta)
  {
    hide Measured, SquareRoots, WindowCoefficients, KnownOf, SameDirectionRatio, SignificantRatio, Median, StartsFrom,
         IsCoverOf, StartsFit;
    if |pairs| >= window {
      StartsCover(0, |pairs| - window, step);
      StartsOfWindowsFit(|pairs|, window, step);
      KnownWindows(cs, pairs, Starts(|pairs|, window, step), window, how, sqrt);
    }
  }

  // ---- Ranks ----

  predicate IsBelow(v: real, x: real) { x < v }

  predicate IsEqualTo(v: real, x: real) { x == v }

  /** Twice the rank of a value is twice the number of smaller ones, and one more than the number of equal ones. */
  lemma RankExactly(xs: seq<real>, v: real)
    ensures 2.0 * MidRank(xs, v)
            == (2 * Count(xs, x => IsBelow(v, x)) + Count(xs, x => IsEqualTo(v, x)) + 1) as real
  {
    hide Count, Total;
    CountIsTotal(xs, x => IsBelow(v, x), Below(v));
    CountIsTotal(xs, x => IsEqualTo(v, x), EqualTo(v));
  }
}
