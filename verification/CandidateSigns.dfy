/** Under which transforms the sign of a candidate is forgotten, and a candidate that loses its support by it. */
module CandidateSigns {
  import opened Wrappers
  import opened Totals
  import opened RealArith
  import opened References
  import opened FdrAdjustment
  import opened RankCorrelation
  import opened RollingStability
  import opened SignReversal
  import opened Transforms
  import opened Association
  import opened AssociationFamily

  // ---- A series against itself or its opposite ----

  lemma RootOfSquare(v: real, root: real)
    requires v > 0.0 && root > 0.0 && root * root == v * v
    ensures root == v
  {
    SquareMonotone(root, v);
    SquareMonotone(v, root);
  }

  lemma NormalisedOfItself(v: real, sqrt: real -> real)
    requires v > 0.0 && SquareRoots(sqrt)
    ensures Normalised(v, v, v, sqrt) == 1.0
  {
    RootPositive(v, v, sqrt);
    var root := sqrt(v * v);
    RootOfSquare(v, root);
    QuotientOfItself(v);
  }

  lemma CoefficientOfItself(xs: seq<real>, sqrt: real -> real)
    requires xs != [] && SquareRoots(sqrt) && !Constant(xs)
    ensures Coefficient(xs, xs, sqrt) == Some(1.0)
  {
    NoneWhenConstant(xs, xs, sqrt);
    var v := Dot(Deviations(xs), Deviations(xs));
    hide Dot, Deviations, Constant, Normalised, SquareRoots;
    assert v > 0.0;
    NormalisedOfItself(v, sqrt);
  }

  lemma PreparedVaries(xs: seq<real>, how: Method)
    requires !Constant(xs)
    ensures !Constant(Prepared(xs, how))
  {
    hide MidRanks, Constant;
    if how == Spearman { RanksConstant(xs); }
  }

  /** Pairs of a series that varies with itself, or with its opposite. */
  lemma PerfectPairs(pairs: seq<(real, real)>, how: Method, sqrt: real -> real)
    requires pairs != [] && SquareRoots(sqrt) && !Constant(First(pairs))
    requires Second(pairs) == First(pairs) || Second(pairs) == Negatives(First(pairs))
    ensures FullCoefficient(pairs, how, sqrt) == Some(1.0) || FullCoefficient(pairs, how, sqrt) == Some(-1.0)
  {
    var xs := First(pairs);
    PreparedVaries(xs, how);
    CoefficientOfItself(Prepared(xs, how), sqrt);
    NegatedCandidate(xs, xs, how, sqrt);
    hide Coefficient, Prepared, Constant, SquareRoots, Negatives, First, Second;
  }

  predicate IsPerfect(e: Estimate) {
    e.pValue == Some(0.0) && e.coefficient.Some? && Abs(e.coefficient.value) == 1.0
  }

  lemma PerfectEstimate(pairs: seq<(real, real)>, how: Method, c: Configuration, sqrt: real -> real, beta: Beta)
    requires IsValid(c) && SquareRoots(sqrt) && |pairs| >= c.minSamples && !Constant(First(pairs))
    requires Second(pairs) == First(pairs) || Second(pairs) == Negatives(First(pairs))
    ensures IsPerfect(EstimateOf(pairs, how, c, sqrt, beta))
  {
    PerfectPairs(pairs, how, sqrt);
    hide FullCoefficient, RollingOf, SquareRoots, Constant, Negatives, First, Second;
  }

  // ---- A candidate that alternates ----

  /** One, two, one, two and so on. */
  function Alternating(n: nat): (s: Series)
    ensures |s| == n && forall i | 0 <= i < n :: s[i] == Some(if i % 2 == 0 then 1.0 else 2.0)
  {
    seq(n, i => Some(if i % 2 == 0 then 1.0 else 2.0))
  }

  function Swing(t: int, log: Logarithm): real {
    if t % 2 == 0 then log(1.0) - log(2.0) else log(2.0) - log(1.0)
  }

  lemma SwingsOf(n: nat, log: Logarithm)
    requires n > 0
    ensures var s := Transformed(Alternating(n), LogDifference, log);
      |s| == n && s[0] == None && forall t | 0 < t < n :: s[t] == Some(Swing(t, log))
  {
    var s := Transformed(Alternating(n), LogDifference, log);
    TransformedAt(Alternating(n), LogDifference, log);
    hide Transformed;
    forall t | 0 < t < n ensures s[t] == Some(Swing(t, log)) {
      assert s[t] == Change(Alternating(n)[t - 1], Alternating(n)[t], LogDifference, log);
    }
  }

  /** The times at which both sides have a swing. */
  predicate Swings(n: nat, lag: int, t: int) { 0 < t < n && 0 < t - lag < n }

  lemma SwingTimes(n: nat, lag: int, log: Logarithm)
    requires n > 0
    ensures var s := Transformed(Alternating(n), LogDifference, log);
      forall t :: t in PairTimes(s, s, lag) <==> Swings(n, lag, t)
  {
    var s := Transformed(Alternating(n), LogDifference, log);
    SwingsOf(n, log);
    PairTimesFacts(s, s, lag);
    hide Transformed, Swing, PairTimes;
    forall t ensures HasPair(s, s, lag, t) <==> Swings(n, lag, t) { }
  }

  lemma SwingPairAt(n: nat, lag: int, log: Logarithm, t: int)
    requires n > 0 && Swings(n, lag, t)
    ensures var s := Transformed(Alternating(n), LogDifference, log);
      PairAt(s, s, lag, t) == (Swing(t, log), Swing(t - lag, log))
  {
    SwingsOf(n, log);
    hide Transformed, Swing;
  }

  lemma SwingAgain(t: int, lag: int, log: Logarithm)
    ensures Swing(t - lag, log) == if lag % 2 == 0 then Swing(t, log) else -Swing(t, log)
  {
  }

  /** With a lag the swings meet themselves, or their opposites. */
  lemma SwingsMeet(n: nat, lag: int, log: Logarithm)
    requires n > 0
    ensures var s := Transformed(Alternating(n), LogDifference, log); var pairs := Pairs(s, s, lag);
      Second(pairs) == First(pairs) || Second(pairs) == Negatives(First(pairs))
  {
    var s := Transformed(Alternating(n), LogDifference, log);
    SwingTimes(n, lag, log);
    var times, pairs := PairTimes(s, s, lag), Pairs(s, s, lag);
    hide Transformed, Swing, PairTimes;
    forall k | 0 <= k < |pairs| ensures pairs[k].1 == if lag % 2 == 0 then pairs[k].0 else -pairs[k].0 {
      assert times[k] in times;
      SwingPairAt(n, lag, log, times[k]);
      SwingAgain(times[k], lag, log);
    }
    assert lag % 2 == 0 ==> Second(pairs) == First(pairs);
    assert lag % 2 != 0 ==> Second(pairs) == Negatives(First(pairs));
  }

  function Size(lag: int): nat { if lag < 0 then -lag else lag }

  /** The first time with a swing on both sides. */
  function FirstSwing(lag: int): int { if lag > 0 then 1 + lag else 1 }

  lemma SwingsFrom(n: nat, lag: int, t: int)
    requires n > Size(lag) + 1 && FirstSwing(lag) <= t < FirstSwing(lag) + (n - Size(lag) - 1)
    ensures Swings(n, lag, t)
  {
  }

  lemma {:induction false} Interval(low: int, k: nat) returns (xs: set<int>)
    ensures |xs| == k && forall t :: t in xs <==> low <= t < low + k
  {
    if k == 0 {
      xs := {};
    } else {
      xs := Interval(low, k - 1);
      xs := xs + {low + k - 1};
    }
  }

  lemma EnoughTimes(times: seq<int>, low: int, k: nat)
    requires forall t | low <= t < low + k :: t in times
    ensures |times| >= k
  {
    var xs := Interval(low, k);
    forall t | t in xs ensures t in SetOf(times) { assert low <= t < low + k; }
    assert SetOf(times) == xs + (SetOf(times) - xs);
    SizeTellsDistinct(times);
  }

  lemma EnoughSwings(n: nat, lag: int, log: Logarithm)
    requires n > Size(lag) + 1
    ensures var s := Transformed(Alternating(n), LogDifference, log);
      |Pairs(s, s, lag)| >= n - Size(lag) - 1
  {
    var s := Transformed(Alternating(n), LogDifference, log);
    SwingTimes(n, lag, log);
    var times, low, k := PairTimes(s, s, lag), FirstSwing(lag), n - Size(lag) - 1;
    hide Transformed, PairTimes, PairAt, Alternating;
    forall t | low <= t < low + k ensures t in times { SwingsFrom(n, lag, t); }
    EnoughTimes(times, low, k);
  }

  /** A pair holds the swing of its time. */
  lemma SwingIsPaired(n: nat, lag: int, log: Logarithm, t: int) returns (i: nat)
    requires n > 0 && Swings(n, lag, t)
    ensures var s := Transformed(Alternating(n), LogDifference, log); var xs := First(Pairs(s, s, lag));
      i < |xs| && xs[i] == Swing(t, log)
  {
    var s := Transformed(Alternating(n), LogDifference, log);
    SwingTimes(n, lag, log);
    SwingPairAt(n, lag, log, t);
    var times := PairTimes(s, s, lag);
    hide Transformed, PairTimes, PairAt, Alternating, Swing;
    assert t in times;
    i :| 0 <= i < |times| && times[i] == t;
    assert Pairs(s, s, lag)[i] == PairAt(s, s, lag, t);
  }

  lemma NeighboursSwing(t: int, log: Logarithm)
    requires log(1.0) != log(2.0)
    ensures Swing(t, log) != Swing(t + 1, log)
  {
  }

  lemma DifferentMembers(xs: seq<real>, i: nat, j: nat)
    requires i < |xs| && j < |xs| && xs[i] != xs[j]
    ensures !Constant(xs)
  {
  }

  lemma SwingsVary(n: nat, lag: int, log: Logarithm)
    requires n >= Size(lag) + 4 && log(1.0) != log(2.0)
    ensures var s := Transformed(Alternating(n), LogDifference, log); var pairs := Pairs(s, s, lag);
      |pairs| >= n - Size(lag) - 1 && !Constant(First(pairs))
  {
    var s, low := Transformed(Alternating(n), LogDifference, log), FirstSwing(lag);
    EnoughSwings(n, lag, log);
    SwingsFrom(n, lag, low);
    SwingsFrom(n, lag, low + 1);
    hide Transformed, Pairs, Alternating, Swing, First, Constant, Swings;
    var i := SwingIsPaired(n, lag, log, low);
    var j := SwingIsPaired(n, lag, log, low + 1);
    NeighboursSwing(low, log);
    DifferentMembers(First(Pairs(s, s, lag)), i, j);
  }

  // ---- The place of a hypothesis ----

  lemma {:induction false} PlaceOf<S, T>(xs: seq<S>, k: nat, f: S -> seq<T>, g: S -> seq<T>) returns (at: nat)
    requires k < |xs| && f(xs[k]) != [] && g(xs[k]) != []
    requires forall i | 0 <= i < |xs| :: |f(xs[i])| == |g(xs[i])|
    ensures |Collect(xs, f)| == |Collect(xs, g)|
    ensures at < |Collect(xs, f)| && Collect(xs, f)[at] == f(xs[k])[0] && Collect(xs, g)[at] == g(xs[k])[0]
  {
    var n := |xs| - 1;
    SameLength(xs[..n], f, g);
    if k == n {
      at := |Collect(xs[..n], f)|;
    } else {
      at := PlaceOf(xs[..n], k, f, g);
    }
  }

  lemma {:induction false} SameLength<S, T>(xs: seq<S>, f: S -> seq<T>, g: S -> seq<T>)
    requires forall i | 0 <= i < |xs| :: |f(xs[i])| == |g(xs[i])|
    ensures |Collect(xs, f)| == |Collect(xs, g)|
  {
    if xs != [] { SameLength(xs[..|xs| - 1], f, g); }
  }

  /** The first hypothesis under a transform is that of the first lag and the first method. */
  lemma FirstUnder(target: Series, candidate: Series, plan: Plan, how: Transform, log: Logarithm)
    requires plan.lags != [] && plan.methods != []
    ensures var s, hs := SidesOf(target, candidate, how, log), OfTransform(target, candidate, plan, log)(how);
      hs != [] && hs[0] == Hypothesis(Pairs(s.target, s.candidate, plan.lags[0]), plan.methods[0])
  {
    hide SidesOf, Pairs;
    var s := SidesOf(target, candidate, how, log);
    FirstOfCollected(plan.lags, OfLag(s, plan));
  }

  lemma AsManyUnder(target: Series, c: Series, d: Series, plan: Plan, how: Transform, log: Logarithm)
    ensures |OfTransform(target, c, plan, log)(how)| == |OfTransform(target, d, plan, log)(how)|
  {
    hide SidesOf, Pairs;
    SameLength(plan.lags, OfLag(SidesOf(target, c, how, log), plan), OfLag(SidesOf(target, d, how, log), plan));
  }

  lemma FamilyOfOne(target: Series, candidate: Series, plan: Plan, log: Logarithm)
    ensures Family(target, [candidate], plan, log)
            == Collect(plan.transforms, OfTransform(target, candidate, plan, log))
  {
    hide OfTransform;
    CollectOne(candidate, OfCandidate(target, plan, log));
  }

  /** The first hypothesis of this candidate that takes plain logarithms. */
  function LogarithmOf(target: Series, candidate: Series, plan: Plan, log: Logarithm): Hypothesis
    requires plan.lags != [] && plan.methods != []
  {
    var s := SidesOf(target, candidate, LogDifference, log);
    Hypothesis(Pairs(s.target, s.candidate, plan.lags[0]), plan.methods[0])
  }

  lemma LogarithmIsFirst(target: Series, candidate: Series, plan: Plan, log: Logarithm)
    requires plan.lags != [] && plan.methods != []
    ensures var hs := OfTransform(target, candidate, plan, log)(LogDifference);
      hs != [] && hs[0] == LogarithmOf(target, candidate, plan, log)
  {
    FirstUnder(target, candidate, plan, LogDifference, log);
  }

  /** It has one place, whoever the candidate is. */
  lemma PlaceOfLogarithm(target: Series, c: Series, d: Series, plan: Plan, log: Logarithm) returns (at: nat)
    requires plan.lags != [] && plan.methods != [] && LogDifference in plan.transforms
    ensures var hs, ks := Family(target, [c], plan, log), Family(target, [d], plan, log);
      && |hs| == |ks| && at < |hs|
      && hs[at] == LogarithmOf(target, c, plan, log) && ks[at] == LogarithmOf(target, d, plan, log)
  {
    hide LogarithmOf, OfTransform, Family;
    var k :| 0 <= k < |plan.transforms| && plan.transforms[k] == LogDifference;
    LogarithmIsFirst(target, c, plan, log);
    LogarithmIsFirst(target, d, plan, log);
    FamilyOfOne(target, c, plan, log);
    FamilyOfOne(target, d, plan, log);
    at := PlaceUnder(plan.transforms, k, target, c, d, plan, log);
  }

  lemma PlaceUnder(transforms: seq<Transform>, k: nat, target: Series, c: Series, d: Series, plan: Plan,
                   log: Logarithm) returns (at: nat)
    requires k < |transforms|
    requires OfTransform(target, c, plan, log)(transforms[k]) != []
    requires OfTransform(target, d, plan, log)(transforms[k]) != []
    ensures var f, g := OfTransform(target, c, plan, log), OfTransform(target, d, plan, log);
      && |Collect(transforms, f)| == |Collect(transforms, g)| && at < |Collect(transforms, f)|
      && Collect(transforms, f)[at] == f(transforms[k])[0] && Collect(transforms, g)[at] == g(transforms[k])[0]
  {
    hide OfTransform, Collect;
    var f, g := OfTransform(target, c, plan, log), OfTransform(target, d, plan, log);
    forall i | 0 <= i < |transforms| ensures |f(transforms[i])| == |g(transforms[i])| {
      AsManyUnder(target, c, d, plan, transforms[i], log);
    }
    at := PlaceOf(transforms, k, f, g);
  }

  // ---- The support that is lost ----

  lemma NoPairsNoEstimate(how: Method, c: Configuration, sqrt: real -> real, beta: Beta)
    requires IsValid(c) && SquareRoots(sqrt)
    ensures EstimateOf([], how, c, sqrt, beta).pValue == None
  {
  }

  lemma PerfectIsSupported(hs: seq<Hypothesis>, c: Configuration, sqrt: real -> real, beta: Beta, fdr: FdrMethod,
                           js: seq<Judged>, at: nat)
    requires IsValid(c) && SquareRoots(sqrt) && at < |hs|
    requires JudgedBy(js, Estimates(hs, c, sqrt, beta), fdr, c.thresholds)
    requires IsPerfect(EstimateOf(hs[at].pairs, hs[at].how, c, sqrt, beta))
    ensures at < |js| && js[at].supported
  {
    var es, t := Estimates(hs, c, sqrt, beta), c.thresholds;
    AllMeasured(hs, c, sqrt, beta);
    PValuesAreProbabilities(es);
    hide EstimateOf, SquareRoots, Adjusted, JudgedUpTo, PValues, Tested, IsMeasured, Estimates;
    var q :| Adjusted(PValues(es), fdr, q) && JudgedUpTo(js, es, q, t, |q|);
    JudgedCounts(js, es, q, t, |q|);
    var k := JudgedAt(js, es, q, t, at);
    AdjustedCount(PValues(es), fdr, q);
    ZeroStaysZero(PValues(es), fdr, q, k);
  }

  lemma AllMeasured(hs: seq<Hypothesis>, c: Configuration, sqrt: real -> real, beta: Beta)
    requires IsValid(c) && SquareRoots(sqrt)
    ensures forall i | 0 <= i < |hs| :: IsMeasured(Estimates(hs, c, sqrt, beta)[i])
  {
    hide EstimateOf, SquareRoots, Estimates, IsMeasured, IsValid;
    forall i | 0 <= i < |hs| ensures IsMeasured(Estimates(hs, c, sqrt, beta)[i]) {
      EstimatesAreMeasured(hs[i].pairs, hs[i].how, c, sqrt, beta);
    }
  }

  lemma {:induction false} WithoutPairsUnsupported(
    hs: seq<Hypothesis>, c: Configuration, sqrt: real -> real, beta: Beta, fdr: FdrMethod, js: seq<Judged>, at: nat)
    requires IsValid(c) && SquareRoots(sqrt) && at < |hs| && hs[at].pairs == []
    requires JudgedBy(js, Estimates(hs, c, sqrt, beta), fdr, c.thresholds)
    ensures at < |js| && !js[at].supported
  {
    var es, t := Estimates(hs, c, sqrt, beta), c.thresholds;
    NoPairsNoEstimate(hs[at].how, c, sqrt, beta);
    hide EstimateOf, SquareRoots, Adjusted, JudgedUpTo, PValues, Tested, Estimates;
    var q :| Adjusted(PValues(es), fdr, q) && JudgedUpTo(js, es, q, t, |q|);
    JudgedCounts(js, es, q, t, |q|);
    var k := JudgedAt(js, es, q, t, at);
  }

  /** As long as the configuration and the first lag ask for. */
  function LongEnough(plan: Plan, c: Configuration): Series
    requires plan.lags != []
  {
    Alternating(Size(plan.lags[0]) + c.minSamples + 1)
  }

  lemma SwingsAreSupported(n: nat, lag: int, how: Method, c: Configuration, sqrt: real -> real, beta: Beta,
                           log: Logarithm)
    requires IsValid(c) && SquareRoots(sqrt) && n >= Size(lag) + c.minSamples + 1 && log(1.0) != log(2.0)
    ensures var s := Transformed(Alternating(n), LogDifference, log);
      IsPerfect(EstimateOf(Pairs(s, s, lag), how, c, sqrt, beta))
  {
    SwingsVary(n, lag, log);
    SwingsMeet(n, lag, log);
    hide Transformed, EstimateOf, SquareRoots, Constant, Pairs, IsPerfect, First, Second, Negatives;
    var s := Transformed(Alternating(n), LogDifference, log);
    PerfectEstimate(Pairs(s, s, lag), how, c, sqrt, beta);
  }

  lemma AlternatingIsSupported(plan: Plan, c: Configuration, sqrt: real -> real, beta: Beta, log: Logarithm)
    requires IsValid(c) && SquareRoots(sqrt) && plan.lags != [] && plan.methods != [] && log(1.0) != log(2.0)
    ensures var h := LogarithmOf(LongEnough(plan, c), LongEnough(plan, c), plan, log);
      IsPerfect(EstimateOf(h.pairs, h.how, c, sqrt, beta))
  {
    hide Transformed, EstimateOf, SquareRoots, IsPerfect, Pairs, Size, Alternating;
    SwingsAreSupported(Size(plan.lags[0]) + c.minSamples + 1, plan.lags[0], plan.methods[0], c, sqrt, beta, log);
  }

  lemma NegatedAlternatingHasNoPairs(target: Series, plan: Plan, c: Configuration, log: Logarithm)
    requires plan.lags != [] && plan.methods != []
    ensures LogarithmOf(target, NegatedSeries(LongEnough(plan, c)), plan, log).pairs == []
  {
    var s := LongEnough(plan, c);
    NegatedGrowthIsGone(s, log);
    hide Transformed, Pairs, LongEnough;
    var negated := Transformed(NegatedSeries(s), LogDifference, log);
    NothingIsPaired(Transformed(target, LogDifference, log), negated, plan.lags[0]);
  }

  /** Where a plain logarithm is taken, an alternating target supports an equal candidate, and never the
    * negated one. */
  lemma LogarithmLosesSupport(plan: Plan, c: Configuration, sqrt: real -> real, beta: Beta, fdr: FdrMethod,
                              log: Logarithm, before: seq<Judged>, after: seq<Judged>) returns (at: nat)
    requires IsValid(c) && SquareRoots(sqrt) && plan.lags != [] && plan.methods != [] && log(1.0) != log(2.0)
    requires LogDifference in plan.transforms
    requires JudgedBy(before, Estimates(Family(LongEnough(plan, c), [LongEnough(plan, c)], plan, log), c, sqrt, beta),
                      fdr, c.thresholds)
    requires JudgedBy(after, Estimates(Family(LongEnough(plan, c), [NegatedSeries(LongEnough(plan, c))], plan, log),
                                       c, sqrt, beta), fdr, c.thresholds)
    ensures at < |before| && at < |after| && before[at].supported && !after[at].supported
  {
    hide *;
    var s := LongEnough(plan, c);
    var d := NegatedSeries(s);
    AlternatingIsSupported(plan, c, sqrt, beta, log);
    NegatedAlternatingHasNoPairs(s, plan, c, log);
    at := PlaceOfLogarithm(s, s, d, plan, log);
    PerfectIsSupported(Family(s, [s], plan, log), c, sqrt, beta, fdr, before, at);
    WithoutPairsUnsupported(Family(s, [d], plan, log), c, sqrt, beta, fdr, after, at);
  }

  // ---- The exact condition ----

  /** Judgements of the two families support the same. */
  ghost predicate JudgedAlike(hs: seq<Hypothesis>, ks: seq<Hypothesis>, c: Configuration, sqrt: real -> real,
                              beta: Beta, fdr: FdrMethod)
    requires IsValid(c) && SquareRoots(sqrt)
  {
    forall before: seq<Judged>, after: seq<Judged>
      | && JudgedBy(before, Estimates(hs, c, sqrt, beta), fdr, c.thresholds)
        && JudgedBy(after, Estimates(ks, c, sqrt, beta), fdr, c.thresholds) ::
      SameSupport(before, after)
  }

  /** For every target and all candidates, whichever are negated. */
  ghost predicate SignsAreForgotten(plan: Plan, c: Configuration, sqrt: real -> real, beta: Beta, fdr: FdrMethod,
                                    log: Logarithm)
    requires IsValid(c) && SquareRoots(sqrt)
  {
    forall target: Series, cs: seq<Series>, ds: seq<Series> | SomeNegated(cs, ds) ::
      JudgedAlike(Family(target, cs, plan, log), Family(target, ds, plan, log), c, sqrt, beta, fdr)
  }

  lemma OneIsNegated(s: Series)
    ensures SomeNegated([s], [NegatedSeries(s)])
  {
  }

  lemma WithoutLogarithmsFitly(cs: seq<Series>, ds: seq<Series>, plan: Plan)
    requires SomeNegated(cs, ds) && LogDifference !in plan.transforms
    ensures FitlyNegated(cs, ds, plan)
  {
  }

  lemma LostSupportShows(before: seq<Judged>, after: seq<Judged>, at: nat)
    requires at < |before| && at < |after| && before[at].supported && !after[at].supported
    ensures !SameSupport(before, after)
  {
  }

  lemma LogarithmJudgesDifferently(plan: Plan, c: Configuration, sqrt: real -> real, beta: Beta, fdr: FdrMethod,
                                   log: Logarithm)
    requires IsValid(c) && SquareRoots(sqrt) && plan.lags != [] && plan.methods != [] && log(1.0) != log(2.0)
    requires LogDifference in plan.transforms
    ensures var s := LongEnough(plan, c);
      !JudgedAlike(Family(s, [s], plan, log), Family(s, [NegatedSeries(s)], plan, log), c, sqrt, beta, fdr)
  {
    hide LongEnough, NegatedSeries, SquareRoots, Family, JudgedBy, Estimates, IsValid, SameSupport;
    var s := LongEnough(plan, c);
    var hs, ks := Family(s, [s], plan, log), Family(s, [NegatedSeries(s)], plan, log);
    var before := JudgementExists(Estimates(hs, c, sqrt, beta), fdr, c.thresholds);
    var after := JudgementExists(Estimates(ks, c, sqrt, beta), fdr, c.thresholds);
    var at := LogarithmLosesSupport(plan, c, sqrt, beta, fdr, log, before, after);
    LostSupportShows(before, after, at);
  }

  lemma FitlyNegatedIsJudgedAlike(target: Series, cs: seq<Series>, ds: seq<Series>, plan: Plan, log: Logarithm,
                                  c: Configuration, sqrt: real -> real, beta: Beta, fdr: FdrMethod)
    requires IsValid(c) && SquareRoots(sqrt) && FitlyNegated(cs, ds, plan)
    ensures JudgedAlike(Family(target, cs, plan, log), Family(target, ds, plan, log), c, sqrt, beta, fdr)
  {
    hide SquareRoots, Family, JudgedBy, Estimates, IsValid, SameSupport, FitlyNegated;
    forall before: seq<Judged>, after: seq<Judged>
      | && JudgedBy(before, Estimates(Family(target, cs, plan, log), c, sqrt, beta), fdr, c.thresholds)
        && JudgedBy(after, Estimates(Family(target, ds, plan, log), c, sqrt, beta), fdr, c.thresholds)
      ensures SameSupport(before, after)
    {
      CandidatesForgetSign(target, cs, ds, plan, log, c, sqrt, beta, fdr, before, after);
    }
  }

  /** Under any valid configuration the sign of a candidate never matters for support, and not for the
    * stability of what is supported, exactly when the plan takes no plain logarithms. */
  lemma SignsAreForgottenExactly(plan: Plan, c: Configuration, sqrt: real -> real, beta: Beta, fdr: FdrMethod,
                                 log: Logarithm)
    requires IsValid(c) && SquareRoots(sqrt) && plan.lags != [] && plan.methods != [] && log(1.0) != log(2.0)
    ensures SignsAreForgotten(plan, c, sqrt, beta, fdr, log) <==> LogDifference !in plan.transforms
  {
    hide SquareRoots, Family, JudgedAlike, IsValid, SomeNegated, NegatedSeries, LongEnough;
    if LogDifference in plan.transforms {
      var s := LongEnough(plan, c);
      OneIsNegated(s);
      LogarithmJudgesDifferently(plan, c, sqrt, beta, fdr, log);
    } else {
      forall target: Series, cs: seq<Series>, ds: seq<Series> | SomeNegated(cs, ds)
        ensures JudgedAlike(Family(target, cs, plan, log), Family(target, ds, plan, log), c, sqrt, beta, fdr)
      {
        WithoutLogarithmsFitly(cs, ds, plan);
        FitlyNegatedIsJudgedAlike(target, cs, ds, plan, log, c, sqrt, beta, fdr);
      }
    }
  }
}
