/** One hypothesis of the association capability, and the judgement of a family of them
  * (`_estimate`, and the flags set in `cross_source_association`). */
module Association {
  import opened Wrappers
  import opened Totals
  import opened Sorting
  import opened FdrAdjustment
  import opened RankCorrelation
  import opened RollingStability
  import opened SignReversal

  datatype Configuration = Configuration(minSamples: nat, window: nat, step: nat, thresholds: Thresholds)

  /** What `_validate_configuration` lets through. */
  predicate IsValid(c: Configuration) {
    && c.minSamples >= 3 && c.window >= 3 && c.step >= 1 && c.thresholds.minWindows >= 1
    && 0.0 <= c.thresholds.directionRatio <= 1.0 && 0.0 <= c.thresholds.minAbsCorrelation <= 1.0
    && 0.0 < c.thresholds.alpha < 1.0
  }

  datatype Status = InsufficientSamples | ConstantSeries | Sound

  datatype Estimate = Estimate(sampleSize: nat, coefficient: Option<real>, pValue: Option<real>, rawSignificant: bool,
                               status: Status, rolling: Rolling)

  function EstimateOf(pairs: seq<(real, real)>, how: Method, c: Configuration, sqrt: real -> real, beta: Beta): Estimate
    requires IsValid(c) && SquareRoots(sqrt)
  {
    if |pairs| < c.minSamples then Estimate(|pairs|, None, None, false, InsufficientSamples, EmptyRolling)
    else
      var full := FullCoefficient(pairs, how, sqrt);
      if full.None? then Estimate(|pairs|, None, None, false, ConstantSeries, EmptyRolling)
      else
        var p := PValue(full.value, |pairs|, beta);
        Estimate(|pairs|, full, Some(p), p <= c.thresholds.alpha, Sound,
                 RollingOf(pairs, how, full.value, c.window, c.step, c.thresholds, sqrt, beta))
  }

  /** The coefficient lies in [-1, 1], and there is one exactly for enough pairs of two series that vary. */
  method MakeEstimate(pairs: seq<(real, real)>, how: Method, c: Configuration, sqrt: real -> real, beta: Beta)
    returns (e: Estimate)
    requires IsValid(c) && SquareRoots(sqrt)
    ensures e == EstimateOf(pairs, how, c, sqrt, beta)
    ensures e.coefficient.Some? <==> |pairs| >= c.minSamples && !Constant(First(pairs)) && !Constant(Second(pairs))
    ensures e.coefficient.Some? ==> -1.0 <= e.coefficient.value <= 1.0
  {
    hide PValue, Coefficient, RollingOf, SquareRoots, Constant;
    e := Estimate(|pairs|, None, None, false, InsufficientSamples, EmptyRolling);
    if |pairs| < c.minSamples {
      return;
    }
    var coefficient := Correlation(pairs, how, sqrt);
    if coefficient == None {
      e := e.(status := ConstantSeries);
      return;
    }
    var pValue := PValue(coefficient.value, |pairs|, beta);
    var rolling := RollingCorrelation(pairs, how, coefficient.value, c.window, c.step, c.thresholds, sqrt, beta);
    e := e.(coefficient := coefficient, pValue := Some(pValue), rawSignificant := pValue <= c.thresholds.alpha,
            status := Sound, rolling := rolling);
  }

  // ---- Judging a family ----

  datatype Judged = Judged(estimate: Estimate, qValue: Option<real>, fdrSignificant: bool, supported: bool)

  function Unjudged(e: Estimate): Judged { Judged(e, None, false, false) }

  function WithQ(e: Estimate, q: real, t: Thresholds): Judged {
    Judged(e, Some(q), q <= t.alpha,
           q <= t.alpha && e.coefficient.Some? && Abs(e.coefficient.value) >= t.minAbsCorrelation)
  }

  predicate HasP(es: seq<Estimate>, i: int) { 0 <= i < |es| && es[i].pValue.Some? }

  function Tested(es: seq<Estimate>): seq<int> { Filter(Indices(|es|), (i: int) => HasP(es, i)) }

  function PAt(es: seq<Estimate>): int -> real { i => if HasP(es, i) then es[i].pValue.value else 1.0 }

  /** The p-values of the hypotheses that have one, in their order. */
  function PValues(es: seq<Estimate>): seq<real> { Map(Tested(es), PAt(es)) }

  /** The first `upTo` tested hypotheses are judged by their adjusted values, nothing else is. */
  ghost predicate JudgedUpTo(js: seq<Judged>, es: seq<Estimate>, q: seq<real>, t: Thresholds, upTo: nat) {
    && |js| == |es| && |q| == |Tested(es)| && upTo <= |q|
    && (forall k | 0 <= k < upTo :: HasP(es, Tested(es)[k]) && js[Tested(es)[k]] == WithQ(es[Tested(es)[k]], q[k], t))
    && (forall i | 0 <= i < |es| && !(exists k :: 0 <= k < upTo && Tested(es)[k] == i) :: js[i] == Unjudged(es[i]))
  }

  /** Every tested hypothesis is judged by its adjusted value. */
  ghost predicate JudgedBy(js: seq<Judged>, es: seq<Estimate>, fdr: FdrMethod, t: Thresholds) {
    exists q :: Adjusted(PValues(es), fdr, q) && JudgedUpTo(js, es, q, t, |q|)
  }

  lemma TestedFacts(es: seq<Estimate>)
    ensures StrictlySortedBy(Tested(es), Before)
    ensures forall i :: i in Tested(es) <==> HasP(es, i)
  {
    FilterAscends(Indices(|es|), (i: int) => HasP(es, i));
    forall i | HasP(es, i) ensures i in Indices(|es|) { assert Indices(|es|)[i] == i; }
  }

  lemma JudgeNext(js: seq<Judged>, es: seq<Estimate>, q: seq<real>, t: Thresholds, k: nat)
    requires JudgedUpTo(js, es, q, t, k) && k < |q|
    ensures HasP(es, Tested(es)[k])
    ensures JudgedUpTo(js[Tested(es)[k] := WithQ(es[Tested(es)[k]], q[k], t)], es, q, t, k + 1)
  {
    TestedFacts(es);
    var tested := Tested(es);
    hide Tested, WithQ;
    var i := tested[k];
    assert i in tested;
    var next := js[i := WithQ(es[i], q[k], t)];
    forall l | 0 <= l < k
      ensures next[tested[l]] == WithQ(es[tested[l]], q[l], t)
    {
      assert Before(tested[l], tested[k]);
    }
    forall m | 0 <= m < |es| && !(exists l :: 0 <= l < k + 1 && tested[l] == m) ensures next[m] == Unjudged(es[m]) {
      assert m != i;
    }
  }

  /** Only hypotheses with a p-value are adjusted; one is supported when its adjusted value is significant
    * and its coefficient is large enough. */
  method Judge(estimates: seq<Estimate>, fdr: FdrMethod, t: Thresholds) returns (r: Result<seq<Judged>, FdrError>)
    ensures r.Err? <==> fdr == UnsupportedMethod
    ensures r.Ok? ==> JudgedBy(r.value, estimates, fdr, t)
  {
    hide Tested, Adjusted, JudgedUpTo, WithQ;
    TestedFacts(estimates);
    var validIndexes := Tested(estimates);
    var adjusted := AdjustPValues(PValues(estimates), fdr);
    if adjusted.Err? {
      return Err(adjusted.error);
    }
    var q := adjusted.value;
    AdjustedCount(PValues(estimates), fdr, q);
    var judged := Map(estimates, Unjudged);
    NoneJudged(estimates, q, t);
    for k := 0 to |q|
      invariant JudgedUpTo(judged, estimates, q, t, k)
    {
      JudgeNext(judged, estimates, q, t, k);
      JudgedCounts(judged, estimates, q, t, k);
      var index := validIndexes[k];
      judged := judged[index := WithQ(estimates[index], q[k], t)];
    }
    r := Ok(judged);
  }

  /** Every family can be judged. */
  lemma JudgementExists(es: seq<Estimate>, fdr: FdrMethod, t: Thresholds) returns (js: seq<Judged>)
    ensures JudgedBy(js, es, fdr, t)
  {
    hide Tested, Adjusted, JudgedUpTo, WithQ;
    var q := AdjustmentExists(PValues(es), fdr);
    AdjustedCount(PValues(es), fdr, q);
    js := Map(es, Unjudged);
    NoneJudged(es, q, t);
    for k := 0 to |q|
      invariant JudgedUpTo(js, es, q, t, k)
    {
      JudgeNext(js, es, q, t, k);
      JudgedCounts(js, es, q, t, k);
      js := js[Tested(es)[k] := WithQ(es[Tested(es)[k]], q[k], t)];
    }
  }

  lemma AdjustedCount(p: seq<real>, fdr: FdrMethod, q: seq<real>)
    requires Adjusted(p, fdr, q)
    ensures |q| == |p|
  {
  }

  lemma NoneJudged(es: seq<Estimate>, q: seq<real>, t: Thresholds)
    requires |q| == |Tested(es)|
    ensures JudgedUpTo(Map(es, Unjudged), es, q, t, 0)
  {
  }

  lemma JudgedCounts(js: seq<Judged>, es: seq<Estimate>, q: seq<real>, t: Thresholds, upTo: nat)
    requires JudgedUpTo(js, es, q, t, upTo)
    ensures |js| == |es|
  {
  }

  // ---- The sign of a candidate ----

  /** The same hypothesis, or the one with its candidate negated. */
  ghost predicate Mirrored(e: Estimate, f: Estimate) {
    || f == e
    || (&& f.sampleSize == e.sampleSize && f.status == e.status && f.pValue == e.pValue
        && f.rawSignificant == e.rawSignificant
        && f.coefficient == Opposite(e.coefficient)
        && TurnedRolling(e.rolling, f.rolling, if e.coefficient.Some? then e.coefficient.value else 0.0))
  }

  lemma TurnedEstimate(pairs: seq<(real, real)>, how: Method, c: Configuration, sqrt: real -> real, beta: Beta)
    requires IsValid(c) && SquareRoots(sqrt)
    ensures Mirrored(EstimateOf(pairs, how, c, sqrt, beta), EstimateOf(Map(pairs, Turn), how, c, sqrt, beta))
  {
    hide PValue, FullCoefficient, RollingOf, SquareRoots, Turn, TurnedRolling;
    if |pairs| >= c.minSamples {
      TurnedCoefficient(pairs, how, sqrt);
      var full := FullCoefficient(pairs, how, sqrt);
      if full.Some? {
        PValueIsEven(full.value, |pairs|, beta);
        TurnedPairsTurnRolling(pairs, how, full.value, c.window, c.step, c.thresholds, sqrt, beta);
      }
    }
  }

  /** A coefficient of zero is as insignificant as can be. */
  lemma ZeroHasPOne(n: nat, beta: Beta)
    ensures PValue(0.0, n, beta) == 1.0
  {
    assert Abs(0.0) == 0.0;
    if n > 2 { NoOdds((n - 2) as real); }
  }

  lemma NoOdds(degrees: real)
    requires degrees > 0.0
    ensures 0.0 * 0.0 * degrees / (1.0 - 0.0 * 0.0) == 0.0
    ensures degrees / (degrees + 0.0) == 1.0
  {
  }

  /** What an estimate says of its own coefficient. */
  ghost predicate IsMeasured(e: Estimate) {
    && (e.pValue.Some? <==> e.coefficient.Some?)
    && (e.pValue.Some? ==> 0.0 <= e.pValue.value <= 1.0)
    && (e.coefficient == Some(0.0) ==> e.pValue == Some(1.0))
  }

  lemma EstimatesAreMeasured(pairs: seq<(real, real)>, how: Method, c: Configuration, sqrt: real -> real, beta: Beta)
    requires IsValid(c) && SquareRoots(sqrt)
    ensures IsMeasured(EstimateOf(pairs, how, c, sqrt, beta))
  {
    hide PValue, FullCoefficient, RollingOf, SquareRoots;
    ZeroHasPOne(|pairs|, beta);
  }

  /** The judged hypothesis at `i`, told by its own adjusted value. */
  lemma JudgedAt(js: seq<Judged>, es: seq<Estimate>, q: seq<real>, t: Thresholds, i: nat) returns (k: nat)
    requires JudgedUpTo(js, es, q, t, |q|) && i < |es|
    ensures es[i].pValue.None? ==> js[i] == Unjudged(es[i])
    ensures es[i].pValue.Some? ==> k < |q| && PValues(es)[k] == es[i].pValue.value && js[i] == WithQ(es[i], q[k], t)
    ensures es[i].pValue.Some? ==> Tested(es)[k] == i
  {
    TestedFacts(es);
    var tested := Tested(es);
    hide Tested, WithQ;
    k := 0;
    if HasP(es, i) {
      assert i in tested;
      k :| 0 <= k < |tested| && tested[k] == i;
      assert PAt(es)(i) == es[i].pValue.value;
    } else {
      forall l | 0 <= l < |tested| ensures tested[l] != i { assert tested[l] in tested; }
    }
  }

  /** A supported hypothesis has a direction. */
  lemma SupportHasDirection(js: seq<Judged>, es: seq<Estimate>, fdr: FdrMethod, q: seq<real>, t: Thresholds, i: nat)
    requires t.alpha < 1.0 && (forall k | 0 <= k < |es| :: IsMeasured(es[k]))
    requires Adjusted(PValues(es), fdr, q) && JudgedUpTo(js, es, q, t, |q|) && i < |es| && js[i].supported
    ensures es[i].coefficient.Some? && es[i].coefficient.value != 0.0
  {
    var k := JudgedAt(js, es, q, t, i);
    assert IsMeasured(es[i]);
    PValuesAreProbabilities(es);
    hide Adjusted, JudgedUpTo, Tested;
    if es[i].pValue.Some? { NeverBelowRaw(PValues(es), fdr, q, k); }
  }

  lemma PValuesAreProbabilities(es: seq<Estimate>)
    requires forall k | 0 <= k < |es| :: IsMeasured(es[k])
    ensures Probabilities(PValues(es))
  {
    TestedFacts(es);
    var tested := Tested(es);
    hide Tested;
    forall k | 0 <= k < |tested| ensures 0.0 <= PAt(es)(tested[k]) <= 1.0 {
      assert tested[k] in tested;
      assert IsMeasured(es[tested[k]]);
    }
  }

  ghost predicate MirroredFamilies(es: seq<Estimate>, fs: seq<Estimate>) {
    |fs| == |es| && forall i | 0 <= i < |es| :: Mirrored(es[i], fs[i])
  }

  lemma MirroredFamiliesHaveOneP(es: seq<Estimate>, fs: seq<Estimate>)
    requires MirroredFamilies(es, fs)
    ensures Tested(fs) == Tested(es) && PValues(fs) == PValues(es)
  {
    forall i ensures HasP(fs, i) == HasP(es, i) && PAt(fs)(i) == PAt(es)(i) {
      if 0 <= i < |es| { assert Mirrored(es[i], fs[i]); }
    }
    SameFilter(Indices(|es|), (i: int) => HasP(fs, i), (i: int) => HasP(es, i));
    var tested := Tested(es);
    hide Filter, Mirrored, Tested;
    assert Map(tested, PAt(fs)) == Map(tested, PAt(es));
  }

  lemma AdjustmentIsUnique(p: seq<real>, fdr: FdrMethod, q: seq<real>, r: seq<real>)
    requires Adjusted(p, fdr, q) && Adjusted(p, fdr, r) && Probabilities(p)
    ensures q == r
  {
    AdjustedCount(p, fdr, q);
    AdjustedCount(p, fdr, r);
    hide Adjusted;
    forall h | 0 <= h < |p| ensures q[h] == r[h] { OrderIndependent(p, q, p, r, fdr, h, h); }
  }

  /** Families of mirrored estimates have the same adjusted values and the same support, and the same of what
    * is supported is stable. */
  lemma JudgementForgetsSign(es: seq<Estimate>, fs: seq<Estimate>, js: seq<Judged>, ks: seq<Judged>, fdr: FdrMethod,
                             q: seq<real>, r: seq<real>, t: Thresholds, i: nat)
    requires t.alpha < 1.0 && MirroredFamilies(es, fs) && (forall k | 0 <= k < |es| :: IsMeasured(es[k]))
    requires Adjusted(PValues(es), fdr, q) && JudgedUpTo(js, es, q, t, |q|)
    requires Adjusted(PValues(fs), fdr, r) && JudgedUpTo(ks, fs, r, t, |r|)
    requires i < |es|
    ensures |js| == |ks| == |es|
    ensures ks[i].qValue == js[i].qValue && ks[i].fdrSignificant == js[i].fdrSignificant
            && ks[i].supported == js[i].supported
    ensures js[i].supported ==> ks[i].estimate.rolling.stable == js[i].estimate.rolling.stable
  {
    MirroredFamiliesHaveOneP(es, fs);
    PValuesAreProbabilities(es);
    AdjustmentIsUnique(PValues(es), fdr, q, r);
    JudgedCounts(js, es, q, t, |q|);
    JudgedCounts(ks, fs, r, t, |r|);
    var k := JudgedAt(js, es, q, t, i);
    var l := JudgedAt(ks, fs, r, t, i);
    assert Mirrored(es[i], fs[i]);
    if js[i].supported { SupportHasDirection(js, es, fdr, q, t, i); }
    hide Adjusted, JudgedUpTo, Tested, PValues;
    if es[i].pValue.Some? { TestedOnce(es, k, l); }
  }

  lemma TestedOnce(es: seq<Estimate>, k: nat, l: nat)
    requires k < |Tested(es)| && l < |Tested(es)| && Tested(es)[k] == Tested(es)[l]
    ensures k == l
  {
    TestedFacts(es);
    var tested := Tested(es);
    hide Tested, StrictlySortedBy;
    if k < l { AscendsOnce(tested, k, l); }
    if l < k { AscendsOnce(tested, l, k); }
  }

  lemma AscendsOnce(xs: seq<int>, k: nat, l: nat)
    requires StrictlySortedBy(xs, Before) && k < l < |xs|
    ensures xs[k] != xs[l]
  {
    assert Before(xs[k], xs[l]);
  }

  // ---- Families of pairs ----

  /** The pairs of a candidate, a transform and a lag, with a method. */
  datatype Hypothesis = Hypothesis(pairs: seq<(real, real)>, how: Method)

  function Estimates(hs: seq<Hypothesis>, c: Configuration, sqrt: real -> real, beta: Beta): (es: seq<Estimate>)
    requires IsValid(c) && SquareRoots(sqrt)
    ensures |es| == |hs| && forall i | 0 <= i < |hs| :: es[i] == EstimateOf(hs[i].pairs, hs[i].how, c, sqrt, beta)
  {
    if hs == [] then []
    else
      var n := |hs| - 1;
      Estimates(hs[..n], c, sqrt, beta) + [EstimateOf(hs[n].pairs, hs[n].how, c, sqrt, beta)]
  }

  /** The pairs of some hypotheses are turned. */
  ghost predicate SomeTurned(hs: seq<Hypothesis>, ks: seq<Hypothesis>) {
    |ks| == |hs| && forall i | 0 <= i < |hs| :: ks[i] == hs[i] || ks[i] == hs[i].(pairs := Map(hs[i].pairs, Turn))
  }

  lemma TurnedHypothesis(hs: seq<Hypothesis>, ks: seq<Hypothesis>, c: Configuration, sqrt: real -> real, beta: Beta,
                         i: nat)
    requires IsValid(c) && SquareRoots(sqrt) && SomeTurned(hs, ks) && i < |hs|
    ensures Mirrored(Estimates(hs, c, sqrt, beta)[i], Estimates(ks, c, sqrt, beta)[i])
    ensures IsMeasured(Estimates(hs, c, sqrt, beta)[i])
  {
    hide Estimates, EstimateOf, IsMeasured, IsValid, SquareRoots;
    TurnedEstimate(hs[i].pairs, hs[i].how, c, sqrt, beta);
    EstimatesAreMeasured(hs[i].pairs, hs[i].how, c, sqrt, beta);
  }

  lemma TurnedFamily(hs: seq<Hypothesis>, ks: seq<Hypothesis>, c: Configuration, sqrt: real -> real, beta: Beta)
    requires IsValid(c) && SquareRoots(sqrt) && SomeTurned(hs, ks)
    ensures MirroredFamilies(Estimates(hs, c, sqrt, beta), Estimates(ks, c, sqrt, beta))
    ensures forall i | 0 <= i < |hs| :: IsMeasured(Estimates(hs, c, sqrt, beta)[i])
  {
    hide Estimates, IsMeasured, IsValid, SquareRoots, Mirrored;
    forall i | 0 <= i < |hs|
      ensures Mirrored(Estimates(hs, c, sqrt, beta)[i], Estimates(ks, c, sqrt, beta)[i])
      ensures IsMeasured(Estimates(hs, c, sqrt, beta)[i])
    {
      TurnedHypothesis(hs, ks, c, sqrt, beta, i);
    }
  }

  /** Whichever pairs are turned: the same hypotheses are supported, and the same of these are stable. */
  lemma FamilyForgetsSign(hs: seq<Hypothesis>, ks: seq<Hypothesis>, c: Configuration, sqrt: real -> real, beta: Beta,
                          fdr: FdrMethod, before: seq<Judged>, after: seq<Judged>, i: nat)
    requires IsValid(c) && SquareRoots(sqrt) && SomeTurned(hs, ks) && i < |hs|
    requires JudgedBy(before, Estimates(hs, c, sqrt, beta), fdr, c.thresholds)
    requires JudgedBy(after, Estimates(ks, c, sqrt, beta), fdr, c.thresholds)
    ensures |before| == |after| == |hs|
    ensures after[i].qValue == before[i].qValue && after[i].supported == before[i].supported
    ensures before[i].supported ==> after[i].estimate.rolling.stable == before[i].estimate.rolling.stable
  {
    TurnedFamily(hs, ks, c, sqrt, beta);
    hide Estimates, SomeTurned, SquareRoots, MirroredFamilies, Adjusted, JudgedUpTo, PValues, IsMeasured;
    var es, fs, t := Estimates(hs, c, sqrt, beta), Estimates(ks, c, sqrt, beta), c.thresholds;
    var q :| Adjusted(PValues(es), fdr, q) && JudgedUpTo(before, es, q, t, |q|);
    var r :| Adjusted(PValues(fs), fdr, r) && JudgedUpTo(after, fs, r, t, |r|);
    JudgementForgetsSign(es, fs, before, after, fdr, q, r, t, i);
  }
}
