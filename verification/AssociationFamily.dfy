/** The family of hypotheses: every candidate under every transform, lag and method
  * (`cross_source_association`). */
module AssociationFamily {
  import opened Totals
  import opened References
  import opened FdrAdjustment
  import opened RankCorrelation
  import opened RollingStability
  import opened SignReversal
  import opened Transforms
  import opened Association

  /** What is asked of every candidate. */
  datatype Plan = Plan(transforms: seq<Transform>, lags: seq<int>, methods: seq<Method>)

  /** The two sides after a transform. */
  datatype Sides = Sides(target: Series, candidate: Series)

  function SidesOf(target: Series, candidate: Series, how: Transform, log: Logarithm): Sides {
    Sides(Transformed(target, how, log), Transformed(candidate, how, log))
  }

  function OfMethod(s: Sides, lag: int): Method -> Hypothesis {
    m => Hypothesis(Pairs(s.target, s.candidate, lag), m)
  }

  function OfLag(s: Sides, plan: Plan): int -> seq<Hypothesis> { lag => Map(plan.methods, OfMethod(s, lag)) }

  function OfTransform(target: Series, candidate: Series, plan: Plan, log: Logarithm): Transform -> seq<Hypothesis> {
    how => Collect(plan.lags, OfLag(SidesOf(target, candidate, how, log), plan))
  }

  function OfCandidate(target: Series, plan: Plan, log: Logarithm): Series -> seq<Hypothesis> {
    candidate => Collect(plan.transforms, OfTransform(target, candidate, plan, log))
  }

  function Family(target: Series, candidates: seq<Series>, plan: Plan, log: Logarithm): seq<Hypothesis> {
    Collect(candidates, OfCandidate(target, plan, log))
  }

  // ---- Making the estimates ----

  lemma {:induction false} EstimatesAppend(hs: seq<Hypothesis>, ks: seq<Hypothesis>, c: Configuration,
                                           sqrt: real -> real, beta: Beta)
    requires IsValid(c) && SquareRoots(sqrt)
    ensures Estimates(hs + ks, c, sqrt, beta) == Estimates(hs, c, sqrt, beta) + Estimates(ks, c, sqrt, beta)
  {
    hide EstimateOf, SquareRoots;
    var all := Estimates(hs + ks, c, sqrt, beta);
    var first, rest := Estimates(hs, c, sqrt, beta), Estimates(ks, c, sqrt, beta);
    forall i | 0 <= i < |all| ensures all[i] == (first + rest)[i] {
      if i < |hs| { assert (hs + ks)[i] == hs[i]; } else { assert (hs + ks)[i] == ks[i - |hs|]; }
    }
  }

  method EstimateMethods(s: Sides, lag: int, plan: Plan, c: Configuration, sqrt: real -> real, beta: Beta)
    returns (estimates: seq<Estimate>)
    requires IsValid(c) && SquareRoots(sqrt)
    ensures estimates == Estimates(OfLag(s, plan)(lag), c, sqrt, beta)
  {
    hide EstimateOf, SquareRoots, Constant, Pairs;
    var pairs := LaggedPairs(s.target, s.candidate, lag);
    estimates := [];
    for i := 0 to |plan.methods|
      invariant |estimates| == i
      invariant forall j | 0 <= j < i :: estimates[j] == EstimateOf(pairs, plan.methods[j], c, sqrt, beta)
    {
      var estimate := MakeEstimate(pairs, plan.methods[i], c, sqrt, beta);
      estimates := estimates + [estimate];
    }
  }

  method EstimateLags(s: Sides, plan: Plan, c: Configuration, sqrt: real -> real, beta: Beta)
    returns (estimates: seq<Estimate>)
    requires IsValid(c) && SquareRoots(sqrt)
    ensures estimates == Estimates(Collect(plan.lags, OfLag(s, plan)), c, sqrt, beta)
  {
    hide OfLag, SquareRoots, Estimates;
    estimates := [];
    NoEstimates(c, sqrt, beta);
    for i := 0 to |plan.lags|
      invariant estimates == Estimates(Collect(plan.lags[..i], OfLag(s, plan)), c, sqrt, beta)
    {
      var more := EstimateMethods(s, plan.lags[i], plan, c, sqrt, beta);
      assert plan.lags[..i + 1] == plan.lags[..i] + [plan.lags[i]];
      OneMore(plan.lags[..i], plan.lags[i], OfLag(s, plan), c, sqrt, beta);
      estimates := estimates + more;
    }
    assert plan.lags[..|plan.lags|] == plan.lags;
  }

  method EstimateCandidate(target: Series, candidate: Series, plan: Plan, log: Logarithm, c: Configuration,
                           sqrt: real -> real, beta: Beta)
    returns (estimates: seq<Estimate>)
    requires IsValid(c) && SquareRoots(sqrt)
    ensures estimates == Estimates(OfCandidate(target, plan, log)(candidate), c, sqrt, beta)
  {
    hide OfLag, SquareRoots, Estimates, Transformed;
    estimates := [];
    NoEstimates(c, sqrt, beta);
    var transforms := plan.transforms;
    for i := 0 to |transforms|
      invariant estimates
                == Estimates(Collect(transforms[..i], OfTransform(target, candidate, plan, log)), c, sqrt, beta)
    {
      var targets := TransformSeries(target, transforms[i], log);
      var candidates := TransformSeries(candidate, transforms[i], log);
      var more := EstimateLags(Sides(targets, candidates), plan, c, sqrt, beta);
      assert transforms[..i + 1] == transforms[..i] + [transforms[i]];
      OneMore(transforms[..i], transforms[i], OfTransform(target, candidate, plan, log), c, sqrt, beta);
      estimates := estimates + more;
    }
    assert transforms[..|transforms|] == transforms;
  }

  /** One estimate for each hypothesis, in the order of the four loops. */
  method EstimateFamily(target: Series, candidates: seq<Series>, plan: Plan, log: Logarithm, c: Configuration,
                        sqrt: real -> real, beta: Beta)
    returns (estimates: seq<Estimate>)
    requires IsValid(c) && SquareRoots(sqrt)
    ensures estimates == Estimates(Family(target, candidates, plan, log), c, sqrt, beta)
  {
    hide OfCandidate, SquareRoots, Estimates;
    estimates := [];
    NoEstimates(c, sqrt, beta);
    for i := 0 to |candidates|
      invariant estimates == Estimates(Family(target, candidates[..i], plan, log), c, sqrt, beta)
    {
      var more := EstimateCandidate(target, candidates[i], plan, log, c, sqrt, beta);
      assert candidates[..i + 1] == candidates[..i] + [candidates[i]];
      OneMore(candidates[..i], candidates[i], OfCandidate(target, plan, log), c, sqrt, beta);
      estimates := estimates + more;
    }
    assert candidates[..|candidates|] == candidates;
  }

  lemma NoEstimates(c: Configuration, sqrt: real -> real, beta: Beta)
    requires IsValid(c) && SquareRoots(sqrt)
    ensures Estimates([], c, sqrt, beta) == []
  {
  }

  lemma OneMore<S>(xs: seq<S>, x: S, refs: S -> seq<Hypothesis>, c: Configuration, sqrt: real -> real, beta: Beta)
    requires IsValid(c) && SquareRoots(sqrt)
    ensures Estimates(Collect(xs + [x], refs), c, sqrt, beta)
            == Estimates(Collect(xs, refs), c, sqrt, beta) + Estimates(refs(x), c, sqrt, beta)
  {
    hide SquareRoots, Estimates, Collect;
    CollectSnoc(xs, x, refs);
    EstimatesAppend(Collect(xs, refs), refs(x), c, sqrt, beta);
  }

  // ---- Negated candidates ----

  /** Some candidates are negated. */
  ghost predicate SomeNegated(cs: seq<Series>, ds: seq<Series>) {
    |ds| == |cs| && forall i | 0 <= i < |cs| :: ds[i] == cs[i] || ds[i] == NegatedSeries(cs[i])
  }

  /** Some candidates are negated, and of these no change has a plain logarithm. */
  ghost predicate FitlyNegated(cs: seq<Series>, ds: seq<Series>, plan: Plan) {
    SomeNegated(cs, ds) && forall i | 0 <= i < |cs| :: ds[i] == cs[i] || TurnsUnder(plan, cs[i])
  }

  /** No plain logarithm is taken of the candidate, or it never has a change to take one of. */
  ghost predicate TurnsUnder(plan: Plan, candidate: Series) {
    LogDifference !in plan.transforms || NeverSameSign(candidate)
  }

  lemma SomeTurnedAppend(a: seq<Hypothesis>, b: seq<Hypothesis>, x: seq<Hypothesis>, y: seq<Hypothesis>)
    requires SomeTurned(a, x) && SomeTurned(b, y)
    ensures SomeTurned(a + b, x + y)
  {
    forall i | 0 <= i < |a + b|
      ensures (x + y)[i] == (a + b)[i] || (x + y)[i] == (a + b)[i].(pairs := Map((a + b)[i].pairs, Turn))
    {
      if i >= |a| { assert (x + y)[i] == y[i - |a|] && (a + b)[i] == b[i - |a|]; }
    }
  }

  lemma {:induction false} CollectTurned<S>(xs: seq<S>, ys: seq<S>, f: S -> seq<Hypothesis>, g: S -> seq<Hypothesis>)
    requires |ys| == |xs| && forall i | 0 <= i < |xs| :: SomeTurned(f(xs[i]), g(ys[i]))
    ensures SomeTurned(Collect(xs, f), Collect(ys, g))
  {
    if xs != [] {
      var n := |xs| - 1;
      CollectTurned(xs[..n], ys[..n], f, g);
      assert SomeTurned(f(xs[n]), g(ys[n]));
      hide SomeTurned;
      SomeTurnedAppend(Collect(xs[..n], f), f(xs[n]), Collect(ys[..n], g), g(ys[n]));
    } else {
      assert Collect(xs, f) == [] && Collect(ys, g) == [];
    }
  }

  lemma LagTurns(s: Sides, lag: int, plan: Plan)
    ensures SomeTurned(OfLag(s, plan)(lag), OfLag(s.(candidate := NegatedSeries(s.candidate)), plan)(lag))
  {
    PairsOfNegated(s.target, s.candidate, lag);
    hide Pairs, Turn;
  }

  lemma CandidateTurns(target: Series, candidate: Series, plan: Plan, log: Logarithm)
    requires TurnsUnder(plan, candidate)
    ensures SomeTurned(OfCandidate(target, plan, log)(candidate),
                       OfCandidate(target, plan, log)(NegatedSeries(candidate)))
  {
    hide Transformed, SomeTurned, OfLag, NeverSameSign;
    var negated := NegatedSeries(candidate);
    forall i | 0 <= i < |plan.transforms|
      ensures SomeTurned(OfTransform(target, candidate, plan, log)(plan.transforms[i]),
                         OfTransform(target, negated, plan, log)(plan.transforms[i]))
    {
      var how := plan.transforms[i];
      var s := SidesOf(target, candidate, how, log);
      assert how in plan.transforms;
      TransformOfNegated(candidate, how, log);
      assert SidesOf(target, negated, how, log) == s.(candidate := NegatedSeries(s.candidate));
      forall j | 0 <= j < |plan.lags|
        ensures SomeTurned(OfLag(s, plan)(plan.lags[j]), OfLag(SidesOf(target, negated, how, log), plan)(plan.lags[j]))
      {
        LagTurns(s, plan.lags[j], plan);
      }
      CollectTurned(plan.lags, plan.lags, OfLag(s, plan), OfLag(SidesOf(target, negated, how, log), plan));
    }
    CollectTurned(plan.transforms, plan.transforms, OfTransform(target, candidate, plan, log),
                  OfTransform(target, negated, plan, log));
  }

  lemma SomeTurnedReflexive(hs: seq<Hypothesis>)
    ensures SomeTurned(hs, hs)
  {
  }

  /** The hypotheses of a negated candidate are those of the candidate, turned. */
  lemma FamilyTurns(target: Series, cs: seq<Series>, ds: seq<Series>, plan: Plan, log: Logarithm)
    requires FitlyNegated(cs, ds, plan)
    ensures SomeTurned(Family(target, cs, plan, log), Family(target, ds, plan, log))
  {
    hide SomeTurned, OfCandidate, TurnsUnder, NegatedSeries;
    forall i | 0 <= i < |cs|
      ensures SomeTurned(OfCandidate(target, plan, log)(cs[i]), OfCandidate(target, plan, log)(ds[i]))
    {
      if ds[i] == cs[i] {
        SomeTurnedReflexive(OfCandidate(target, plan, log)(cs[i]));
      } else {
        CandidateTurns(target, cs[i], plan, log);
      }
    }
    CollectTurned(cs, ds, OfCandidate(target, plan, log), OfCandidate(target, plan, log));
  }

  /** The same hypotheses are supported under the same adjusted values, and the same of these are stable. */
  ghost predicate SameSupport(before: seq<Judged>, after: seq<Judged>) {
    |after| == |before| && forall i | 0 <= i < |before| ::
      && after[i].qValue == before[i].qValue && after[i].supported == before[i].supported
      && (before[i].supported ==> after[i].estimate.rolling.stable == before[i].estimate.rolling.stable)
  }

  /** Negating candidates of which no plain logarithm is taken changes no adjusted value, no support, and not
    * the stability of any supported hypothesis. */
  lemma CandidatesForgetSign(target: Series, cs: seq<Series>, ds: seq<Series>, plan: Plan, log: Logarithm,
                             c: Configuration, sqrt: real -> real, beta: Beta, fdr: FdrMethod,
                             before: seq<Judged>, after: seq<Judged>)
    requires IsValid(c) && SquareRoots(sqrt)
    requires FitlyNegated(cs, ds, plan)
    requires JudgedBy(before, Estimates(Family(target, cs, plan, log), c, sqrt, beta), fdr, c.thresholds)
    requires JudgedBy(after, Estimates(Family(target, ds, plan, log), c, sqrt, beta), fdr, c.thresholds)
    ensures SameSupport(before, after)
  {
    hide *;
    FamilyTurns(target, cs, ds, plan, log);
    var hs, ks := Family(target, cs, plan, log), Family(target, ds, plan, log);
    TurnedFamilySupport(hs, ks, c, sqrt, beta, fdr, before, after);
  }

  lemma TurnedFamilySupport(hs: seq<Hypothesis>, ks: seq<Hypothesis>, c: Configuration, sqrt: real -> real, beta: Beta,
                            fdr: FdrMethod, before: seq<Judged>, after: seq<Judged>)
    requires IsValid(c) && SquareRoots(sqrt) && SomeTurned(hs, ks)
    requires JudgedBy(before, Estimates(hs, c, sqrt, beta), fdr, c.thresholds)
    requires JudgedBy(after, Estimates(ks, c, sqrt, beta), fdr, c.thresholds)
    ensures SameSupport(before, after)
  {
    assert |hs| == |ks|;
    JudgedCount(before, Estimates(hs, c, sqrt, beta), fdr, c.thresholds);
    JudgedCount(after, Estimates(ks, c, sqrt, beta), fdr, c.thresholds);
    hide SomeTurned, SquareRoots, JudgedBy, Estimates, IsValid;
    forall i | 0 <= i < |before|
      ensures after[i].qValue == before[i].qValue && after[i].supported == before[i].supported
      ensures before[i].supported ==> after[i].estimate.rolling.stable == before[i].estimate.rolling.stable
    {
      FamilyForgetsSign(hs, ks, c, sqrt, beta, fdr, before, after, i);
    }
  }

  lemma JudgedCount(js: seq<Judged>, es: seq<Estimate>, fdr: FdrMethod, t: Thresholds)
    requires JudgedBy(js, es, fdr, t)
    ensures |js| == |es|
  {
  }
}
