/** The score that ranks dimensions against each other (`_diagnostic_priority_explanation`). */
module DiagnosticPriority {
  import opened Wrappers
  import opened Totals
  import opened RealArith
  import opened MemberShares

  /** A component of the score with its base weight; absent when it does not apply. */
  datatype Measure = Measure(baseWeight: real, value: Option<real>)

  datatype Component = Component(value: Option<real>, weight: Option<real>, contribution: Option<real>)

  function BaseMeasures(excessChangeRatio: real, differentiation: real, alignment: Option<real>): seq<Measure> {
    [Measure(0.45, Some(excessChangeRatio)), Measure(0.35, Some(differentiation)), Measure(0.20, alignment)]
  }

  function WeightIn(m: Measure): real { if m.value.Some? then m.baseWeight else 0.0 }

  function WeightedValue(m: Measure): real { if m.value.Some? then m.baseWeight * m.value.value else 0.0 }

  /** The mean of the measured components under their base weights. */
  function WeightedMean(measures: seq<Measure>): real {
    var weight := Total(measures, WeightIn);
    if weight == 0.0 then 0.0 else Total(measures, WeightedValue) / weight
  }

  function Contribution(c: Component): real { if c.contribution.Some? then c.contribution.value else 0.0 }

  function EffectiveWeight(c: Component): real { if c.weight.Some? then c.weight.value else 0.0 }

  /** The base weights are positive and something was measured. */
  ghost predicate Measurable(measures: seq<Measure>) {
    && (forall m | m in measures :: m.baseWeight > 0.0)
    && exists i :: 0 <= i < |measures| && measures[i].value.Some?
  }

  lemma WeightIsPositive(measures: seq<Measure>)
    requires Measurable(measures)
    ensures Total(measures, WeightIn) > 0.0
  {
    var i :| 0 <= i < |measures| && measures[i].value.Some?;
    forall k | 0 <= k < |measures| ensures measures[k].baseWeight > 0.0 { assert measures[k] in measures; }
    TotalStrictlyMonotone(measures, (m: Measure) => 0.0, WeightIn, i);
    TotalConstant(measures, (m: Measure) => 0.0, 0.0);
  }

  function Explained(m: Measure, measuredWeight: real): Component
    requires measuredWeight != 0.0
  {
    if m.value.None? then Component(None, None, None)
    else
      var weight := m.baseWeight / measuredWeight;
      Component(m.value, Some(weight), Some(m.value.value * weight))
  }

  /** Every measure with its effective weight and its contribution. */
  function Explanations(measures: seq<Measure>): seq<Component>
    requires Measurable(measures)
  {
    WeightIsPositive(measures);
    var measuredWeight := Total(measures, WeightIn);
    seq(|measures|, i requires 0 <= i < |measures| => Explained(measures[i], measuredWeight))
  }

  /** The score reported is the mean of the measured components under their base weights. */
  method Explain(measures: seq<Measure>) returns (components: seq<Component>, finalScore: real)
    requires Measurable(measures)
    ensures components == Explanations(measures)
    ensures finalScore == WeightedMean(measures)
  {
    WeightIsPositive(measures);
    ReportAddsUp(measures);
    hide Total, Measurable, Explained, WeightedMean;
    var measuredWeight := Total(measures, WeightIn);
    components := [];
    for i := 0 to |measures|
      invariant |components| == i
      invariant forall k | 0 <= k < i :: components[k] == Explained(measures[k], measuredWeight)
    {
      components := components + [Explained(measures[i], measuredWeight)];
    }
    finalScore := Total(components, Contribution);
    assert components == Explanations(measures);
  }

  /** The report adds up: its weights to one, its contributions to the mean; and it keeps every value. */
  lemma ReportAddsUp(measures: seq<Measure>)
    requires Measurable(measures)
    ensures var components := Explanations(measures);
      && |components| == |measures|
      && (forall i | 0 <= i < |measures| :: components[i].value == measures[i].value)
      && Total(components, EffectiveWeight) == 1.0
      && Total(components, Contribution) == WeightedMean(measures)
  {
    hide Total, Measurable, Explained, WeightedMean;
    WeightIsPositive(measures);
    var measuredWeight := Total(measures, WeightIn);
    var components := Explanations(measures);
    ScoreIsMean(measures, components, measuredWeight);
    forall i | 0 <= i < |measures| ensures components[i].value == measures[i].value {
      ExplainedKeepsValue(measures[i], measuredWeight);
    }
  }

  lemma ExplainedKeepsValue(m: Measure, measuredWeight: real)
    requires measuredWeight != 0.0
    ensures Explained(m, measuredWeight).value == m.value
  {
  }

  lemma ScaledParts(m: Measure, measuredWeight: real)
    requires measuredWeight != 0.0
    ensures var c, one := Explained(m, measuredWeight), 1.0 / measuredWeight;
            EffectiveWeight(c) == one * WeightIn(m) && Contribution(c) == one * WeightedValue(m)
  {
    var one := 1.0 / measuredWeight;
    ShareOfTotal(m.baseWeight, measuredWeight, 1.0);
    assert m.baseWeight / measuredWeight == one * m.baseWeight;
    if m.value.Some? {
      var v := m.value.value;
      assert v * (one * m.baseWeight) == one * (m.baseWeight * v);
    }
  }

  lemma {:induction false} ScoreIsMean(measures: seq<Measure>, components: seq<Component>, measuredWeight: real)
    requires measuredWeight == Total(measures, WeightIn) && measuredWeight > 0.0 && |components| == |measures|
    requires forall k | 0 <= k < |measures| :: components[k] == Explained(measures[k], measuredWeight)
    ensures Total(components, EffectiveWeight) == 1.0
    ensures Total(components, Contribution) == WeightedMean(measures)
  {
    hide Total, Explained, EffectiveWeight, Contribution, WeightIn, WeightedValue;
    var one := 1.0 / measuredWeight;
    var weight := (m: Measure) => one * WeightIn(m);
    var value := (m: Measure) => one * WeightedValue(m);
    forall k | 0 <= k < |measures|
      ensures EffectiveWeight(components[k]) == weight(measures[k]) && Contribution(components[k]) == value(measures[k])
    {
      ScaledParts(measures[k], measuredWeight);
    }
    TotalAgree(components, measures, EffectiveWeight, weight);
    TotalAgree(components, measures, Contribution, value);
    TotalScaled(measures, WeightIn, weight, one);
    TotalScaled(measures, WeightedValue, value, one);
    assert one * measuredWeight == 1.0;
    ShareOfTotal(Total(measures, WeightedValue), measuredWeight, 1.0);
  }

  lemma {:induction false} TotalScaled<T>(xs: seq<T>, f: T -> real, g: T -> real, factor: real)
    requires forall x :: g(x) == factor * f(x)
    ensures Total(xs, g) == factor * Total(xs, f)
  {
    TotalLinear(xs, f, f, g, factor, 0.0);
  }

  /** The score lies between the least and the greatest measured component. */
  lemma ScoreBetweenComponents(measures: seq<Measure>, low: real, high: real)
    requires Measurable(measures)
    requires forall m | m in measures && m.value.Some? :: low <= m.value.value <= high
    ensures low <= WeightedMean(measures) <= high
  {
    hide Total, WeightIn, WeightedValue;
    WeightIsPositive(measures);
    var w := Total(measures, WeightIn);
    var least := (m: Measure) => low * WeightIn(m);
    var most := (m: Measure) => high * WeightIn(m);
    forall k | 0 <= k < |measures| ensures least(measures[k]) <= WeightedValue(measures[k]) <= most(measures[k]) {
      assert measures[k] in measures;
      WeightedValueBetween(measures[k], low, high);
    }
    hide Measurable;
    TotalMonotone(measures, least, WeightedValue);
    TotalMonotone(measures, WeightedValue, most);
    TotalScaled(measures, WeightIn, least, low);
    TotalScaled(measures, WeightIn, most, high);
    QuotientBetween(Total(measures, WeightedValue), w, low, high);
  }

  lemma QuotientBetween(x: real, w: real, low: real, high: real)
    requires w > 0.0 && low * w <= x <= high * w
    ensures low <= x / w <= high
  {
    LeDiv(low, x, w);
    DivLe(x, w, high);
  }

  lemma WeightedValueBetween(m: Measure, low: real, high: real)
    requires m.baseWeight > 0.0 && (m.value.Some? ==> low <= m.value.value <= high)
    ensures low * WeightIn(m) <= WeightedValue(m) <= high * WeightIn(m)
  {
    if m.value.Some? {
      ProductMonotone(low, m.value.value, m.baseWeight);
      ProductMonotone(m.value.value, high, m.baseWeight);
    }
  }

  lemma BaseMeasuresAreMeasurable(ratio: real, differentiation: real, alignment: Option<real>)
    ensures Measurable(BaseMeasures(ratio, differentiation, alignment))
  {
    assert BaseMeasures(ratio, differentiation, alignment)[0].value.Some?;
  }

  /** The score is never negative, and it is a proportion when differentiation is. */
  lemma PriorityIsAProportion(members: seq<Member>, b: real, t: real, tolerance: real, aligns: Option<Member -> bool>)
    requires AnnotatedBy(members, b, t)
    ensures var alignment := if aligns.Some? then Some(AlignmentCoverage(members, aligns.value)) else None;
            var ratio, differentiation := ExcessChangeRatio(members, b, t, tolerance), Differentiation(members);
            var score := WeightedMean(BaseMeasures(ratio, differentiation, alignment));
            0.0 <= score && (differentiation <= 1.0 ==> score <= 1.0)
  {
    var alignment := if aligns.Some? then Some(AlignmentCoverage(members, aligns.value)) else None;
    RatioBounds(members, b, t, tolerance);
    DifferentiationIsNotNegative(members);
    if aligns.Some? { CoverageBounds(members, aligns.value); }
    hide AnnotatedBy, Total, ExcessChangeRatio, Differentiation, AlignmentCoverage, Measurable, WeightedMean;
    var measures := BaseMeasures(ExcessChangeRatio(members, b, t, tolerance), Differentiation(members), alignment);
    BaseMeasuresAreMeasurable(ExcessChangeRatio(members, b, t, tolerance), Differentiation(members), alignment);
    ScoreBetweenComponents(measures, 0.0, if Differentiation(members) <= 1.0 then 1.0 else Differentiation(members));
  }

  lemma TotalOfBaseMeasures(ratio: real, differentiation: real, alignment: Option<real>, f: Measure -> real)
    ensures var ms := BaseMeasures(ratio, differentiation, alignment); Total(ms, f) == f(ms[0]) + f(ms[1]) + f(ms[2])
  {
    var ms := BaseMeasures(ratio, differentiation, alignment);
    assert ms[1..] == [ms[1], ms[2]] && [ms[1], ms[2]][1..] == [ms[2]] && [ms[2]][1..] == [];
    assert Total([ms[2]], f) == f(ms[2]) + Total([], f);
    assert Total([ms[1], ms[2]], f) == f(ms[1]) + Total([ms[2]], f);
  }

  /** Without a leading factor the other two components keep their proportion of nine to seven. */
  lemma ScoreWithoutLeadingFactor(ratio: real, differentiation: real)
    ensures WeightedMean(BaseMeasures(ratio, differentiation, None)) == (9.0 * ratio + 7.0 * differentiation) / 16.0
  {
    TotalOfBaseMeasures(ratio, differentiation, None, WeightIn);
    TotalOfBaseMeasures(ratio, differentiation, None, WeightedValue);
    hide Total;
  }

  lemma ScoreWithLeadingFactor(ratio: real, differentiation: real, alignment: real)
    ensures WeightedMean(BaseMeasures(ratio, differentiation, Some(alignment)))
         == 0.45 * ratio + 0.35 * differentiation + 0.20 * alignment
  {
    TotalOfBaseMeasures(ratio, differentiation, Some(alignment), WeightIn);
    TotalOfBaseMeasures(ratio, differentiation, Some(alignment), WeightedValue);
    hide Total;
  }
}
