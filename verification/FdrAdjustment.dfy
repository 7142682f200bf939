/** Benjamini-Hochberg and Benjamini-Yekutieli adjustment of p-values
  * (`_adjust_p_values` and the significance flag built on it). */
module FdrAdjustment {
  import opened Wrappers
  import opened Sorting
  import opened RealArith
  import opened RealOrder

  datatype FdrMethod = BenjaminiHochberg | BenjaminiYekutieli | UnsupportedMethod

  datatype FdrError = UnsupportedFdrMethod

  /** 1/1 + 1/2 + ... + 1/n, the price paid for arbitrary dependence. */
  function Harmonic(n: nat): real {
    if n == 0 then 0.0 else Harmonic(n - 1) + 1.0 / n as real
  }

  function DependencyMultiplier(fdr: FdrMethod, count: nat): real {
    if fdr == BenjaminiYekutieli then Harmonic(count) else 1.0
  }

  function ScaledP(p: real, count: nat, multiplier: real, rank: nat): real
    requires rank > 0
  {
    p * count as real * multiplier / rank as real
  }

  /** The p-values in ascending order, each scaled by the family size and the dependency
    * multiplier and divided by its rank. */
  function ScaledPValues(p: seq<real>, fdr: FdrMethod): (c: seq<real>)
    ensures |c| == |p| == |SortedValues(p)|
    ensures forall j | 0 <= j < |p| ::
              c[j] == ScaledP(SortedValues(p)[j], |p|, DependencyMultiplier(fdr, |p|), j + 1)
  {
    seq(|p|, j requires 0 <= j < |p| =>
      ScaledP(SortedValues(p)[j], |p|, DependencyMultiplier(fdr, |p|), j + 1))
  }

  /** `q` is the smallest of 1 and the candidates at position `i` or later. */
  ghost predicate IsMinimumFrom(q: real, candidates: seq<real>, i: nat)
  {
    && q <= 1.0
    && (forall j | i <= j < |candidates| :: q <= candidates[j])
    && (q == 1.0 || exists j :: i <= j < |candidates| && q == candidates[j])
  }

  /** `q` holds the adjusted value of every p-value, each at the position of its p-value. */
  ghost predicate Adjusted(p: seq<real>, fdr: FdrMethod, q: seq<real>)
  {
    |q| == |p| == |Ordered(p)| && SweptFrom(q, Ordered(p), ScaledPValues(p, fdr), 0)
  }

  /** The sorted positions from `start` on hold their minimum. */
  ghost predicate SweptFrom(q: seq<real>, ordered: seq<(nat, real)>, candidates: seq<real>, start: nat)
  {
    forall i | start <= i < |ordered| :: ordered[i].0 < |q| && IsMinimumFrom(q[ordered[i].0], candidates, i)
  }

  lemma SweepStep(q: seq<real>, ordered: seq<(nat, real)>, candidates: seq<real>, i: nat, minimum: real)
    requires forall k, l | 0 <= k < l < |ordered| :: ordered[k].0 != ordered[l].0
    requires i < |ordered| && ordered[i].0 < |q|
    requires SweptFrom(q, ordered, candidates, i + 1) && IsMinimumFrom(minimum, candidates, i)
    ensures SweptFrom(q[ordered[i].0 := minimum], ordered, candidates, i)
  {
    var q' := q[ordered[i].0 := minimum];
    forall k | i <= k < |ordered|
      ensures ordered[k].0 < |q'| && IsMinimumFrom(q'[ordered[k].0], candidates, k)
    {
      if k > i { assert ordered[i].0 != ordered[k].0; }
    }
  }

  method AdjustPValues(pValues: seq<real>, fdr: FdrMethod) returns (r: Result<seq<real>, FdrError>)
    ensures r.Err? <==> fdr == UnsupportedMethod
    ensures r.Ok? ==> Adjusted(pValues, fdr, r.value)
  {
    hide ScaledP, IsMinimumFrom;
    if fdr == UnsupportedMethod {
      return Err(UnsupportedFdrMethod);
    }
    var count := |pValues|;
    if count == 0 {
      return Ok([]);
    }
    var multiplier := DependencyMultiplier(fdr, count);
    var ordered := Ordered(pValues);
    OrderedFacts(pValues);
    ghost var candidates := ScaledPValues(pValues, fdr);
    assert forall i | 0 <= i < count :: ordered[i].1 == Values(ordered)[i] == SortedValues(pValues)[i];
    var adjusted := new real[count](_ => 1.0);
    var runningMinimum := 1.0;
    NothingLeft(candidates);
    var reverseIndex := count;
    while reverseIndex > 0
      invariant 0 <= reverseIndex <= count
      invariant IsMinimumFrom(runningMinimum, candidates, reverseIndex)
      invariant SweptFrom(adjusted[..], ordered, candidates, reverseIndex)
    {
      reverseIndex := reverseIndex - 1;
      var (originalIndex, pValue) := ordered[reverseIndex];
      var scaled := ScaledP(pValue, count, multiplier, reverseIndex + 1);
      var candidate := if scaled < 1.0 then scaled else 1.0;
      ExtendMinimum(runningMinimum, candidates, reverseIndex);
      if candidate < runningMinimum {
        runningMinimum := candidate;
      }
      SweepStep(adjusted[..], ordered, candidates, reverseIndex, runningMinimum);
      adjusted[originalIndex] := runningMinimum;
    }
    r := Ok(adjusted[..]);
  }

  lemma NothingLeft(candidates: seq<real>)
    ensures IsMinimumFrom(1.0, candidates, |candidates|)
  {
  }

  /** One step of the reverse sweep. */
  lemma ExtendMinimum(q: real, candidates: seq<real>, i: nat)
    requires i < |candidates| && IsMinimumFrom(q, candidates, i + 1)
    ensures IsMinimumFrom(if candidates[i] < q then candidates[i] else q, candidates, i)
  {
  }

  /** Every family can be adjusted. */
  lemma AdjustmentExists(p: seq<real>, fdr: FdrMethod) returns (q: seq<real>)
    ensures Adjusted(p, fdr, q)
  {
    hide ScaledP, IsMinimumFrom, Ordered, SortedValues;
    OrderedFacts(p);
    var ordered, candidates := Ordered(p), ScaledPValues(p, fdr);
    q := seq(|p|, _ => 1.0);
    var minimum, i := 1.0, |p|;
    NothingLeft(candidates);
    while i > 0
      invariant 0 <= i <= |p| == |q|
      invariant IsMinimumFrom(minimum, candidates, i)
      invariant SweptFrom(q, ordered, candidates, i)
    {
      i := i - 1;
      ExtendMinimum(minimum, candidates, i);
      minimum := if candidates[i] < minimum then candidates[i] else minimum;
      SweepStep(q, ordered, candidates, i, minimum);
      q := q[ordered[i].0 := minimum];
    }
  }

  // ---- What the adjusted values mean ----

  lemma {:induction false} HarmonicAtLeastOne(n: nat)
    requires n >= 1
    ensures Harmonic(n) >= 1.0
  {
    if n > 1 {
      HarmonicAtLeastOne(n - 1);
    }
  }

  lemma MultiplierAtLeastOne(fdr: FdrMethod, count: nat)
    requires count >= 1
    ensures DependencyMultiplier(fdr, count) >= 1.0
  {
    HarmonicAtLeastOne(count);
  }

  /** The value a p-value of this rank must not exceed. */
  function Threshold(alpha: real, count: nat, multiplier: real, rank: nat): real
    requires count > 0 && multiplier > 0.0
  {
    var factor := count as real * multiplier;
    assert factor > 0.0;
    rank as real * alpha / factor
  }

  lemma ThresholdForms(p: real, alpha: real, count: nat, multiplier: real, rank: nat)
    requires count > 0 && multiplier > 0.0 && rank > 0
    ensures ScaledP(p, count, multiplier, rank) <= alpha <==> p <= Threshold(alpha, count, multiplier, rank)
  {
    var factor := count as real * multiplier;
    assert factor > 0.0;
    assert p * count as real * multiplier == p * factor;
    CrossMultiply(p, factor, rank as real, alpha);
  }

  lemma CrossMultiply(p: real, factor: real, rank: real, alpha: real)
    requires factor > 0.0 && rank > 0.0
    ensures p * factor / rank <= alpha <==> p <= rank * alpha / factor
  {
    DivLe(p * factor, rank, alpha);
    LeDiv(p, rank * alpha, factor);
  }

  /** The largest rank, counted from 1, whose p-value meets its own threshold; 0 if none does. */
  ghost function LargestRejectedRank(p: seq<real>, fdr: FdrMethod, alpha: real, upTo: nat): (k: nat)
    requires upTo <= |p| && DependencyMultiplier(fdr, |p|) > 0.0
    ensures k <= upTo
    ensures |SortedValues(p)| == |p|
    ensures k > 0 ==> SortedValues(p)[k - 1] <= Threshold(alpha, |p|, DependencyMultiplier(fdr, |p|), k)
    ensures forall j | k <= j < upTo ::
              SortedValues(p)[j] > Threshold(alpha, |p|, DependencyMultiplier(fdr, |p|), j + 1)
  {
    if upTo == 0 then 0
    else if SortedValues(p)[upTo - 1] <= Threshold(alpha, |p|, DependencyMultiplier(fdr, |p|), upTo) then upTo
    else LargestRejectedRank(p, fdr, alpha, upTo - 1)
  }

  /** Below 1, the minimum of the candidates from `i` on is at most `alpha` just when one of them is. */
  lemma MinimumAtMost(q: real, candidates: seq<real>, i: nat, alpha: real)
    requires IsMinimumFrom(q, candidates, i) && alpha < 1.0
    ensures q <= alpha <==> exists j :: i <= j < |candidates| && candidates[j] <= alpha
  {
  }

  /** The step-up rule: comparing adjusted values with `alpha` rejects exactly the hypotheses
    * ranked at or below the largest rank that meets its own threshold. */
  lemma StepUpRule(p: seq<real>, fdr: FdrMethod, q: seq<real>, alpha: real, i: nat)
    requires Adjusted(p, fdr, q) && i < |p|
    requires 0.0 < alpha < 1.0
    ensures DependencyMultiplier(fdr, |p|) > 0.0
    ensures q[Ordered(p)[i].0] <= alpha <==> i < LargestRejectedRank(p, fdr, alpha, |p|)
  {
    MultiplierAtLeastOne(fdr, |p|);
    MinimumAtMost(q[Ordered(p)[i].0], ScaledPValues(p, fdr), i, alpha);
    SomeRankAtOrAbove(p, fdr, alpha, i);
  }

  lemma SomeRankAtOrAbove(p: seq<real>, fdr: FdrMethod, alpha: real, i: nat)
    requires i < |p| && DependencyMultiplier(fdr, |p|) > 0.0
    ensures (exists j :: i <= j < |p| && ScaledPValues(p, fdr)[j] <= alpha)
       <==> i < LargestRejectedRank(p, fdr, alpha, |p|)
  {
    var K := LargestRejectedRank(p, fdr, alpha, |p|);
    forall j | 0 <= j < |p|
      ensures ScaledPValues(p, fdr)[j] <= alpha
         <==> SortedValues(p)[j] <= Threshold(alpha, |p|, DependencyMultiplier(fdr, |p|), j + 1)
    {
      ThresholdForms(SortedValues(p)[j], alpha, |p|, DependencyMultiplier(fdr, |p|), j + 1);
    }
    if i < K {
      assert ScaledPValues(p, fdr)[K - 1] <= alpha;
    }
  }

  lemma PositionOf(p: seq<real>, h: nat) returns (i: nat)
    requires h < |p|
    ensures i < |p| == |Ordered(p)| == |SortedValues(p)|
    ensures Ordered(p)[i].0 == h && SortedValues(p)[i] == p[h]
  {
    OrderedFacts(p);
    var k :| 0 <= k < |p| && Ordered(p)[k] == (h, p[h]);
    i := k;
    assert Values(Ordered(p))[i] == p[h];
  }

  ghost predicate Probabilities(p: seq<real>) {
    forall k | 0 <= k < |p| :: 0.0 <= p[k] <= 1.0
  }

  lemma SortedProbability(p: seq<real>, j: nat)
    requires Probabilities(p) && j < |p|
    ensures |SortedValues(p)| == |p| && 0.0 <= SortedValues(p)[j] <= 1.0
  {
    OrderedFacts(p);
    assert SortedValues(p)[j] in multiset(p);
  }

  /** A scaled p-value is never below the p-value itself. */
  lemma ScaledAtLeastRaw(p: real, count: nat, multiplier: real, rank: nat)
    requires 0.0 <= p && 1 <= rank <= count && multiplier >= 1.0
    ensures ScaledP(p, count, multiplier, rank) >= p
  {
    var x := p * count as real;
    assert x >= p * rank as real >= 0.0;
    assert x * multiplier >= x;
    LeDiv(p, x * multiplier, rank as real);
  }

  /** Of equal p-values the one with the later rank has the smaller scaled value. */
  lemma LaterRankScalesLower(p: real, count: nat, multiplier: real, rank: nat, later: nat)
    requires 0.0 <= p && 1 <= rank <= later && multiplier >= 0.0
    ensures ScaledP(p, count, multiplier, later) <= ScaledP(p, count, multiplier, rank)
  {
    assert p * count as real >= 0.0;
    var a := p * count as real * multiplier;
    assert a >= 0.0;
    var x := a / rank as real;
    assert x * rank as real == a;
    assert x >= 0.0;
    assert x * later as real >= x * rank as real;
    DivLe(a, later as real, x);
  }

  lemma LargerMultiplierScalesHigher(p: real, count: nat, m: real, n: real, rank: nat)
    requires 0.0 <= p && 1 <= rank && m <= n
    ensures ScaledP(p, count, m, rank) <= ScaledP(p, count, n, rank)
  {
    var x := p * count as real;
    assert x >= 0.0;
    assert x * n - x * m == x * (n - m) >= 0.0;
    DivLe(x * m, rank as real, x * n / rank as real);
  }

  /** What scaling keeps, for a family of p-values: no candidate is below its p-value, and
    * within a run of ties the last candidate is the smallest. */
  ghost predicate ScalesUpwards(sorted: seq<real>, candidates: seq<real>)
  {
    && |sorted| == |candidates|
    && (forall i, j | 0 <= i <= j < |sorted| :: sorted[i] <= sorted[j])
    && (forall j | 0 <= j < |sorted| :: sorted[j] <= candidates[j])
    && (forall i, j | 0 <= i <= j < |sorted| && sorted[i] == sorted[j] :: candidates[j] <= candidates[i])
  }

  lemma RawAtMostScaled(p: seq<real>, fdr: FdrMethod, j: nat)
    requires Probabilities(p) && j < |p|
    ensures SortedValues(p)[j] <= ScaledPValues(p, fdr)[j]
  {
    hide ScaledP;
    SortedProbability(p, j);
    MultiplierAtLeastOne(fdr, |p|);
    ScaledAtLeastRaw(SortedValues(p)[j], |p|, DependencyMultiplier(fdr, |p|), j + 1);
  }

  lemma TieScalesLower(p: seq<real>, fdr: FdrMethod, i: nat, j: nat)
    requires Probabilities(p) && i <= j < |p| && |SortedValues(p)| == |p| && SortedValues(p)[i] == SortedValues(p)[j]
    ensures ScaledPValues(p, fdr)[j] <= ScaledPValues(p, fdr)[i]
  {
    hide ScaledP;
    SortedProbability(p, j);
    MultiplierAtLeastOne(fdr, |p|);
    LaterRankScalesLower(SortedValues(p)[j], |p|, DependencyMultiplier(fdr, |p|), i + 1, j + 1);
  }

  lemma ScaledPValuesScaleUpwards(p: seq<real>, fdr: FdrMethod)
    requires Probabilities(p) && p != []
    ensures ScalesUpwards(SortedValues(p), ScaledPValues(p, fdr))
  {
    hide ScaledP;
    OrderedFacts(p);
    forall j | 0 <= j < |p| ensures SortedValues(p)[j] <= ScaledPValues(p, fdr)[j] {
      RawAtMostScaled(p, fdr, j);
    }
    forall i, j | 0 <= i <= j < |p| && SortedValues(p)[i] == SortedValues(p)[j]
      ensures ScaledPValues(p, fdr)[j] <= ScaledPValues(p, fdr)[i]
    {
      TieScalesLower(p, fdr, i, j);
    }
  }

  lemma MinimumNeverBelow(sorted: seq<real>, candidates: seq<real>, x: real, i: nat)
    requires ScalesUpwards(sorted, candidates) && i < |sorted| && sorted[i] <= 1.0
    requires IsMinimumFrom(x, candidates, i)
    ensures sorted[i] <= x
  {
  }

  lemma MinimumMonotone(sorted: seq<real>, candidates: seq<real>, x: real, i: nat, y: real, k: nat)
    requires ScalesUpwards(sorted, candidates) && i < |sorted| && k < |sorted|
    requires IsMinimumFrom(x, candidates, i) && IsMinimumFrom(y, candidates, k)
    requires sorted[i] <= sorted[k]
    ensures x <= y
  {
    if y != 1.0 {
      var j :| k <= j < |candidates| && y == candidates[j];
      if j < i {
        // only possible inside one run of ties
        assert sorted[k] <= sorted[j] <= sorted[i];
        assert x <= candidates[i] <= candidates[j];
      }
    }
  }

  /** Adjusting never lowers a p-value. */
  lemma NeverBelowRaw(p: seq<real>, fdr: FdrMethod, q: seq<real>, h: nat)
    requires Adjusted(p, fdr, q) && h < |p| && Probabilities(p)
    ensures p[h] <= q[h] <= 1.0
  {
    var i := PositionOf(p, h);
    ScaledPValuesScaleUpwards(p, fdr);
    MinimumNeverBelow(SortedValues(p), ScaledPValues(p, fdr), q[h], i);
  }

  /** A p-value of zero stays zero in every family. */
  lemma ZeroStaysZero(p: seq<real>, fdr: FdrMethod, q: seq<real>, h: nat)
    requires Adjusted(p, fdr, q) && h < |p| && Probabilities(p) && p[h] == 0.0
    ensures q[h] == 0.0
  {
    NeverBelowRaw(p, fdr, q, h);
    var i := PositionOf(p, h);
    var candidates := ScaledPValues(p, fdr);
    ScaledZero(|p|, DependencyMultiplier(fdr, |p|), i + 1);
    assert candidates[i] == 0.0 by { hide DependencyMultiplier, ScaledP; }
    hide Ordered, ScaledP, DependencyMultiplier;
    assert IsMinimumFrom(q[Ordered(p)[i].0], candidates, i);
  }

  lemma ScaledZero(count: nat, multiplier: real, rank: nat)
    requires rank > 0
    ensures ScaledP(0.0, count, multiplier, rank) == 0.0
  {
    var x := 0.0 * count as real * multiplier;
    assert x == 0.0;
  }

  /** Adjusted values are ordered as the p-values are; tied p-values get one adjusted value. */
  lemma MonotoneInP(p: seq<real>, fdr: FdrMethod, q: seq<real>, g: nat, h: nat)
    requires Adjusted(p, fdr, q) && g < |p| && h < |p| && Probabilities(p)
    requires p[g] <= p[h]
    ensures q[g] <= q[h]
    ensures p[g] == p[h] ==> q[g] == q[h]
  {
    var i := PositionOf(p, g);
    var k := PositionOf(p, h);
    ScaledPValuesScaleUpwards(p, fdr);
    MinimumMonotone(SortedValues(p), ScaledPValues(p, fdr), q[g], i, q[h], k);
    if p[g] == p[h] {
      MinimumMonotone(SortedValues(p), ScaledPValues(p, fdr), q[h], k, q[g], i);
    }
  }

  lemma SameSortedValues(p: seq<real>, p': seq<real>)
    requires multiset(p) == multiset(p')
    ensures SortedValues(p) == SortedValues(p')
  {
    SortPermutation(p, p', AtMost);
  }

  /** The adjustment does not depend on the order in which hypotheses are listed. */
  lemma OrderIndependent(p: seq<real>, q: seq<real>, p': seq<real>, q': seq<real>, fdr: FdrMethod, h: nat, h': nat)
    requires Adjusted(p, fdr, q) && Adjusted(p', fdr, q') && Probabilities(p)
    requires multiset(p) == multiset(p')
    requires h < |p| && h' < |p'| && p[h] == p'[h']
    ensures q[h] == q'[h']
  {
    SameSortedValues(p, p');
    assert |p| == |multiset(p)| == |p'|;
    assert ScaledPValues(p, fdr) == ScaledPValues(p', fdr);
    var i := PositionOf(p, h);
    var i' := PositionOf(p', h');
    ScaledPValuesScaleUpwards(p, fdr);
    MinimumMonotone(SortedValues(p), ScaledPValues(p, fdr), q[h], i, q'[h'], i');
    MinimumMonotone(SortedValues(p), ScaledPValues(p, fdr), q'[h'], i', q[h], i);
  }

  lemma LargerCandidatesLargerMinimum(small: seq<real>, large: seq<real>, x: real, y: real, i: nat)
    requires |small| == |large| && forall j | 0 <= j < |small| :: small[j] <= large[j]
    requires IsMinimumFrom(x, small, i) && IsMinimumFrom(y, large, i)
    ensures x <= y
  {
  }

  lemma YekutieliScalesHigher(p: seq<real>, j: nat)
    requires Probabilities(p) && j < |p|
    ensures ScaledPValues(p, BenjaminiHochberg)[j] <= ScaledPValues(p, BenjaminiYekutieli)[j]
  {
    hide ScaledP;
    SortedProbability(p, j);
    MultiplierAtLeastOne(BenjaminiYekutieli, |p|);
    LargerMultiplierScalesHigher(SortedValues(p)[j], |p|, 1.0, Harmonic(|p|), j + 1);
  }

  /** Allowing arbitrary dependence never makes an adjusted value smaller. */
  lemma YekutieliDominates(p: seq<real>, bh: seq<real>, yekutieli: seq<real>, h: nat)
    requires Adjusted(p, BenjaminiHochberg, bh) && Adjusted(p, BenjaminiYekutieli, yekutieli)
    requires Probabilities(p) && h < |p|
    ensures bh[h] <= yekutieli[h]
  {
    var i := PositionOf(p, h);
    hide ScaledP;
    var small, large := ScaledPValues(p, BenjaminiHochberg), ScaledPValues(p, BenjaminiYekutieli);
    forall j | 0 <= j < |p| ensures small[j] <= large[j] {
      YekutieliScalesHigher(p, j);
    }
    LargerCandidatesLargerMinimum(small, large, bh[h], yekutieli[h], i);
  }
}
