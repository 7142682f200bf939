/** How far the members of a dimension moved beyond the movement of the whole: shares, excess
  * over the baseline mix, and the measures taken from them (`_dimension_profile`). */
module MemberShares {
  import opened Wrappers
  import opened Totals
  import opened RealArith

  /** A member of the dimension; the derived fields are absent until the totals are known. */
  datatype Member = Member(
    value: string,
    isUnknown: bool,
    sampleEligible: bool,
    baselineAmount: real,
    targetAmount: real,
    baselineShare: Option<real>,
    targetShare: Option<real>,
    expectedTarget: Option<real>,
    excessDelta: Option<real>)

  function SafeDivide(numerator: real, denominator: real): Option<real> {
    if denominator == 0.0 then None else Some(numerator / denominator)
  }

  function Baseline(m: Member): real { m.baselineAmount }
  function Target(m: Member): real { m.targetAmount }
  function Delta(m: Member): real { m.targetAmount - m.baselineAmount }
  function Excess(m: Member): real { if m.excessDelta.Some? then m.excessDelta.value else 0.0 }
  function AbsExcess(m: Member): real { Abs(Excess(m)) }

  /** The distance between the two shares, where both are known. */
  function ShareDistance(m: Member): real {
    if m.targetShare.Some? && m.baselineShare.Some? then Abs(m.targetShare.value - m.baselineShare.value) else 0.0
  }

  function AtBaselineMix(baselineShare: Option<real>, observedTarget: real): Option<real> {
    if baselineShare.Some? then Some(baselineShare.value * observedTarget) else None
  }

  function Annotated(m: Member, observedBaseline: real, observedTarget: real): Member {
    var baselineShare := SafeDivide(m.baselineAmount, observedBaseline);
    var expected := AtBaselineMix(baselineShare, observedTarget);
    m.(baselineShare := baselineShare,
       targetShare := SafeDivide(m.targetAmount, observedTarget),
       expectedTarget := expected,
       excessDelta := if expected.Some? then Some(m.targetAmount - expected.value) else None)
  }

  /** Derived fields hold what the totals of these members say. */
  ghost predicate AnnotatedBy(members: seq<Member>, observedBaseline: real, observedTarget: real) {
    && observedBaseline == Total(members, Baseline)
    && observedTarget == Total(members, Target)
    && forall i | 0 <= i < |members| :: members[i] == Annotated(members[i], observedBaseline, observedTarget)
  }

  lemma AnnotatedTwice(m: Member, b: real, t: real)
    ensures Annotated(Annotated(m, b, t), b, t) == Annotated(m, b, t)
    ensures Baseline(Annotated(m, b, t)) == Baseline(m) && Target(Annotated(m, b, t)) == Target(m)
  {
    var n := Annotated(m, b, t);
    assert n.baselineAmount == m.baselineAmount && n.targetAmount == m.targetAmount;
    assert Annotated(n, b, t).baselineShare == n.baselineShare;
    assert Annotated(n, b, t).expectedTarget == n.expectedTarget;
  }

  method AnnotateShares(members: array<Member>) returns (observedBaseline: real, observedTarget: real)
    modifies members
    ensures observedBaseline == Total(old(members[..]), Baseline) && observedTarget == Total(old(members[..]), Target)
    ensures forall i | 0 <= i < members.Length ::
              members[i] == Annotated(old(members[i]), observedBaseline, observedTarget)
    ensures AnnotatedBy(members[..], observedBaseline, observedTarget)
  {
    hide Annotated, Total;
    observedBaseline, observedTarget := Total(members[..], Baseline), Total(members[..], Target);
    for i := 0 to members.Length
      invariant forall k | 0 <= k < i :: members[k] == Annotated(old(members[k]), observedBaseline, observedTarget)
      invariant forall k | i <= k < members.Length :: members[k] == old(members[k])
    {
      members[i] := Annotated(members[i], observedBaseline, observedTarget);
    }
    forall i | 0 <= i < members.Length
      ensures members[..][i] == Annotated(members[..][i], observedBaseline, observedTarget)
      ensures Baseline(members[i]) == Baseline(old(members[i])) && Target(members[i]) == Target(old(members[i]))
    {
      AnnotatedTwice(old(members[i]), observedBaseline, observedTarget);
    }
    TotalAgree(old(members[..]), members[..], Baseline, Baseline);
    TotalAgree(old(members[..]), members[..], Target, Target);
  }

  function AnnotatedMember(b: real, t: real): Member -> Member { m => Annotated(m, b, t) }

  lemma AnnotatingKeepsAmounts(before: seq<Member>, after: seq<Member>, b: real, t: real)
    requires |before| == |after| && forall i | 0 <= i < |after| :: after[i] == Annotated(before[i], b, t)
    ensures forall i | 0 <= i < |after| ::
              after[i].baselineAmount == before[i].baselineAmount && after[i].targetAmount == before[i].targetAmount
    ensures Total(after, Baseline) == Total(before, Baseline) && Total(after, Target) == Total(before, Target)
  {
    TotalAgree(after, before, Baseline, Baseline);
    TotalAgree(after, before, Target, Target);
  }

  // ---- The measures ----

  predicate Localizable(m: Member) { m.sampleEligible && !m.isUnknown }

  predicate HasExcess(m: Member) { Localizable(m) && m.excessDelta.Some? }

  function ExcessRanked(members: seq<Member>): seq<Member> { Filter(members, HasExcess) }

  function ExcessMovement(members: seq<Member>): real { Total(ExcessRanked(members), AbsExcess) / 2.0 }

  function Differentiation(members: seq<Member>): real { Total(ExcessRanked(members), ShareDistance) / 2.0 }

  const SMALLEST_REFERENCE: real := 0.000000000001

  function MovementReference(observedBaseline: real, observedTarget: real, tolerance: real): real {
    Max(Max(Max(Abs(observedTarget - observedBaseline), Abs(observedBaseline) * tolerance),
            Abs(observedTarget) * tolerance), SMALLEST_REFERENCE)
  }

  function ExcessChangeRatio(members: seq<Member>, observedBaseline: real, observedTarget: real,
                             tolerance: real): real {
    Min(1.0, ExcessMovement(members) / MovementReference(observedBaseline, observedTarget, tolerance))
  }

  // ---- Conservation ----

  /** The excess of a member is its shift in share, on the scale of the target total. */
  lemma ExcessIsShareShift(m: Member, b: real, t: real)
    requires b != 0.0 && t != 0.0 && m == Annotated(m, b, t)
    ensures m.excessDelta.Some? && m.targetShare.Some? && m.baselineShare.Some?
    ensures m.excessDelta.value == t * (m.targetShare.value - m.baselineShare.value)
  {
    assert t * (m.targetAmount / t) == m.targetAmount;
  }

  lemma ExcessOverBaselineMix(m: Member, b: real, t: real)
    requires b != 0.0 && m == Annotated(m, b, t)
    ensures Excess(m) == 1.0 * Target(m) + -(t / b) * Baseline(m)
  {
    ShareOfTotal(m.baselineAmount, b, t);
  }

  /** Over all members the excess cancels out: it moves amounts between members and creates none. */
  lemma ExcessSumsToZero(members: seq<Member>, b: real, t: real)
    requires AnnotatedBy(members, b, t) && b != 0.0
    ensures Total(members, Excess) == 0.0
  {
    hide Annotated, Excess, Total;
    var rate := t / b;
    forall i | 0 <= i < |members|
      ensures Excess(members[i]) == 1.0 * Target(members[i]) + -rate * Baseline(members[i])
    {
      ExcessOverBaselineMix(members[i], b, t);
    }
    TotalLinear(members, Target, Baseline, Excess, 1.0, -rate);
    assert rate * b == t;
  }

  lemma ShareOfTotal(x: real, b: real, t: real)
    requires b != 0.0
    ensures (x / b) * t == (t / b) * x
  {
    var u, v := x / b, t / b;
    assert u * b == x && v * b == t;
    assert u * t == u * (v * b) == v * (u * b);
  }

  function Gain(m: Member): real { Max(Excess(m), 0.0) }
  function Loss(m: Member): real { Max(-Excess(m), 0.0) }

  lemma EveryoneHasExcess(members: seq<Member>, b: real, t: real)
    requires AnnotatedBy(members, b, t) && b != 0.0
    requires forall m | m in members :: Localizable(m)
    ensures ExcessRanked(members) == members
  {
    forall m | m in members ensures HasExcess(m) {
      var i :| 0 <= i < |members| && members[i] == m;
      assert members[i] == Annotated(members[i], b, t);
    }
    FilterAll(members, HasExcess);
  }

  /** What some members gained is what the others lost, and either is the movement measured. */
  lemma MovementIsWhatChangedHands(members: seq<Member>, b: real, t: real)
    requires AnnotatedBy(members, b, t) && b != 0.0
    requires forall m | m in members :: Localizable(m)
    ensures Total(members, Gain) == Total(members, Loss) == ExcessMovement(members)
  {
    hide AnnotatedBy, Total, Localizable, Excess, ExcessRanked;
    ExcessSumsToZero(members, b, t);
    EveryoneHasExcess(members, b, t);
    forall i | 0 <= i < |members|
      ensures Gain(members[i]) == 0.5 * AbsExcess(members[i]) + 0.5 * Excess(members[i])
      ensures Loss(members[i]) == 0.5 * AbsExcess(members[i]) + -0.5 * Excess(members[i])
    {
    }
    TotalLinear(members, AbsExcess, Excess, Gain, 0.5, 0.5);
    TotalLinear(members, AbsExcess, Excess, Loss, 0.5, -0.5);
  }

  lemma {:induction false} FilterAll<T>(xs: seq<T>, keep: T -> bool)
    requires forall x | x in xs :: keep(x)
    ensures Filter(xs, keep) == xs
  {
    if xs != [] {
      assert xs[0] in xs;
      FilterAll(xs[1..], keep);
    }
  }

  lemma RankedAreAnnotated(members: seq<Member>, b: real, t: real)
    requires AnnotatedBy(members, b, t)
    ensures forall i | 0 <= i < |ExcessRanked(members)| ::
              ExcessRanked(members)[i] == Annotated(ExcessRanked(members)[i], b, t)
                  && HasExcess(ExcessRanked(members)[i])
  {
    var ranked := ExcessRanked(members);
    forall i | 0 <= i < |ranked| ensures ranked[i] == Annotated(ranked[i], b, t) && HasExcess(ranked[i]) {
      assert ranked[i] in ranked;
      var k :| 0 <= k < |members| && members[k] == ranked[i];
    }
  }

  lemma MeasuresOfOneMember(m: Member, b: real, t: real)
    requires b != 0.0 && t != 0.0 && m == Annotated(m, b, t)
    ensures AbsExcess(m) == Abs(t) * ShareDistance(m) + 0.0 * ShareDistance(m)
  {
    ExcessIsShareShift(m, b, t);
    AbsProduct(t, m.targetShare.value - m.baselineShare.value);
  }

  /** The two measures of movement are one measure on two scales. */
  lemma MovementOnTheScaleOfShares(members: seq<Member>, b: real, t: real)
    requires AnnotatedBy(members, b, t) && b != 0.0 && t != 0.0
    ensures ExcessMovement(members) == Abs(t) * Differentiation(members)
  {
    hide Annotated, AnnotatedBy, AbsExcess, ShareDistance, ExcessRanked, Total, HasExcess;
    var ranked := ExcessRanked(members);
    RankedAreAnnotated(members, b, t);
    forall i | 0 <= i < |ranked|
      ensures AbsExcess(ranked[i]) == Abs(t) * ShareDistance(ranked[i]) + 0.0 * ShareDistance(ranked[i])
    {
      MeasuresOfOneMember(ranked[i], b, t);
    }
    TotalLinear(ranked, ShareDistance, ShareDistance, AbsExcess, Abs(t), 0.0);
    HalfOfProduct(Abs(t), Total(ranked, ShareDistance), Total(ranked, AbsExcess));
  }

  lemma HalfOfProduct(x: real, y: real, z: real)
    requires z == x * y
    ensures z / 2.0 == x * (y / 2.0)
  {
  }

  lemma AbsProduct(x: real, y: real)
    ensures Abs(x * y) == Abs(x) * Abs(y)
  {
    if x > 0.0 && y > 0.0 { ProductPositive(x, y); }
    if x > 0.0 && y < 0.0 { ProductPositive(x, -y); }
    if x < 0.0 && y > 0.0 { ProductPositive(-x, y); }
    if x < 0.0 && y < 0.0 { ProductPositive(-x, -y); }
  }

  lemma NoExcessWithoutBaseline(members: seq<Member>, t: real)
    requires AnnotatedBy(members, 0.0, t)
    ensures ExcessRanked(members) == []
  {
    RankedAreAnnotated(members, 0.0, t);
    var ranked := ExcessRanked(members);
    assert |ranked| > 0 ==> ranked[0] == Annotated(ranked[0], 0.0, t);
  }

  lemma {:induction false} TotalZero<T>(xs: seq<T>, f: T -> real)
    requires forall i | 0 <= i < |xs| :: 0.0 <= f(xs[i])
    ensures Total(xs, f) == 0.0 <==> forall i | 0 <= i < |xs| :: f(xs[i]) == 0.0
  {
    if xs != [] {
      assert 0.0 <= f(xs[0]);
      TotalNonNegative(xs[1..], f);
      TotalZero(xs[1..], f);
      forall i | 0 <= i < |xs| && Total(xs, f) == 0.0 ensures f(xs[i]) == 0.0 {
        if i > 0 { assert xs[i] == xs[1..][i - 1]; }
      }
    }
  }

  /** With no target amount in total the shares are unknown, and the measures part company
    * exactly when some measured member still has a target amount. */
  lemma WhenTheMeasuresAgree(members: seq<Member>, b: real, t: real)
    requires AnnotatedBy(members, b, t)
    ensures ExcessMovement(members) == Abs(t) * Differentiation(members)
            <==> t != 0.0 || forall i | 0 <= i < |ExcessRanked(members)| :: ExcessRanked(members)[i].targetAmount == 0.0
  {
    var ranked := ExcessRanked(members);
    if b == 0.0 {
      NoExcessWithoutBaseline(members, t);
    } else if t != 0.0 {
      MovementOnTheScaleOfShares(members, b, t);
    } else {
      RankedAreAnnotated(members, b, t);
      forall i | 0 <= i < |ranked| ensures AbsExcess(ranked[i]) == Abs(ranked[i].targetAmount) { }
      TotalZero(ranked, AbsExcess);
    }
  }

  lemma AnnotatedWithoutTarget(m: Member)
    requires m.baselineAmount == 1.0
    ensures Annotated(m, 2.0, 0.0)
            == m.(baselineShare := Some(0.5), targetShare := None, expectedTarget := Some(0.0),
                  excessDelta := Some(m.targetAmount))
  {
  }

  const Sold: Member := Member("", false, true, 1.0, 1.0, Some(0.5), None, Some(0.0), Some(1.0))

  const Refunded: Member := Member("", false, true, 1.0, -1.0, Some(0.5), None, Some(0.0), Some(-1.0))

  lemma SoldAndRefunded()
    ensures AnnotatedBy([Sold, Refunded], 2.0, 0.0)
  {
    AnnotatedWithoutTarget(Sold);
    AnnotatedWithoutTarget(Refunded);
    hide Annotated, Total;
    TotalOfTwo(Sold, Refunded, Baseline);
    TotalOfTwo(Sold, Refunded, Target);
  }

  lemma MovementOfTheTwo()
    ensures ExcessMovement([Sold, Refunded]) == 1.0
  {
    hide Total, Filter;
    FilterAll([Sold, Refunded], HasExcess);
    TotalOfTwo(Sold, Refunded, AbsExcess);
  }

  lemma NoScale(x: real)
    ensures Abs(0.0) * x == 0.0
  {
  }

  /** Two members of equal baseline, one of which sells one and one of which refunds one. */
  lemma TheMeasuresCanPartCompany()
    ensures AnnotatedBy([Sold, Refunded], 2.0, 0.0)
    ensures ExcessMovement([Sold, Refunded]) == 1.0 && Abs(0.0) * Differentiation([Sold, Refunded]) == 0.0
  {
    hide *;
    SoldAndRefunded();
    MovementOfTheTwo();
    NoScale(Differentiation([Sold, Refunded]));
  }

  // ---- Bounds ----

  lemma DifferentiationIsNotNegative(members: seq<Member>)
    ensures 0.0 <= Differentiation(members)
  {
    TotalNonNegative(ExcessRanked(members), ShareDistance);
  }

  lemma TotalOfTwo<T>(x: T, y: T, f: T -> real)
    ensures Total([x, y], f) == f(x) + f(y)
  {
    assert [x, y][1..] == [y] && [y][1..] == [];
    assert Total([y], f) == f(y) + Total([], f);
  }

  /** The ratio is a proportion whatever the amounts and the tolerance. */
  lemma RatioBounds(members: seq<Member>, b: real, t: real, tolerance: real)
    ensures 0.0 <= ExcessChangeRatio(members, b, t, tolerance) <= 1.0
    ensures ExcessChangeRatio(members, b, t, tolerance) == 1.0
            <==> ExcessMovement(members) >= MovementReference(b, t, tolerance)
  {
    var reference := MovementReference(b, t, tolerance);
    TotalNonNegative(ExcessRanked(members), AbsExcess);
    var movement := ExcessMovement(members);
    assert reference > 0.0 && movement >= 0.0;
    hide MovementReference, ExcessMovement;
    LeDiv(0.0, movement, reference);
    LeDiv(1.0, movement, reference);
    var ratio := movement / reference;
    assert ratio >= 0.0 && (1.0 <= ratio <==> reference <= movement);
  }

  // ---- Coverage by the leading factor ----

  function MovementSize(m: Member): real { Abs(Delta(m)) }

  /** The share of the absolute movement that runs with the leading factor. */
  function AlignmentCoverage(members: seq<Member>, aligns: Member -> bool): real {
    var localizable := Filter(members, Localizable);
    var movement := Total(localizable, MovementSize);
    if movement == 0.0 then 0.0 else Total(Filter(localizable, aligns), MovementSize) / movement
  }

  lemma CoverageBounds(members: seq<Member>, aligns: Member -> bool)
    ensures 0.0 <= AlignmentCoverage(members, aligns) <= 1.0
  {
    var localizable := Filter(members, Localizable);
    var movement := Total(localizable, MovementSize);
    TotalFilter(localizable, aligns, MovementSize);
    var aligned := Total(Filter(localizable, aligns), MovementSize);
    if movement != 0.0 {
      assert 0.0 <= aligned <= movement;
      LeDiv(0.0, aligned, movement);
      DivLe(aligned, movement, 1.0);
    }
  }
}
