/** The figures of a dimension told by the amounts of its members: which members count, what is summed up over
  * them, and what it is compared with. */
module DimensionFigures {
  import opened Wrappers
  import opened Totals
  import opened Tallies
  import opened RealArith
  import opened MemberShares
  import opened DimensionCells
  import opened DiagnosticPriority

  /** A member counts when it was sampled enough and is known by name. */
  predicate Counted(m: Member) { m.sampleEligible && !m.isUnknown }

  function CountedAnd(aligns: Member -> bool): Member -> bool { (m: Member) => Counted(m) && aligns(m) }

  /** How far it moved. */
  function Moved(m: Member): real {
    if m.targetAmount >= m.baselineAmount then m.targetAmount - m.baselineAmount else m.baselineAmount - m.targetAmount
  }

  /** The coverage of a leading factor is the share of the movement of the members that count which belongs to
    * those that run with the factor; it is zero when none of them moved. */
  lemma CoverageExactly(members: seq<Member>, aligns: Member -> bool)
    ensures var all, aligned := SumOver(members, Counted, Moved),
                                SumOver(members, CountedAnd(aligns), Moved);
      && AlignmentCoverage(members, aligns) * all == aligned
      && (all == 0.0 ==> AlignmentCoverage(members, aligns) == 0.0)
  {
    hide *;
    var all, aligned := SumOver(members, Counted, Moved), SumOver(members, CountedAnd(aligns), Moved);
    MovementOfCounted(members);
    AlignedOfCounted(members, aligns);
    MovedIsNotNegative();
    SumNotNegative(members, CountedAnd(aligns), Moved);
    AlignedAreFewer(members, aligns);
    CoverageOf(members, aligns, all, aligned);
  }

  lemma AlignedAreFewer(members: seq<Member>, aligns: Member -> bool)
    ensures SumOver(members, CountedAnd(aligns), Moved) <= SumOver(members, Counted, Moved)
  {
    SumOfFewer(members, CountedAnd(aligns), Counted, Moved);
  }

  lemma MovedIsNotNegative()
    ensures forall m :: Moved(m) >= 0.0
  {
  }

  lemma MovementOfCounted(members: seq<Member>)
    ensures Total(Filter(members, Localizable), MovementSize) == SumOver(members, Counted, Moved)
  {
    SumOfFiltered(members, Localizable, MovementSize, Counted, Moved);
  }

  lemma CoverageOf(members: seq<Member>, aligns: Member -> bool, all: real, aligned: real)
    requires all == Total(Filter(members, Localizable), MovementSize) >= aligned >= 0.0
    requires aligned == Total(Filter(Filter(members, Localizable), aligns), MovementSize)
    ensures AlignmentCoverage(members, aligns) * all == aligned
    ensures all == 0.0 ==> AlignmentCoverage(members, aligns) == 0.0
  {
    hide Total, Filter;
    if all != 0.0 { assert AlignmentCoverage(members, aligns) == aligned / all; }
  }

  lemma AlignedOfCounted(members: seq<Member>, aligns: Member -> bool)
    ensures Total(Filter(Filter(members, Localizable), aligns), MovementSize)
            == SumOver(members, CountedAnd(aligns), Moved)
  {
    FilterTwice(members, Localizable, aligns, CountedAnd(aligns));
    SumOfFiltered(members, CountedAnd(aligns), MovementSize, CountedAnd(aligns), Moved);
  }

  /** How the whole has grown. */
  function Growth(b: real, t: real): Option<real> { if b == 0.0 then None else Some(t / b) }

  /** What the member has beyond, or lacks of, its baseline amount grown like the whole. */
  function Beyond(growth: Option<real>): Member -> real {
    (m: Member) => if growth.None? then 0.0 else Apart(m, growth.value)
  }

  function Apart(m: Member, rate: real): real { Abs(m.targetAmount - rate * m.baselineAmount) }

  /** Twice the excess movement is what the members that count have beyond, or lack of, their baseline amounts
    * grown like the whole. */
  lemma MovementExactly(members: seq<Member>, b: real, t: real)
    requires AnnotatedBy(members, b, t)
    ensures 2.0 * ExcessMovement(members) == SumOver(members, Counted, Beyond(Growth(b, t)))
  {
    var beyond := Beyond(Growth(b, t));
    forall m | m in members
      ensures if HasExcess(m) then Counted(m) && beyond(m) == AbsExcess(m) else Counted(m) ==> beyond(m) == 0.0
    {
      var i :| 0 <= i < |members| && members[i] == m;
      BeyondIsExcess(m, b, t);
    }
    hide AnnotatedBy, Annotated, Growth;
    SumOfFiltered(members, HasExcess, AbsExcess, Counted, beyond);
  }

  lemma BeyondIsExcess(m: Member, b: real, t: real)
    requires m == Annotated(m, b, t)
    ensures m.excessDelta.Some? <==> b != 0.0
    ensures if b != 0.0 then Beyond(Growth(b, t))(m) == AbsExcess(m) else Beyond(Growth(b, t))(m) == 0.0
  {
    if b != 0.0 {
      ExcessOverBaselineMix(m, b, t);
      hide Annotated;
      BeyondAtRate(m, t / b);
    }
  }

  lemma BeyondAtRate(m: Member, rate: real)
    requires Excess(m) == 1.0 * Target(m) + -rate * Baseline(m)
    ensures Beyond(Some(rate))(m) == AbsExcess(m)
  {
    NegatedProduct(rate, m.baselineAmount);
    assert Excess(m) == m.targetAmount - rate * m.baselineAmount;
    assert AbsExcess(m) == Apart(m, rate);
  }

  lemma NegatedProduct(x: real, y: real)
    ensures -x * y == -(x * y)
  {
  }

  /** How far the two shares of the member are apart. */
  function SharesApart(b: real, t: real): Member -> real
  {
    (m: Member) => if b == 0.0 || t == 0.0 then 0.0 else Abs(m.targetAmount / t - m.baselineAmount / b)
  }

  /** Twice the differentiation is how far the shares of the members that count are apart. */
  lemma DifferentiationExactly(members: seq<Member>, b: real, t: real)
    requires AnnotatedBy(members, b, t)
    ensures 2.0 * Differentiation(members) == SumOver(members, Counted, SharesApart(b, t))
  {
    forall m | m in members
      ensures if HasExcess(m) then Counted(m) && SharesApart(b, t)(m) == ShareDistance(m)
              else Counted(m) ==> SharesApart(b, t)(m) == 0.0
    {
      var i :| 0 <= i < |members| && members[i] == m;
      assert m == Annotated(m, b, t);
    }
    hide AnnotatedBy, Annotated;
    SumOfFiltered(members, HasExcess, ShareDistance, Counted, SharesApart(b, t));
  }

  /** The change ratio is the excess movement over the greatest of these: the change of the whole, the tolerance
    * on each total, and a smallest number; but never more than one. */
  lemma RatioExactly(members: seq<Member>, b: real, t: real, tolerance: real, reference: real)
    requires reference in [Abs(t - b), Abs(b) * tolerance, Abs(t) * tolerance, 0.000000000001]
    requires Abs(t - b) <= reference && Abs(b) * tolerance <= reference && Abs(t) * tolerance <= reference
    requires 0.000000000001 <= reference
    ensures var ratio, movement := ExcessChangeRatio(members, b, t, tolerance), ExcessMovement(members);
      if movement >= reference then ratio == 1.0 else ratio * reference == movement
  {
    hide ExcessMovement;
    GreatestOfFour(Abs(t - b), Abs(b) * tolerance, Abs(t) * tolerance, reference);
    RatioToReference(ExcessMovement(members), reference);
  }

  lemma GreatestOfFour(x: real, y: real, z: real, greatest: real)
    requires x <= greatest && y <= greatest && z <= greatest && SMALLEST_REFERENCE <= greatest
    requires greatest == x || greatest == y || greatest == z || greatest == SMALLEST_REFERENCE
    ensures Max(Max(Max(x, y), z), SMALLEST_REFERENCE) == greatest
  {
  }

  lemma RatioToReference(movement: real, reference: real)
    requires reference > 0.0
    ensures if movement >= reference then Min(1.0, movement / reference) == 1.0
            else Min(1.0, movement / reference) * reference == movement
  {
    LeDiv(1.0, movement, reference);
    var ratio := movement / reference;
    assert ratio * reference == movement;
    if movement < reference { DivLe(movement, reference, 1.0); }
  }

  // ---- Members ----

  /** What annotating adds to a member: shares that give its amounts back, the baseline amount grown like the
    * whole, and what the target amount has beyond it; nothing where the total is zero. */
  lemma AnnotatedExactly(m: Member, b: real, t: real)
    ensures var n := Annotated(m, b, t);
      && n.value == m.value && n.isUnknown == m.isUnknown && n.sampleEligible == m.sampleEligible
      && n.baselineAmount == m.baselineAmount && n.targetAmount == m.targetAmount
      && (n.baselineShare.None? <==> b == 0.0) && (n.targetShare.None? <==> t == 0.0)
      && (n.expectedTarget.None? <==> b == 0.0) && (n.excessDelta.None? <==> b == 0.0)
      && (b != 0.0 ==> n.baselineShare.value * b == m.baselineAmount)
      && (t != 0.0 ==> n.targetShare.value * t == m.targetAmount)
      && (b != 0.0 ==> n.expectedTarget.value == n.baselineShare.value * t)
      && (b != 0.0 ==> n.excessDelta.value == m.targetAmount - n.expectedTarget.value)
  {
  }

  /** The weights of the score and what each component contributes: 45, 35 and 20 percent, or without a leading
    * factor 45 and 35 eightieths. */
  lemma WeightsExactly(ratio: real, differentiation: real, alignment: Option<real>)
    ensures Measurable(BaseMeasures(ratio, differentiation, alignment))
    ensures var c := Explanations(BaseMeasures(ratio, differentiation, alignment));
      && |c| == 3 && c[0].value == Some(ratio) && c[1].value == Some(differentiation) && c[2].value == alignment
      && match alignment {
           case Some(coverage) =>
             && c[0].weight == Some(0.45) && c[1].weight == Some(0.35) && c[2].weight == Some(0.2)
             && c[0].contribution == Some(0.45 * ratio) && c[1].contribution == Some(0.35 * differentiation)
             && c[2].contribution == Some(0.2 * coverage)
           case None =>
             && c[0].weight == Some(0.5625) && c[1].weight == Some(0.4375) && c[2].weight == None
             && c[0].contribution == Some(0.5625 * ratio) && c[1].contribution == Some(0.4375 * differentiation)
             && c[2].contribution == None
         }
  {
    BaseMeasuresAreMeasurable(ratio, differentiation, alignment);
    TotalOfBaseMeasures(ratio, differentiation, alignment, WeightIn);
    var ms := BaseMeasures(ratio, differentiation, alignment);
    var w := Total(ms, WeightIn);
    hide Total;
    if alignment.Some? {
      ContributionAt(ms[0], w, 0.45);
      ContributionAt(ms[1], w, 0.35);
      ContributionAt(ms[2], w, 0.2);
    } else {
      ContributionAt(ms[0], w, 0.5625);
      ContributionAt(ms[1], w, 0.4375);
    }
  }

  lemma ContributionAt(m: Measure, measuredWeight: real, weight: real)
    requires measuredWeight != 0.0 && m.value.Some? && m.baseWeight / measuredWeight == weight
    ensures Explained(m, measuredWeight).weight == Some(weight)
    ensures Explained(m, measuredWeight).contribution.Some?
    ensures Explained(m, measuredWeight).contribution.value == weight * m.value.value
  {
    var c := Explained(m, measuredWeight);
    assert c.contribution.value == m.value.value * c.weight.value;
    Commuted(m.value.value, c.weight.value, weight);
  }

  lemma Commuted(x: real, y: real, z: real)
    requires y == z
    ensures x * y == z * x
  {
  }

  // ---- Rows ----

  /** The row belongs to one of the two periods and has an amount. */
  predicate IsUsable(p: Periods, row: Row) { row.amount.Some? && row.group in {p.baseline, p.target} }

  function Amount(row: Row): real { match row.amount case Some(x) => x case None => 0.0 }

  function Orders(row: Row): real { match row.orders case Some(x) => x case None => 0.0 }

  function Users(row: Row): real { match row.users case Some(x) => x case None => 0.0 }

  predicate IsOf(p: Periods, k: Key, row: Row) { IsUsable(p, row) && row.value == k.value && row.group == k.group }

  /** A cell adds up the usable rows of its member and period: amounts, orders and users. */
  lemma CellExactly(p: Periods, rows: seq<Row>, k: Key)
    ensures var cell := CellOf(p, rows, k);
      && cell.amount == SumOver(rows, row => IsOf(p, k, row), Amount)
      && cell.orders == SumOver(rows, row => IsOf(p, k, row), Orders)
      && cell.users == SumOver(rows, row => IsOf(p, k, row), Users)
      && (cell.ordersObserved <==> exists row :: row in rows && IsOf(p, k, row) && row.orders.Some?)
      && (cell.usersObserved <==> exists row :: row in rows && IsOf(p, k, row) && row.users.Some?)
  {
    var counts := (row: Row) => IsOf(p, k, row);
    SumOfFigures(rows, AmountIn(p, k), counts, Amount);
    SumOfFigures(rows, OrdersIn(p, k), counts, Orders);
    SumOfFigures(rows, UsersIn(p, k), counts, Users);
    hide Total, SumOver;
  }
}
