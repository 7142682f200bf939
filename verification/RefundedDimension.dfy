/** Rows of a dimension with one refund, for which its differentiation and its priority exceed one. */
module RefundedDimension {
  import opened Wrappers
  import opened Totals
  import opened References
  import opened MemberShares
  import opened DifferentiationScore
  import opened DimensionCells
  import opened DiagnosticPriority

  const TwoPeriods: Periods := Periods("before", "after")

  const SoldBefore: Row := Row("before", "shop", Some(2.0), None, None, Some(1))

  const RefundedBefore: Row := Row("before", "returns", Some(-1.0), None, None, Some(1))

  const SoldAfter: Row := Row("after", "returns", Some(1.0), None, None, Some(1))

  const RefundRows: seq<Row> := [SoldBefore, RefundedBefore, SoldAfter]

  const Shop: Member := Member("shop", false, true, 2.0, 0.0, None, None, None, None)

  const Returns: Member := Member("returns", false, true, -1.0, 1.0, None, None, None, None)

  /** The two members with their derived fields. */
  function RefundMembers(): seq<Member> {
    [Shop.(baselineShare := Some(2.0), targetShare := Some(0.0), expectedTarget := Some(2.0),
           excessDelta := Some(-2.0)),
     Returns.(baselineShare := Some(-1.0), targetShare := Some(1.0), expectedTarget := Some(-1.0),
              excessDelta := Some(2.0))]
  }

  lemma AmountsOfThree(f: Row -> real)
    ensures Total(RefundRows, f) == f(SoldBefore) + f(RefundedBefore) + f(SoldAfter)
  {
    assert RefundRows == [SoldBefore, RefundedBefore] + [SoldAfter];
    TotalSnoc([SoldBefore, RefundedBefore], SoldAfter, f);
    TotalOfTwo(SoldBefore, RefundedBefore, f);
  }

  lemma SamplesOfThree(f: Row -> seq<int>)
    ensures Collect(RefundRows, f) == f(SoldBefore) + f(RefundedBefore) + f(SoldAfter)
  {
    assert RefundRows == [SoldBefore, RefundedBefore] + [SoldAfter];
    assert [SoldBefore, RefundedBefore] == [SoldBefore] + [RefundedBefore];
    CollectSnoc([SoldBefore, RefundedBefore], SoldAfter, f);
    CollectSnoc([SoldBefore], RefundedBefore, f);
    CollectOne(SoldBefore, f);
  }

  lemma RefundCell(value: string, group: string, amount: real, samples: seq<int>)
    requires var k := Key(value, group);
      && amount == AmountIn(TwoPeriods, k)(SoldBefore) + AmountIn(TwoPeriods, k)(RefundedBefore)
                   + AmountIn(TwoPeriods, k)(SoldAfter)
      && samples == SamplesIn(TwoPeriods, k)(SoldBefore) + SamplesIn(TwoPeriods, k)(RefundedBefore)
                    + SamplesIn(TwoPeriods, k)(SoldAfter)
    ensures CellOf(TwoPeriods, RefundRows, Key(value, group)).amount == amount
    ensures CellOf(TwoPeriods, RefundRows, Key(value, group)).samples == samples
  {
    var k := Key(value, group);
    AmountsOfThree(AmountIn(TwoPeriods, k));
    SamplesOfThree(SamplesIn(TwoPeriods, k));
    hide Total, Collect, AmountIn, SamplesIn;
  }

  lemma Names()
    ensures FirstSeen(TwoPeriods, RefundRows) == ["shop", "returns"]
  {
    assert RefundRows == [] + [SoldBefore] + [RefundedBefore] + [SoldAfter];
    FirstSeenSnoc(TwoPeriods, [] + [SoldBefore] + [RefundedBefore], SoldAfter);
    FirstSeenSnoc(TwoPeriods, [] + [SoldBefore], RefundedBefore);
    FirstSeenSnoc(TwoPeriods, [], SoldBefore);
    assert FirstSeen(TwoPeriods, []) == [];
  }

  lemma ShopOfRows()
    ensures MemberOfRows(TwoPeriods, RefundRows, 1)("shop") == Shop
  {
    RefundCell("shop", "before", 2.0, [1]);
    RefundCell("shop", "after", 0.0, []);
    hide CellOf;
  }

  lemma ReturnsOfRows()
    ensures MemberOfRows(TwoPeriods, RefundRows, 1)("returns") == Returns
  {
    RefundCell("returns", "before", -1.0, [1]);
    RefundCell("returns", "after", 1.0, [1]);
    hide CellOf;
  }

  lemma RefundMembersOfRows()
    ensures MembersOfRows(TwoPeriods, RefundRows, true, 1) == [Shop, Returns]
  {
    Names();
    ShopOfRows();
    ReturnsOfRows();
    FilterAll(["shop", "returns"], KeptOfRows(TwoPeriods, RefundRows, true));
    hide MemberOfRows, FirstSeen, Filter;
  }

  lemma RefundMembersAreAnnotated()
    ensures Total([Shop, Returns], Baseline) == 1.0 && Total([Shop, Returns], Target) == 1.0
    ensures Map([Shop, Returns], AnnotatedMember(1.0, 1.0)) == RefundMembers()
    ensures AnnotatedBy(RefundMembers(), 1.0, 1.0)
  {
    TotalOfTwo(Shop, Returns, Baseline);
    TotalOfTwo(Shop, Returns, Target);
    TotalOfTwo(RefundMembers()[0], RefundMembers()[1], Baseline);
    TotalOfTwo(RefundMembers()[0], RefundMembers()[1], Target);
    hide Total;
  }

  lemma ScoreOfRefund()
    ensures Differentiation(RefundMembers()) == 2.0
  {
    RefundMembersAreAnnotated();
    TotalOfTwo(RefundMembers()[0], RefundMembers()[1], KeptOf(1.0, 1.0));
    hide Total, AnnotatedBy, Differentiation;
    ScoreIsWhatIsNotKept(RefundMembers(), 1.0, 1.0);
  }

  lemma RatioOfRefund()
    ensures ExcessChangeRatio(RefundMembers(), 1.0, 1.0, 0.01) == 1.0
  {
    RefundMembersAreAnnotated();
    ScoreOfRefund();
    MovementOnTheScaleOfShares(RefundMembers(), 1.0, 1.0);
    hide AnnotatedBy, Differentiation, ExcessMovement;
    RatioBounds(RefundMembers(), 1.0, 1.0, 0.01);
  }

  lemma PriorityOfRefund()
    ensures WeightedMean(BaseMeasures(1.0, 2.0, None)) == 1.4375
  {
    ScoreWithoutLeadingFactor(1.0, 2.0);
  }

  /** A window in which everything sold is sold by the member that was refunded before: the members of these
    * rows, as the profile makes them, have a differentiation of two and a priority above one. */
  lemma RefundBreaksTheBound()
    ensures MembersOfRows(TwoPeriods, RefundRows, true, 1) == [Shop, Returns]
    ensures var members := Map([Shop, Returns], AnnotatedMember(1.0, 1.0));
      && AnnotatedBy(members, 1.0, 1.0) && members == RefundMembers()
      && Differentiation(members) == 2.0
      && WeightedMean(BaseMeasures(ExcessChangeRatio(members, 1.0, 1.0, 0.01), Differentiation(members), None))
         == 1.4375
  {
    hide *;
    RefundMembersOfRows();
    RefundMembersAreAnnotated();
    ScoreOfRefund();
    RatioOfRefund();
    PriorityOfRefund();
  }
}
