/** The profile of a dimension from its rows to its score (`_dimension_profile`). */
module DimensionProfile {
  import opened Wrappers
  import opened Totals
  import opened References
  import opened MemberShares
  import opened DifferentiationScore
  import opened DimensionCells
  import opened DiagnosticPriority

  datatype Profile = Profile(
    members: seq<Member>, observedBaseline: real, observedTarget: real,
    excessMovement: real, differentiation: real, excessChangeRatio: real, alignment: Option<real>, priority: real,
    invalidRows: nat, incompleteValues: nat)

  predicate NoNegativeAmount(rows: seq<Row>) {
    forall row | row in rows && row.amount.Some? :: row.amount.value >= 0.0
  }

  lemma CellsAreNotNegative(p: Periods, rows: seq<Row>, k: Key)
    requires NoNegativeAmount(rows)
    ensures CellOf(p, rows, k).amount >= 0.0
  {
    forall i | 0 <= i < |rows| ensures 0.0 <= AmountIn(p, k)(rows[i]) { assert rows[i] in rows; }
    TotalNonNegative(rows, AmountIn(p, k));
  }

  lemma MembersAreNotNegative(p: Periods, rows: seq<Row>, order: seq<string>, cells: map<Key, Cell>,
                              minSampleSize: int, values: seq<string>, members: seq<Member>)
    requires Paired(p, rows, order, cells) && MembersOfValues(p, cells, minSampleSize, values, members)
             && NoNegativeAmount(rows)
    ensures forall i | 0 <= i < |members| :: 0.0 <= members[i].baselineAmount && 0.0 <= members[i].targetAmount
  {
    hide Distinct, HasMember, HasCell, Samples, CellOf, NoNegativeAmount;
    forall i | 0 <= i < |members| ensures 0.0 <= members[i].baselineAmount && 0.0 <= members[i].targetAmount {
      var b, t := Key(values[i], p.baseline), Key(values[i], p.target);
      assert Stored(cells, b) == CellOf(p, rows, b) && Stored(cells, t) == CellOf(p, rows, t);
      CellsAreNotNegative(p, rows, b);
      CellsAreNotNegative(p, rows, t);
    }
  }

  /** The members are those of the rows with their derived fields, and every figure is the measure of
    * that name; in a complete window the totals are those of the rows, the priority is a proportion when
    * differentiation is, and without negative amounts both are. */
  method ProfileDimension(p: Periods, rows: seq<Row>, complete: bool, minSampleSize: int, tolerance: real,
                          aligns: Option<Member -> bool>)
    returns (profile: Profile)
    ensures var found := MembersOfRows(p, rows, complete, minSampleSize);
      && profile.observedBaseline == Total(found, Baseline) && profile.observedTarget == Total(found, Target)
      && profile.members == Map(found, AnnotatedMember(profile.observedBaseline, profile.observedTarget))
      && profile.incompleteValues == |FirstSeen(p, rows)| - |found|
    ensures profile.invalidRows == |Filter(rows, (row: Row) => !IsValid(p, row))|
    ensures AnnotatedBy(profile.members, profile.observedBaseline, profile.observedTarget)
    ensures complete ==> profile.observedBaseline == Total(rows, AmountOf(p, p.baseline))
                         && profile.observedTarget == Total(rows, AmountOf(p, p.target))
    ensures profile.excessMovement == ExcessMovement(profile.members)
            && profile.differentiation == Differentiation(profile.members)
    ensures profile.excessChangeRatio
            == ExcessChangeRatio(profile.members, profile.observedBaseline, profile.observedTarget, tolerance)
    ensures profile.alignment == if aligns.Some? then Some(AlignmentCoverage(profile.members, aligns.value)) else None
    ensures profile.priority
            == WeightedMean(BaseMeasures(profile.excessChangeRatio, profile.differentiation, profile.alignment))
    ensures 0.0 <= profile.priority && (profile.differentiation <= 1.0 ==> profile.priority <= 1.0)
    ensures NoNegativeAmount(rows) ==> profile.differentiation <= 1.0
  {
    hide Paired, MembersOfValues, AnnotatedBy, Annotated, NoNegativeAmount, KeptValues, DroppedValues, Total,
         Measurable, BaseMeasures, WeightedMean, Explanations, ExcessMovement, Differentiation, ExcessChangeRatio,
         AlignmentCoverage, CellAmount, AmountOf, FirstSeen, MembersOfRows, Filter, IsValid;
    var order, cells, invalidRows := PairRows(p, rows);
    var found, incompleteValues := MeasureMembers(p, order, cells, complete, minSampleSize);
    AmountsAreConserved(p, rows, order, cells, complete, minSampleSize, found);
    NothingToAdd(p, rows, order, cells, complete);
    MembersAreThoseOfRows(p, rows, order, cells, complete, minSampleSize, found);
    assert order == FirstSeen(p, rows) by { OrderIsFirstSeen(p, rows, order, cells); }
    var a := new Member[|found|](i requires 0 <= i < |found| => found[i]);
    assert a[..] == found;
    var b, t := AnnotateShares(a);
    var members := a[..];
    AnnotatingKeepsAmounts(found, members, b, t);
    assert members == Map(found, AnnotatedMember(b, t));
    var ratio, differentiation := ExcessChangeRatio(members, b, t, tolerance), Differentiation(members);
    var alignment := if aligns.Some? then Some(AlignmentCoverage(members, aligns.value)) else None;
    BaseMeasuresAreMeasurable(ratio, differentiation, alignment);
    var components, score := Explain(BaseMeasures(ratio, differentiation, alignment));
    if NoNegativeAmount(rows) {
      MembersAreNotNegative(p, rows, order, cells, minSampleSize, KeptValues(p, order, cells, complete), found);
      DifferentiationBounds(members, b, t);
    }
    PriorityIsAProportion(members, b, t, tolerance, aligns);
    profile := Profile(members, b, t, ExcessMovement(members), differentiation, ratio, alignment, score, invalidRows,
        incompleteValues);
  }

  lemma OrderIsFirstSeen(p: Periods, rows: seq<Row>, order: seq<string>, cells: map<Key, Cell>)
    requires Paired(p, rows, order, cells)
    ensures order == FirstSeen(p, rows)
  {
  }

  lemma NothingToAdd(p: Periods, rows: seq<Row>, order: seq<string>, cells: map<Key, Cell>, complete: bool)
    ensures DroppedValues(p, order, cells, complete) == [] ==>
              Total(DroppedValues(p, order, cells, complete), CellAmount(p, rows, p.baseline)) == 0.0
              && Total(DroppedValues(p, order, cells, complete), CellAmount(p, rows, p.target)) == 0.0
  {
  }
}
