/** The crosswalk as a whole (`candidate_crosswalk`). */
module CandidateCrosswalk {
  import opened Wrappers
  import opened Sets
  import opened Totals
  import opened CrosswalkMapping
  import opened CrosswalkCells
  import opened CrosswalkCoverage
  import opened CrosswalkFigures
  import opened CrosswalkSummary

  /** One source with its normalization and the way its metrics are added up, in the order of its metrics. */
  datatype Source = Source(rows: seq<Row>, normalize: Normalization, metrics: seq<string>, strategies: Strategies)

  ghost predicate IsSource(s: Source) { forall m :: m in s.metrics <==> m in s.strategies }

  /** One side of the summary. */
  datatype SideSummary = SideSummary(groups: nat, unmatched: nat, ambiguousGroups: nat, emptyRows: nat,
                                     coverage: map<string, Coverage>)

  datatype Crosswalk = Crosswalk(accepted: map<string, Pair>, aligned: seq<AlignedRow>, ambiguousNames: nat,
                                 left: SideSummary, right: SideSummary)

  /** The summary of a side counts what its rows hold. */
  ghost predicate Summarises(side: SideSummary, s: Source, mapped: map<string, string>) {
    && side.groups == |GroupsOf(s)| == |mapped| + side.unmatched
    && side.ambiguousGroups == |AmbiguousGroups(s.rows, s.normalize)| <= side.unmatched
    && side.emptyRows == |Filter(s.rows, (row: Row) => s.normalize(row.group) == "")|
    && side.coverage.Keys == s.strategies.Keys
    && forall m | m in s.strategies :: side.coverage[m] == MetricCoverage(s.strategies[m], s.rows, mapped, m)
  }

  ghost predicate Refused(s: Source) {
    HasDuplicate(s.rows) && exists m :: m in s.strategies && s.strategies[m] == Ratio
  }

  function GroupsOf(s: Source): set<string> {
    set row | row in s.rows && s.normalize(row.group) != "" :: row.group
  }

  lemma IndexedGroups(s: Source, index: GroupIndex)
    requires Indexes(index, s.rows, s.normalize)
    ensures AllGroups(index) == GroupsOf(s)
  {
    forall v ensures v in AllGroups(index) <==> v in GroupsOf(s) {
      if v in GroupsOf(s) {
        var row :| row in s.rows && s.normalize(row.group) != "" && row.group == v;
        assert v in GroupsNamed(s.rows, s.normalize, s.normalize(v));
      }
      if v in AllGroups(index) {
        var name :| name in index && v in index[name];
        var row :| row in s.rows && s.normalize(row.group) == name && row.group == v;
      }
    }
  }

  lemma LeftCellsAreAccepted(rows: seq<Row>, strategies: Strategies, accepted: map<string, Pair>, cells: Cells)
    requires PartialBijection(accepted) && AggregatesRows(rows, strategies, Lefts(accepted), cells)
    ensures IsCells(cells, accepted)
  {
    LeftsMapBack(accepted);
    hide Lefts, PartialBijection, Aggregated;
    forall k | k in cells.values ensures k.group in accepted {
      var row :| row in rows && MappedKey(Lefts(accepted), row) == Some(k);
    }
  }

  lemma RightCellsAreAccepted(rows: seq<Row>, strategies: Strategies, accepted: map<string, Pair>, cells: Cells)
    requires PartialBijection(accepted) && AggregatesRows(rows, strategies, Rights(accepted), cells)
    ensures IsCells(cells, accepted)
  {
    RightsMapBack(accepted);
    hide Rights, PartialBijection, Aggregated;
    forall k | k in cells.values ensures k.group in accepted {
      var row :| row in rows && MappedKey(Rights(accepted), row) == Some(k);
    }
  }

  /** The pairs are those whose name stands for one group on either side. */
  ghost predicate PairsUnambiguous(left: Source, right: Source, accepted: map<string, Pair>) {
    forall name, l, r :: name in accepted && accepted[name] == Pair(l, r)
      <==> StandsFor(left.rows, left.normalize, name, l) && StandsFor(right.rows, right.normalize, name, r)
  }

  /** On either side a summed metric adds up to what the source has in its mapped groups. */
  ghost predicate Conserves(left: Source, right: Source, accepted: map<string, Pair>, aligned: seq<AlignedRow>)
    requires PartialBijection(accepted)
  {
    && (forall m | m in left.strategies && left.strategies[m] == Sum ::
          Total(aligned, LeftValue(m)) == Total(left.rows, MappedMetric(Lefts(accepted), m)))
    && (forall m | m in right.strategies && right.strategies[m] == Sum ::
          Total(aligned, RightValue(m)) == Total(right.rows, MappedMetric(Rights(accepted), m)))
  }

  lemma SizesOfSides(accepted: map<string, Pair>)
    requires PartialBijection(accepted)
    ensures |Lefts(accepted)| == |accepted| == |Rights(accepted)|
  {
    LeftsCount(accepted);
    RightsCount(accepted);
    hide Lefts, Rights, PartialBijection;
    assert |Lefts(accepted)| == |Lefts(accepted).Keys| && |Rights(accepted)| == |Rights(accepted).Keys|;
  }

  lemma MetricsAreKeys(s: Source)
    requires IsSource(s)
    ensures forall m :: m in s.metrics <==> m in s.strategies
  {
  }

  lemma SummaryHolds(side: SideSummary, s: Source, mapped: map<string, string>)
    requires side.groups == |GroupsOf(s)| == |mapped| + side.unmatched
    requires side.ambiguousGroups == |AmbiguousGroups(s.rows, s.normalize)| <= side.unmatched
    requires side.emptyRows == |Filter(s.rows, (row: Row) => s.normalize(row.group) == "")|
    requires side.coverage.Keys == s.strategies.Keys
    requires forall m | m in s.strategies :: side.coverage[m] == MetricCoverage(s.strategies[m], s.rows, mapped, m)
    ensures Summarises(side, s, mapped)
  {
    hide GroupsOf, AmbiguousGroups, MetricCoverage;
  }

  /** One side of the summary, from the index of its groups and the groups that are mapped. */
  method Summarise(s: Source, index: GroupIndex, emptyRows: nat, mapped: map<string, string>)
    returns (side: SideSummary, ambiguous: set<string>)
    requires IsSource(s) && Indexes(index, s.rows, s.normalize) && NamesApart(index)
    requires emptyRows == |Filter(s.rows, (row: Row) => s.normalize(row.group) == "")|
    requires |mapped| + |AllGroups(index) - mapped.Keys| == |AllGroups(index)|
    requires GroupsUnder(index, AmbiguousNames(index)) <= AllGroups(index) - mapped.Keys
    ensures Summarises(side, s, mapped)
    ensures ambiguous == AmbiguousNamesOf(s.rows, s.normalize)
  {
    hide *;
    IndexedGroups(s, index);
    AmbiguousAreThoseOfRows(index, s.rows, s.normalize);
    SubsetIsNoLarger(GroupsUnder(index, AmbiguousNames(index)), AllGroups(index) - mapped.Keys);
    assert forall m :: m in s.metrics <==> m in s.strategies by { MetricsAreKeys(s); }
    var groups: nat;
    ambiguous, groups := CountAmbiguous(index);
    var coverage := MetricCoverages(s.rows, s.metrics, s.strategies, mapped);
    side := SideSummary(|AllGroups(index)|, |AllGroups(index) - mapped.Keys|, groups, emptyRows, coverage);
    assert Summarises(side, s, mapped) by { SummaryHolds(side, s, mapped); }
  }

  method BuildCrosswalk(left: Source, right: Source, atMost: (CellKey, CellKey) -> bool)
    returns (r: Result<Crosswalk, CrosswalkError>)
    requires IsSource(left) && IsSource(right)
    ensures r.Err? <==> Refused(left) || Refused(right)
    ensures r.Ok? ==> PairsUnambiguous(left, right, r.value.accepted) && PartialBijection(r.value.accepted)
    ensures r.Ok? ==> Conserves(left, right, r.value.accepted, r.value.aligned)
    ensures r.Ok? ==> AlignsExactly(r.value.aligned, left.rows, right.rows, left.strategies, right.strategies,
                                    r.value.accepted, atMost)
    ensures r.Ok? ==> |Lefts(r.value.accepted)| == |r.value.accepted| == |Rights(r.value.accepted)|
    ensures r.Ok? ==> Summarises(r.value.left, left, Lefts(r.value.accepted))
                      && Summarises(r.value.right, right, Rights(r.value.accepted))
    ensures r.Ok? ==> r.value.ambiguousNames
                      == |AmbiguousNamesOf(left.rows, left.normalize) + AmbiguousNamesOf(right.rows, right.normalize)|
  {
    hide Indexes, PartialBijection, PairsUnambiguous, Conserves, Injective, AggregatesRows, HasDuplicate, IsCells,
         ListsCells, GroupsOf, AllGroups, Lefts, Rights, Accepted, AlignedAt, CellKeys, Summarises, AmbiguousNamesOf,
         NamesApart, GroupsUnder, AmbiguousNames, Filter, AlignsExactly;
    var leftIndex, leftEmptyRows := NormalizedGroupIndex(left.rows, left.normalize);
    var rightIndex, rightEmptyRows := NormalizedGroupIndex(right.rows, right.normalize);
    var accepted := Accepted(leftIndex, rightIndex);
    PairsOf(left, right, leftIndex, rightIndex);
    OneNamePerGroup(leftIndex, left.rows, left.normalize);
    OneNamePerGroup(rightIndex, right.rows, right.normalize);
    LeftsMapBack(accepted);
    RightsMapBack(accepted);
    var leftCells := AggregateSourceCells(left.rows, left.strategies, Lefts(accepted));
    if leftCells.Err? {
      return Err(leftCells.error);
    }
    var rightCells := AggregateSourceCells(right.rows, right.strategies, Rights(accepted));
    if rightCells.Err? {
      return Err(rightCells.error);
    }
    LeftCellsAreAccepted(left.rows, left.strategies, accepted, leftCells.value);
    RightCellsAreAccepted(right.rows, right.strategies, accepted, rightCells.value);
    ghost var keys := CellKeys(leftCells.value, rightCells.value, atMost);
    var aligned := AlignedRows(leftCells.value, rightCells.value, accepted, left.strategies.Keys,
        right.strategies.Keys, atMost);
    assert Conserves(left, right, accepted, aligned) by {
      AlignedConserve(left, right, accepted, leftCells.value, rightCells.value, keys, aligned);
    }
    assert AlignsExactly(aligned, left.rows, right.rows, left.strategies, right.strategies, accepted, atMost) by {
      RowsAlignExactly(left.rows, right.rows, left.strategies, right.strategies, accepted, leftCells.value,
          rightCells.value, atMost, aligned);
    }
    CountsAddUp(leftIndex, rightIndex);
    SizesOfSides(accepted);
    AmbiguousAreUnmatched(leftIndex, rightIndex);
    var leftSide, leftAmbiguous := Summarise(left, leftIndex, leftEmptyRows, Lefts(accepted));
    var rightSide, rightAmbiguous := Summarise(right, rightIndex, rightEmptyRows, Rights(accepted));
    r := Ok(Crosswalk(accepted, aligned, |leftAmbiguous + rightAmbiguous|, leftSide, rightSide));
  }

  lemma AlignedConserve(left: Source, right: Source, accepted: map<string, Pair>, leftCells: Cells, rightCells: Cells,
                        keys: seq<CellKey>, aligned: seq<AlignedRow>)
    requires PartialBijection(accepted)
    requires AggregatesRows(left.rows, left.strategies, Lefts(accepted), leftCells)
    requires AggregatesRows(right.rows, right.strategies, Rights(accepted), rightCells)
    requires ListsCells(leftCells, rightCells, keys) && |aligned| == |keys|
    requires forall i | 0 <= i < |keys| :: keys[i].group in accepted &&
               aligned[i] == AlignedAt(leftCells, rightCells, accepted, left.strategies.Keys, right.strategies.Keys,
                   keys[i])
    ensures Conserves(left, right, accepted, aligned)
  {
    hide PartialBijection, AggregatesRows, ListsCells, AlignedAt;
    AligningConserves(left.rows, right.rows, left.strategies, right.strategies, accepted, leftCells, rightCells, keys,
        aligned);
  }

  lemma PairsOf(left: Source, right: Source, leftIndex: GroupIndex, rightIndex: GroupIndex)
    requires Indexes(leftIndex, left.rows, left.normalize) && Indexes(rightIndex, right.rows, right.normalize)
    ensures PartialBijection(Accepted(leftIndex, rightIndex))
            && PairsUnambiguous(left, right, Accepted(leftIndex, rightIndex))
  {
    AcceptedIsABijection(left.rows, right.rows, left.normalize, right.normalize, leftIndex, rightIndex);
    hide Indexes, PartialBijection, Accepted, StandsFor;
    forall name, l, r
      ensures name in Accepted(leftIndex, rightIndex) && Accepted(leftIndex, rightIndex)[name] == Pair(l, r)
              <==> StandsFor(left.rows, left.normalize, name, l) && StandsFor(right.rows, right.normalize, name, r)
    {
      AcceptedExactlyWhenUnambiguous(left.rows, right.rows, left.normalize, right.normalize, leftIndex, rightIndex,
          name, l, r);
    }
  }
}
