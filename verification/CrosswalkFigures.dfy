/** The crosswalk by what its rows hold: the coverage of a metric, and what an aligned row shows of each side. */
module CrosswalkFigures {
  import opened Wrappers
  import opened Totals
  import opened Tallies
  import opened Sorting
  import opened References
  import opened CrosswalkMapping
  import opened CrosswalkCells
  import opened CrosswalkCoverage

  /** How much of the metric the row has, whatever its sign. */
  function Mass(metric: string): Row -> real {
    (row: Row) => if metric !in row.metrics then 0.0
                  else if row.metrics[metric] < 0.0 then -row.metrics[metric] else row.metrics[metric]
  }

  function Single(row: Row): real { 1.0 }

  function Carries(metric: string): Row -> bool { (row: Row) => metric in row.metrics }

  function CarriesMapped(mapped: map<string, string>, metric: string): Row -> bool {
    (row: Row) => metric in row.metrics && row.group in mapped
  }

  lemma MassOfMapped(row: Row, mapped: map<string, string>, metric: string)
    ensures AbsMapped(mapped, metric)(row)
            == if CarriesMapped(mapped, metric)(row) then Mass(metric)(row) else 0.0
  {
    assert MappedMetric(mapped, metric)(row) == if row.group in mapped then Metric(metric, row) else 0.0;
  }

  lemma SummedMass(rows: seq<Row>, mapped: map<string, string>, metric: string)
    ensures Total(rows, AbsMetric(metric)) == SumOver(rows, Carries(metric), Mass(metric))
    ensures Total(rows, AbsMapped(mapped, metric)) == SumOver(rows, CarriesMapped(mapped, metric), Mass(metric))
  {
    forall row | row in rows
      ensures AbsMapped(mapped, metric)(row)
              == if CarriesMapped(mapped, metric)(row) then Mass(metric)(row) else 0.0
    {
      MassOfMapped(row, mapped, metric);
    }
    hide Total, SumOver;
    SumOfFigures(rows, AbsMetric(metric), Carries(metric), Mass(metric));
    SumOfFigures(rows, AbsMapped(mapped, metric), CarriesMapped(mapped, metric), Mass(metric));
  }

  lemma {:induction false} SummedRows(rows: seq<Row>, mapped: map<string, string>, metric: string)
    ensures Total(rows, Shows(metric)) == SumOver(rows, Carries(metric), Single)
    ensures Total(rows, ShowsMapped(mapped, metric)) == SumOver(rows, CarriesMapped(mapped, metric), Single)
  {
    hide Total, SumOver;
    SumOfFigures(rows, Shows(metric), Carries(metric), Single);
    SumOfFigures(rows, ShowsMapped(mapped, metric), CarriesMapped(mapped, metric), Single);
  }

  lemma CoverageIsShare(strategy: Strategy, rows: seq<Row>, mapped: map<string, string>, metric: string)
    ensures var c := MetricCoverage(strategy, rows, mapped, metric);
      && (c.value.None? <==> c.total == 0.0) && (c.value.Some? ==> c.value.value * c.total == c.matched)
  {
    hide Total, Filter;
  }

  function Figure(strategy: Strategy, metric: string): Row -> real {
    match strategy
    case Sum => Mass(metric)
    case Ratio => Single
  }

  /** Of a summed metric the total is the mass of the rows that have it, of a ratio their number; what is matched
    * is the same of the rows of mapped groups, and the coverage is its share. */
  lemma CoverageExactly(strategy: Strategy, rows: seq<Row>, mapped: map<string, string>, metric: string)
    ensures var c := MetricCoverage(strategy, rows, mapped, metric);
      && c.total == SumOver(rows, Carries(metric), Figure(strategy, metric))
      && c.matched == SumOver(rows, CarriesMapped(mapped, metric), Figure(strategy, metric))
      && (c.value.None? <==> c.total == 0.0) && (c.value.Some? ==> c.value.value * c.total == c.matched)
  {
    CoverageIsShare(strategy, rows, mapped, metric);
    hide SumCoverage, RatioCoverage, Total, SumOver;
    match strategy {
      case Sum =>
        CoverageSums(rows, mapped, metric);
        SummedMass(rows, mapped, metric);
      case Ratio =>
        CountsAreTotals(rows, mapped, metric);
        SummedRows(rows, mapped, metric);
    }
  }

  // ---- Aligned rows ----

  predicate IsHere(time: int, group: string, row: Row) { row.time == time && row.group == group }

  function HereWith(time: int, group: string, metric: string): Row -> bool {
    (row: Row) => IsHere(time, group, row) && metric in row.metrics
  }

  function Amount(metric: string): Row -> real {
    (row: Row) => if metric in row.metrics then row.metrics[metric] else 0.0
  }

  /** What a source has of a metric at a time in a group: nothing without a row that has it; the sum of a summed
    * metric; of a ratio the value of a row. */
  ghost predicate IsShown(shown: Option<real>, strategy: Strategy, rows: seq<Row>, time: int, group: string,
                          metric: string)
  {
    && (shown.None? <==> forall row | row in rows && IsHere(time, group, row) :: metric !in row.metrics)
    && (shown.Some? ==>
          match strategy
          case Sum => shown.value == SumOver(rows, HereWith(time, group, metric), Amount(metric))
          case Ratio => exists row :: row in rows && HereWith(time, group, metric)(row)
                                      && row.metrics[metric] == shown.value)
  }

  /** One side of an aligned row shows the source at this time in this group. */
  ghost predicate ShowsSource(values: CellValues, present: bool, rows: seq<Row>, strategies: Strategies, time: int,
                              group: string)
  {
    && (present <==> exists row :: row in rows && IsHere(time, group, row))
    && values.Keys == strategies.Keys
    && forall m | m in strategies :: IsShown(values[m], strategies[m], rows, time, group, m)
  }

  lemma {:induction false} NumbersHold(rows: seq<Row>, metric: string, n: real)
    ensures n in Numbers(rows, metric)
       <==> exists row :: row in rows && metric in row.metrics && row.metrics[metric] == n
  {
    if rows != [] {
      var front, last := rows[..|rows| - 1], rows[|rows| - 1];
      assert rows == front + [last];
      NumbersHold(front, metric, n);
    }
  }

  lemma {:induction false} NoNumbersExactly(rows: seq<Row>, metric: string)
    ensures Numbers(rows, metric) == [] <==> forall row | row in rows :: metric !in row.metrics
  {
    var numbers := Numbers(rows, metric);
    if numbers != [] { NumbersHold(rows, metric, numbers[0]); }
    if row :| row in rows && metric in row.metrics { NumbersHold(rows, metric, row.metrics[metric]); }
    hide Numbers;
  }

  lemma AggregateIsShown(strategy: Strategy, rows: seq<Row>, keep: Row -> bool, time: int, group: string,
                         metric: string)
    requires forall row :: keep(row) <==> IsHere(time, group, row)
    ensures IsShown(Aggregate(strategy, Numbers(Filter(rows, keep), metric)), strategy, rows, time, group, metric)
  {
    var kept := Filter(rows, keep);
    var numbers := Numbers(kept, metric);
    NoNumbersExactly(kept, metric);
    var held := (row: Row) => if keep(row) then Metric(metric, row) else 0.0;
    TotalOfNumbers(rows, metric, keep, held);
    SumOfFigures(rows, held, HereWith(time, group, metric), Amount(metric));
    hide Numbers, Filter, Total, SumOver;
    if numbers != [] { NumbersHold(kept, metric, numbers[0]); }
  }

  lemma SideShowsSource(rows: seq<Row>, strategies: Strategies, mapped: map<string, string>, cells: Cells, k: CellKey,
                        group: string)
    requires AggregatesRows(rows, strategies, mapped, cells)
    requires forall row :: MapsTo(mapped, k)(row) <==> IsHere(k.time, group, row)
    ensures ShowsSource(Side(cells, strategies.Keys, k), k in cells.values, rows, strategies, k.time, group)
  {
    hide Distinct, Filter, Numbers, Aggregate, IsShown, IsHere, MappedKey;
    var side := Side(cells, strategies.Keys, k);
    assert k in cells.values <==> exists row :: row in rows && MapsTo(mapped, k)(row);
    forall m | m in strategies ensures IsShown(side[m], strategies[m], rows, k.time, group, m) {
      AggregateIsShown(strategies[m], rows, MapsTo(mapped, k), k.time, group, m);
      if k !in cells.values {
        NothingKept(rows, MapsTo(mapped, k));
        assert Numbers([], m) == [] by { NoNumbersExactly([], m); }
        AggregateOfNone(strategies[m]);
      }
    }
  }

  lemma AggregateOfNone(strategy: Strategy)
    ensures Aggregate(strategy, []) == None
  {
  }

  lemma {:induction false} NothingKept(rows: seq<Row>, keep: Row -> bool)
    requires forall row | row in rows :: !keep(row)
    ensures Filter(rows, keep) == []
  {
    NothingIn(Filter(rows, keep));
  }

  /** The row is of an accepted name and shows both sources at its time, each in its group of the pair. */
  ghost predicate IsAligned(a: AlignedRow, left: seq<Row>, right: seq<Row>, leftStrategies: Strategies,
                            rightStrategies: Strategies, accepted: map<string, Pair>)
  {
    && a.name in accepted && a.pair == accepted[a.name]
    && ShowsSource(a.left, a.leftPresent, left, leftStrategies, a.time, a.pair.left)
    && ShowsSource(a.right, a.rightPresent, right, rightStrategies, a.time, a.pair.right)
  }

  lemma AlignedExactly(left: seq<Row>, right: seq<Row>, leftStrategies: Strategies, rightStrategies: Strategies,
                       accepted: map<string, Pair>, leftCells: Cells, rightCells: Cells, k: CellKey)
    requires PartialBijection(accepted) && k.group in accepted
    requires AggregatesRows(left, leftStrategies, Lefts(accepted), leftCells)
    requires AggregatesRows(right, rightStrategies, Rights(accepted), rightCells)
    ensures IsAligned(AlignedAt(leftCells, rightCells, accepted, leftStrategies.Keys, rightStrategies.Keys, k),
                      left, right, leftStrategies, rightStrategies, accepted)
  {
    LeftsMapBack(accepted);
    RightsMapBack(accepted);
    hide AggregatesRows, ShowsSource, Side, Lefts, Rights, PartialBijection;
    SideShowsSource(left, leftStrategies, Lefts(accepted), leftCells, k, accepted[k.group].left);
    SideShowsSource(right, rightStrategies, Rights(accepted), rightCells, k, accepted[k.group].right);
  }

  /** There is an aligned row for this time and name. */
  ghost predicate Aligns(aligned: seq<AlignedRow>, time: int, name: string) {
    exists a :: a in aligned && a.time == time && a.name == name
  }

  ghost predicate HasRowHere(rows: seq<Row>, time: int, group: string) {
    exists row :: row in rows && IsHere(time, group, row)
  }

  ghost predicate AllAligned(aligned: seq<AlignedRow>, left: seq<Row>, right: seq<Row>, leftStrategies: Strategies,
                             rightStrategies: Strategies, accepted: map<string, Pair>)
  {
    forall a | a in aligned :: IsAligned(a, left, right, leftStrategies, rightStrategies, accepted)
  }

  ghost predicate NoneTwice(aligned: seq<AlignedRow>) {
    forall i, j | 0 <= i < j < |aligned| :: aligned[i].time != aligned[j].time || aligned[i].name != aligned[j].name
  }

  ghost predicate AlignsWhereThereAreRows(aligned: seq<AlignedRow>, left: seq<Row>, right: seq<Row>,
                                          accepted: map<string, Pair>)
  {
    forall time, name ::
      Aligns(aligned, time, name)
      <==> && name in accepted
           && (HasRowHere(left, time, accepted[name].left) || HasRowHere(right, time, accepted[name].right))
  }

  ghost predicate IsOrdered(aligned: seq<AlignedRow>, atMost: (CellKey, CellKey) -> bool) {
    forall i, j | 0 <= i < j < |aligned| ::
      atMost(CellKey(aligned[i].time, aligned[i].name), CellKey(aligned[j].time, aligned[j].name))
  }

  /** One row for each time and accepted name of which either source has something, in order, and each shows what
    * both sources have. */
  ghost predicate AlignsExactly(aligned: seq<AlignedRow>, left: seq<Row>, right: seq<Row>, leftStrategies: Strategies,
                                rightStrategies: Strategies, accepted: map<string, Pair>,
                                atMost: (CellKey, CellKey) -> bool)
  {
    && AllAligned(aligned, left, right, leftStrategies, rightStrategies, accepted)
    && NoneTwice(aligned) && AlignsWhereThereAreRows(aligned, left, right, accepted)
    && (TotalPreorder(atMost) ==> IsOrdered(aligned, atMost))
  }

  lemma KeysAscend(left: Cells, right: Cells, atMost: (CellKey, CellKey) -> bool)
    requires TotalPreorder(atMost)
    ensures SortedBy(CellKeys(left, right, atMost), atMost)
  {
    SortSorted(UnionOfKeys(left, right), atMost);
  }

  /** One row for each key, made from the cells of both sides. */
  ghost predicate MadeOf(aligned: seq<AlignedRow>, keys: seq<CellKey>, leftCells: Cells, rightCells: Cells,
                         accepted: map<string, Pair>, leftMetrics: set<string>, rightMetrics: set<string>)
  {
    && |aligned| == |keys|
    && forall i | 0 <= i < |keys| ::
         && keys[i].group in accepted
         && aligned[i] == AlignedAt(leftCells, rightCells, accepted, leftMetrics, rightMetrics, keys[i])
  }

  lemma EachIsAligned(left: seq<Row>, right: seq<Row>, leftStrategies: Strategies, rightStrategies: Strategies,
                      accepted: map<string, Pair>, leftCells: Cells, rightCells: Cells, keys: seq<CellKey>,
                      aligned: seq<AlignedRow>, a: AlignedRow)
    requires PartialBijection(accepted) && a in aligned
    requires AggregatesRows(left, leftStrategies, Lefts(accepted), leftCells)
    requires AggregatesRows(right, rightStrategies, Rights(accepted), rightCells)
    requires MadeOf(aligned, keys, leftCells, rightCells, accepted, leftStrategies.Keys, rightStrategies.Keys)
    ensures IsAligned(a, left, right, leftStrategies, rightStrategies, accepted)
  {
    hide AggregatesRows, IsAligned, Lefts, Rights, PartialBijection, Side, AlignedAt;
    var i :| 0 <= i < |aligned| && aligned[i] == a;
    AlignedExactly(left, right, leftStrategies, rightStrategies, accepted, leftCells, rightCells, keys[i]);
  }

  lemma KeysOfAligned(aligned: seq<AlignedRow>, keys: seq<CellKey>, leftCells: Cells, rightCells: Cells,
                      accepted: map<string, Pair>, leftMetrics: set<string>, rightMetrics: set<string>, i: nat)
    requires MadeOf(aligned, keys, leftCells, rightCells, accepted, leftMetrics, rightMetrics) && i < |aligned|
    ensures i < |keys| && keys[i] == CellKey(aligned[i].time, aligned[i].name)
  {
    hide Side;
  }

  lemma AlignedInOrder(aligned: seq<AlignedRow>, keys: seq<CellKey>, leftCells: Cells, rightCells: Cells,
                       accepted: map<string, Pair>, leftMetrics: set<string>, rightMetrics: set<string>,
                       atMost: (CellKey, CellKey) -> bool)
    requires MadeOf(aligned, keys, leftCells, rightCells, accepted, leftMetrics, rightMetrics)
    requires ListsCells(leftCells, rightCells, keys) && (TotalPreorder(atMost) ==> SortedBy(keys, atMost))
    ensures NoneTwice(aligned) && (TotalPreorder(atMost) ==> IsOrdered(aligned, atMost))
  {
    hide TotalPreorder, MadeOf;
    forall i | 0 <= i < |aligned| ensures i < |keys| && keys[i] == CellKey(aligned[i].time, aligned[i].name) {
      KeysOfAligned(aligned, keys, leftCells, rightCells, accepted, leftMetrics, rightMetrics, i);
    }
    forall i, j | 0 <= i < j < |aligned|
      ensures aligned[i].time != aligned[j].time || aligned[i].name != aligned[j].name
    {
      KeysOfAligned(aligned, keys, leftCells, rightCells, accepted, leftMetrics, rightMetrics, i);
      KeysOfAligned(aligned, keys, leftCells, rightCells, accepted, leftMetrics, rightMetrics, j);
      assert keys[i] != keys[j];
    }
  }

  lemma AlignedWhereThereAreRows(left: seq<Row>, right: seq<Row>, leftStrategies: Strategies,
                                 rightStrategies: Strategies, accepted: map<string, Pair>, leftCells: Cells,
                                 rightCells: Cells, keys: seq<CellKey>, aligned: seq<AlignedRow>)
    requires PartialBijection(accepted)
    requires AggregatesRows(left, leftStrategies, Lefts(accepted), leftCells)
    requires AggregatesRows(right, rightStrategies, Rights(accepted), rightCells)
    requires ListsCells(leftCells, rightCells, keys)
    requires MadeOf(aligned, keys, leftCells, rightCells, accepted, leftStrategies.Keys, rightStrategies.Keys)
    ensures AlignsWhereThereAreRows(aligned, left, right, accepted)
  {
    hide AggregatesRows, Lefts, Rights, PartialBijection, HasRowHere, MadeOf, ListsCells, Aligns;
    forall time, name
      ensures Aligns(aligned, time, name)
         <==> && name in accepted
              && (HasRowHere(left, time, accepted[name].left) || HasRowHere(right, time, accepted[name].right))
    {
      AlignedTimes(keys, aligned, leftCells, rightCells, accepted, leftStrategies.Keys, rightStrategies.Keys, time,
                   name);
      if name in accepted {
        CellsOfSources(left, right, leftStrategies, rightStrategies, accepted, leftCells, rightCells,
                       CellKey(time, name));
      }
    }
  }

  lemma EveryOneIsAligned(left: seq<Row>, right: seq<Row>, leftStrategies: Strategies, rightStrategies: Strategies,
                          accepted: map<string, Pair>, leftCells: Cells, rightCells: Cells, keys: seq<CellKey>,
                          aligned: seq<AlignedRow>)
    requires PartialBijection(accepted)
    requires AggregatesRows(left, leftStrategies, Lefts(accepted), leftCells)
    requires AggregatesRows(right, rightStrategies, Rights(accepted), rightCells)
    requires MadeOf(aligned, keys, leftCells, rightCells, accepted, leftStrategies.Keys, rightStrategies.Keys)
    ensures AllAligned(aligned, left, right, leftStrategies, rightStrategies, accepted)
  {
    hide AggregatesRows, IsAligned, Lefts, Rights, PartialBijection, MadeOf;
    forall a | a in aligned ensures IsAligned(a, left, right, leftStrategies, rightStrategies, accepted) {
      EachIsAligned(left, right, leftStrategies, rightStrategies, accepted, leftCells, rightCells, keys, aligned, a);
    }
  }

  lemma RowsAlignExactly(left: seq<Row>, right: seq<Row>, leftStrategies: Strategies, rightStrategies: Strategies,
                         accepted: map<string, Pair>, leftCells: Cells, rightCells: Cells,
                         atMost: (CellKey, CellKey) -> bool, aligned: seq<AlignedRow>)
    requires PartialBijection(accepted)
    requires AggregatesRows(left, leftStrategies, Lefts(accepted), leftCells)
    requires AggregatesRows(right, rightStrategies, Rights(accepted), rightCells)
    requires var keys := CellKeys(leftCells, rightCells, atMost);
      && ListsCells(leftCells, rightCells, keys) && |aligned| == |keys|
      && forall i | 0 <= i < |keys| :: keys[i].group in accepted &&
           aligned[i] == AlignedAt(leftCells, rightCells, accepted, leftStrategies.Keys, rightStrategies.Keys, keys[i])
    ensures AlignsExactly(aligned, left, right, leftStrategies, rightStrategies, accepted, atMost)
  {
    hide AggregatesRows, AllAligned, NoneTwice, AlignsWhereThereAreRows, IsOrdered, Lefts, Rights, PartialBijection,
         CellKeys, TotalPreorder, ListsCells, AlignedAt;
    var keys := CellKeys(leftCells, rightCells, atMost);
    if TotalPreorder(atMost) { KeysAscend(leftCells, rightCells, atMost); }
    assert MadeOf(aligned, keys, leftCells, rightCells, accepted, leftStrategies.Keys, rightStrategies.Keys);
    hide MadeOf;
    AlignedInOrder(aligned, keys, leftCells, rightCells, accepted, leftStrategies.Keys, rightStrategies.Keys, atMost);
    EveryOneIsAligned(left, right, leftStrategies, rightStrategies, accepted, leftCells, rightCells, keys, aligned);
    AlignedWhereThereAreRows(left, right, leftStrategies, rightStrategies, accepted, leftCells, rightCells, keys,
                             aligned);
  }

  lemma AlignedTimes(keys: seq<CellKey>, aligned: seq<AlignedRow>, leftCells: Cells, rightCells: Cells,
                     accepted: map<string, Pair>, leftMetrics: set<string>, rightMetrics: set<string>, time: int,
                     name: string)
    requires ListsCells(leftCells, rightCells, keys)
    requires MadeOf(aligned, keys, leftCells, rightCells, accepted, leftMetrics, rightMetrics)
    ensures Aligns(aligned, time, name)
       <==> CellKey(time, name) in leftCells.values || CellKey(time, name) in rightCells.values
    ensures Aligns(aligned, time, name) ==> name in accepted
  {
    hide Side, Distinct;
    var k := CellKey(time, name);
    if a :| a in aligned && a.time == time && a.name == name {
      var i :| 0 <= i < |aligned| && aligned[i] == a;
      assert keys[i] == k && keys[i] in keys;
    }
    if k in keys {
      var i :| 0 <= i < |keys| && keys[i] == k;
      assert aligned[i] in aligned && aligned[i].time == time && aligned[i].name == name;
    }
  }

  lemma CellsOfSources(left: seq<Row>, right: seq<Row>, leftStrategies: Strategies, rightStrategies: Strategies,
                       accepted: map<string, Pair>, leftCells: Cells, rightCells: Cells, k: CellKey)
    requires PartialBijection(accepted) && k.group in accepted
    requires AggregatesRows(left, leftStrategies, Lefts(accepted), leftCells)
    requires AggregatesRows(right, rightStrategies, Rights(accepted), rightCells)
    ensures k in leftCells.values <==> HasRowHere(left, k.time, accepted[k.group].left)
    ensures k in rightCells.values <==> HasRowHere(right, k.time, accepted[k.group].right)
  {
    hide AggregatesRows, PartialBijection, Lefts, Rights;
    AlignedExactly(left, right, leftStrategies, rightStrategies, accepted, leftCells, rightCells, k);
  }
}
