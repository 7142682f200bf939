/** How much of each metric lies in mapped groups (`_metric_coverage`). */
module CrosswalkCoverage {
  import opened Wrappers
  import opened Totals
  import opened References
  import opened Grouping
  import opened RealArith
  import opened CrosswalkMapping
  import opened CrosswalkCells

  function AbsMetric(metric: string): Row -> real { row => Abs(Metric(metric, row)) }

  function AbsMapped(mapped: map<string, string>, metric: string): Row -> real {
    row => Abs(MappedMetric(mapped, metric)(row))
  }

  function Has(metric: string): Row -> bool { (row: Row) => metric in row.metrics }

  function IsMapped(mapped: map<string, string>): Row -> bool { (row: Row) => row.group in mapped }

  datatype Coverage = Coverage(matched: real, total: real, value: Option<real>)

  /** Of a summed metric the mass of absolute values counts, of a ratio the rows that have it. */
  function MetricCoverage(strategy: Strategy, rows: seq<Row>, mapped: map<string, string>, metric: string): Coverage {
    if strategy == Sum then SumCoverage(rows, mapped, metric) else RatioCoverage(rows, mapped, metric)
  }

  function SumCoverage(rows: seq<Row>, mapped: map<string, string>, metric: string): Coverage {
    var observed := Filter(rows, Has(metric));
    var total := Total(observed, AbsMetric(metric));
    var matched := Total(Filter(observed, IsMapped(mapped)), AbsMetric(metric));
    Coverage(matched, total, if total == 0.0 then None else Some(matched / total))
  }

  function RatioCoverage(rows: seq<Row>, mapped: map<string, string>, metric: string): Coverage {
    var observed := Filter(rows, Has(metric));
    var total, matched := |observed| as real, |Filter(observed, IsMapped(mapped))| as real;
    Coverage(matched, total, if total == 0.0 then None else Some(matched / total))
  }

  method MetricCoverages(rows: seq<Row>, metrics: seq<string>, strategies: Strategies, mapped: map<string, string>)
    returns (coverages: map<string, Coverage>)
    requires forall m :: m in metrics <==> m in strategies
    ensures coverages.Keys == strategies.Keys
    ensures forall m | m in strategies :: coverages[m] == MetricCoverage(strategies[m], rows, mapped, m)
  {
    coverages := map[];
    for i := 0 to |metrics|
      invariant forall m :: m in coverages <==> m in metrics[..i]
      invariant forall m | m in coverages ::
                  m in strategies && coverages[m] == MetricCoverage(strategies[m], rows, mapped, m)
    {
      var metric := metrics[i];
      assert metric in metrics;
      coverages := coverages[metric := MetricCoverage(strategies[metric], rows, mapped, metric)];
    }
  }

  lemma CoverageSums(rows: seq<Row>, mapped: map<string, string>, metric: string)
    ensures SumCoverage(rows, mapped, metric).total == Total(rows, AbsMetric(metric))
    ensures SumCoverage(rows, mapped, metric).matched == Total(rows, AbsMapped(mapped, metric))
  {
    hide Total, Filter;
    var observed := Filter(rows, Has(metric));
    forall row ensures AbsMetric(metric)(row) == if Has(metric)(row) then AbsMetric(metric)(row) else 0.0 { }
    TotalOfFilter(rows, Has(metric), AbsMetric(metric), AbsMetric(metric));
    forall row ensures AbsMapped(mapped, metric)(row) == if IsMapped(mapped)(row) then AbsMetric(metric)(row) else 0.0 {
      assert MappedMetric(mapped, metric)(row) == if row.group in mapped then Metric(metric, row) else 0.0;
    }
    TotalOfFilter(observed, IsMapped(mapped), AbsMetric(metric), AbsMapped(mapped, metric));
    forall row
      ensures AbsMapped(mapped, metric)(row) == if Has(metric)(row) then AbsMapped(mapped, metric)(row) else 0.0
    {
    }
    TotalOfFilter(rows, Has(metric), AbsMapped(mapped, metric), AbsMapped(mapped, metric));
  }

  lemma {:induction false} AbsTotal<T>(xs: seq<T>, f: T -> real, a: T -> real)
    requires forall x :: a(x) == Abs(f(x))
    ensures Total(xs, f) <= Total(xs, a)
    ensures Total(xs, f) == Total(xs, a) <==> forall i | 0 <= i < |xs| :: f(xs[i]) >= 0.0
  {
    if xs != [] {
      AbsTotal(xs[1..], f, a);
      assert f(xs[0]) <= a(xs[0]);
      if forall i | 0 <= i < |xs| :: f(xs[i]) >= 0.0 {
        assert f(xs[0]) >= 0.0;
        forall i | 0 <= i < |xs[1..]| ensures f(xs[1..][i]) >= 0.0 { assert xs[1..][i] == xs[i + 1]; }
      }
      if Total(xs, f) == Total(xs, a) {
        forall i | 0 <= i < |xs| ensures f(xs[i]) >= 0.0 {
          if i > 0 { assert xs[i] == xs[1..][i - 1]; }
        }
      }
    }
  }

  /** The matched mass is what aligning keeps exactly when no mapped value is negative; coverage is a proportion. */
  lemma {:induction false} MatchedIsAligned(rows: seq<Row>, mapped: map<string, string>, metric: string)
    ensures var c := SumCoverage(rows, mapped, metric);
      && (c.matched == Total(rows, MappedMetric(mapped, metric))
          <==> forall i | 0 <= i < |rows| :: MappedMetric(mapped, metric)(rows[i]) >= 0.0)
      && Total(rows, MappedMetric(mapped, metric)) <= c.matched <= c.total
      && (c.value.Some? ==> 0.0 <= c.value.value <= 1.0)
  {
    CoverageSums(rows, mapped, metric);
    AbsTotal(rows, MappedMetric(mapped, metric), AbsMapped(mapped, metric));
    TotalMonotone(rows, AbsMapped(mapped, metric), AbsMetric(metric));
    TotalNonNegative(rows, AbsMapped(mapped, metric));
    hide SumCoverage, Total;
    CoverageIsProportion(SumCoverage(rows, mapped, metric));
    assert SumCoverage(rows, mapped, metric).value
        == CoverageValue(SumCoverage(rows, mapped, metric)) by { CoverageHasValue(rows, mapped, metric); }
  }

  function CoverageValue(c: Coverage): Option<real> { if c.total == 0.0 then None else Some(c.matched / c.total) }

  lemma CoverageHasValue(rows: seq<Row>, mapped: map<string, string>, metric: string)
    ensures SumCoverage(rows, mapped, metric).value == CoverageValue(SumCoverage(rows, mapped, metric))
  {
  }

  lemma {:induction false} CoverageIsProportion(c: Coverage)
    requires 0.0 <= c.matched <= c.total
    ensures CoverageValue(c).Some? ==> 0.0 <= CoverageValue(c).value <= 1.0
  {
    if c.total != 0.0 {
      LeDiv(0.0, c.matched, c.total);
      DivLe(c.matched, c.total, 1.0);
    }
  }

  // ---- Ratios ----

  function One(row: Row): real { 1.0 }

  function Shows(metric: string): Row -> real { (row: Row) => if metric in row.metrics then 1.0 else 0.0 }

  function ShowsMapped(mapped: map<string, string>, metric: string): Row -> real {
    (row: Row) => if row.group in mapped then Shows(metric)(row) else 0.0
  }

  lemma {:induction false} CountsAreTotals(rows: seq<Row>, mapped: map<string, string>, metric: string)
    ensures RatioCoverage(rows, mapped, metric).total == Total(rows, Shows(metric))
    ensures RatioCoverage(rows, mapped, metric).matched == Total(rows, ShowsMapped(mapped, metric))
  {
    var observed := Filter(rows, Has(metric));
    var both := (row: Row) => if IsMapped(mapped)(row) then 1.0 else 0.0;
    KeptAreCounted(rows, Has(metric), Shows(metric));
    KeptAreCounted(observed, IsMapped(mapped), both);
    hide Total, Filter;
    TotalOfFilter(rows, Has(metric), both, ShowsMapped(mapped, metric));
  }

  lemma KeptAreCounted(rows: seq<Row>, keep: Row -> bool, counts: Row -> real)
    requires forall row :: counts(row) == if keep(row) then 1.0 else 0.0
    ensures Total(rows, counts) == |Filter(rows, keep)| as real
  {
    TotalConstant(Filter(rows, keep), One, 1.0);
    hide Total, Filter;
    TotalOfFilter(rows, keep, One, counts);
  }

  function ShowsValue(values: CellValues, metric: string): real {
    if metric in values && values[metric].Some? then 1.0 else 0.0
  }

  /** A cell shows a ratio exactly when its only row has it. */
  lemma CellShowsRatio(rows: seq<Row>, strategies: Strategies, mapped: map<string, string>, cells: Cells,
                       metric: string, k: CellKey)
    requires Injective(mapped) && AggregatesRows(rows, strategies, mapped, cells) && !HasDuplicate(rows)
    requires metric in strategies && strategies[metric] == Ratio
    ensures ShowsValue(Side(cells, strategies.Keys, k), metric)
            == GroupTotal(rows, KeyOf(mapped), ShowsMapped(mapped, metric))(Some(k))
  {
    hide Distinct, Filter, Total, Injective, HasDuplicate, Aggregated;
    var inCell := InGroup(KeyOf(mapped), ShowsMapped(mapped, metric), Some(k));
    if k in cells.values {
      var row :| row in rows && MappedKey(mapped, row) == Some(k);
      forall r ensures inCell(r) == if MapsTo(mapped, k)(r) then Shows(metric)(r) else 0.0 { }
      TotalOfFilter(rows, MapsTo(mapped, k), Shows(metric), inCell);
      OnlyRowOfCell(rows, mapped, k, row);
      TotalOfOne(row, Shows(metric));
      RatioIsThatOfItsOnlyRow(rows, strategies, mapped, cells, metric, row);
    } else {
      forall i | 0 <= i < |rows| ensures inCell(rows[i]) == 0.0 { assert rows[i] in rows; }
      TotalConstant(rows, inCell, 0.0);
    }
  }

  lemma TotalOfOne<T>(x: T, f: T -> real)
    ensures Total([x], f) == f(x)
  {
    assert [x][1..] == [];
  }

  /** The matched count of a ratio is the number of aligned cells that show it, and coverage is a proportion. */
  lemma MatchedIsShown(rows: seq<Row>, strategies: Strategies, mapped: map<string, string>, cells: Cells,
                       metric: string, keys: seq<CellKey>, shown: CellKey -> real)
    requires Injective(mapped) && AggregatesRows(rows, strategies, mapped, cells) && !HasDuplicate(rows)
    requires metric in strategies && strategies[metric] == Ratio
    requires Distinct(keys) && forall k | k in cells.values :: k in keys
    requires forall k :: shown(k) == ShowsValue(Side(cells, strategies.Keys, k), metric)
    ensures var c := RatioCoverage(rows, mapped, metric);
      && c.matched == Total(keys, shown) && 0.0 <= c.matched <= c.total
      && (c.value.Some? ==> 0.0 <= c.value.value <= 1.0)
  {
    CountsAreTotals(rows, mapped, metric);
    TotalMonotone(rows, ShowsMapped(mapped, metric), Shows(metric));
    TotalNonNegative(rows, ShowsMapped(mapped, metric));
    hide Total, Filter, GroupTotal, Side, ShowsValue, Injective, HasDuplicate;
    var groups, groupTotal := Map(keys, SomeKey), GroupTotal(rows, KeyOf(mapped), ShowsMapped(mapped, metric));
    KeysCoverRows(rows, strategies, mapped, cells, keys);
    GroupedTotals(rows, groups, KeyOf(mapped), ShowsMapped(mapped, metric));
    forall i | 0 <= i < |keys| ensures shown(keys[i]) == groupTotal(groups[i]) {
      CellShowsRatio(rows, strategies, mapped, cells, metric, keys[i]);
    }
    TotalAgree(keys, groups, shown, groupTotal);
    CoverageIsProportion(RatioCoverage(rows, mapped, metric));
  }

  lemma KeysCoverRows(rows: seq<Row>, strategies: Strategies, mapped: map<string, string>, cells: Cells,
                      keys: seq<CellKey>)
    requires AggregatesRows(rows, strategies, mapped, cells)
    requires Distinct(keys) && forall k | k in cells.values :: k in keys
    ensures Distinct(Map(keys, SomeKey))
    ensures forall row | row in rows && row.group in mapped :: KeyOf(mapped)(row) in Map(keys, SomeKey)
  {
    DistinctSome(keys);
    var groups := Map(keys, SomeKey);
    forall row | row in rows && row.group in mapped ensures KeyOf(mapped)(row) in groups {
      var k := CellKey(row.time, mapped[row.group]);
      assert MappedKey(mapped, row) == Some(k);
      assert k in keys;
      var i :| 0 <= i < |keys| && keys[i] == k;
      assert groups[i] == Some(k);
    }
  }

  // ---- A refund ----

  /** A row of a mapped group with a negative value: a mass of one matches, where what is aligned is minus one. */
  lemma RefundIsMatched()
    ensures var row, mapped := Row(0, "shop", map["revenue" := -1.0]), map["shop" := "shop"];
      && SumCoverage([row], mapped, "revenue").matched == 1.0
      && Total([row], MappedMetric(mapped, "revenue")) == -1.0
  {
    var row, mapped := Row(0, "shop", map["revenue" := -1.0]), map["shop" := "shop"];
    CoverageSums([row], mapped, "revenue");
    TotalOfOne(row, MappedMetric(mapped, "revenue"));
    TotalOfOne(row, AbsMapped(mapped, "revenue"));
    assert MappedMetric(mapped, "revenue")(row) == -1.0;
    hide SumCoverage;
  }
}
