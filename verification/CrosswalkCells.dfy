/** Metrics added up per time and mapped group, and the two sources side by side
  * (`_aggregate_source_cells`, `_aligned_rows`). */
module CrosswalkCells {
  import opened Wrappers
  import opened Totals
  import opened Sorting
  import opened References
  import opened Grouping
  import opened CrosswalkMapping

  datatype Strategy = Sum | Ratio

  /** `ratio` metrics of a source with two rows for one time and group. */
  datatype CrosswalkError = RatioNeedsOneRowPerCell

  type Strategies = map<string, Strategy>

  type CellValues = map<string, Option<real>>

  /** A time with a source group, or with the name that groups are mapped to. */
  datatype CellKey = CellKey(time: int, group: string)

  /** A dictionary of cells in the order of insertion. */
  datatype Cells = Cells(order: seq<CellKey>, values: map<CellKey, CellValues>)

  function SourceKey(row: Row): CellKey { CellKey(row.time, row.group) }

  function Numbers(rows: seq<Row>, metric: string): seq<real> {
    if rows == [] then []
    else Numbers(rows[..|rows| - 1], metric)
         + if metric in rows[|rows| - 1].metrics then [rows[|rows| - 1].metrics[metric]] else []
  }

  function Aggregate(strategy: Strategy, numbers: seq<real>): Option<real> {
    if numbers == [] then None
    else if strategy == Sum then Some(Total(numbers, Identity()))
    else Some(numbers[0])
  }

  function Aggregated(strategies: Strategies, rows: seq<Row>): CellValues {
    map metric | metric in strategies :: Aggregate(strategies[metric], Numbers(rows, metric))
  }

  // ---- Rows per source cell ----

  function InSourceCell(k: CellKey): Row -> bool { row => SourceKey(row) == k }

  function RowsOf(bySource: map<CellKey, seq<Row>>, k: CellKey): seq<Row> { if k in bySource then bySource[k] else [] }

  ghost predicate BySource(rows: seq<Row>, order: seq<CellKey>, bySource: map<CellKey, seq<Row>>) {
    && Distinct(order)
    && (forall k :: k in order <==> k in bySource)
    && (forall k :: k in bySource <==> HasRow(rows, k))
    && (forall k :: RowsOf(bySource, k) == Filter(rows, InSourceCell(k)))
  }

  ghost predicate HasRow(rows: seq<Row>, k: CellKey) { exists row :: row in rows && SourceKey(row) == k }

  lemma HasRowStep(rows: seq<Row>, row: Row, k: CellKey)
    ensures HasRow(rows + [row], k) <==> HasRow(rows, k) || SourceKey(row) == k
  {
    assert row in rows + [row];
    if HasRow(rows, k) {
      var r :| r in rows && SourceKey(r) == k;
      assert r in rows + [row];
    }
  }

  lemma RowsOfStep(rows: seq<Row>, row: Row, k: CellKey)
    ensures Filter(rows + [row], InSourceCell(k))
         == if k == SourceKey(row) then Filter(rows, InSourceCell(k)) + [row] else Filter(rows, InSourceCell(k))
  {
    FilterSnoc(rows, row, InSourceCell(k));
    assert Filter(rows, InSourceCell(k)) + [] == Filter(rows, InSourceCell(k));
  }

  lemma BySourceStep(rows: seq<Row>, order: seq<CellKey>, bySource: map<CellKey, seq<Row>>, row: Row)
    requires BySource(rows, order, bySource)
    ensures var k := SourceKey(row);
            BySource(rows + [row], if k in order then order else order + [k],
                     bySource[k := RowsOf(bySource, k) + [row]])
  {
    hide Distinct, Filter, HasRow, InSourceCell;
    DistinctSnoc(order, SourceKey(row));
    forall j ensures HasRow(rows + [row], j) <==> HasRow(rows, j) || SourceKey(row) == j { HasRowStep(rows, row, j); }
    forall j ensures Filter(rows + [row], InSourceCell(j))
                     == if j == SourceKey(row) then Filter(rows, InSourceCell(j)) + [row]
                        else Filter(rows, InSourceCell(j)) {
      RowsOfStep(rows, row, j);
    }
  }

  method GroupBySource(rows: seq<Row>) returns (order: seq<CellKey>, bySource: map<CellKey, seq<Row>>)
    ensures BySource(rows, order, bySource)
  {
    order, bySource := [], map[];
    assert BySource([], order, bySource);
    hide BySource;
    for i := 0 to |rows|
      invariant BySource(rows[..i], order, bySource)
    {
      var row := rows[i];
      assert rows[..i + 1] == rows[..i] + [row];
      BySourceStep(rows[..i], order, bySource, row);
      var k := SourceKey(row);
      if k !in order {
        order := order + [k];
      }
      bySource := bySource[k := RowsOf(bySource, k) + [row]];
    }
    assert rows[..|rows|] == rows;
  }

  // ---- Duplicate rows of ratio metrics ----

  ghost predicate HasDuplicate(rows: seq<Row>) {
    exists i, j :: 0 <= i < j < |rows| && SourceKey(rows[i]) == SourceKey(rows[j])
  }

  ghost predicate KeepsTwo<T(!new)>(xs: seq<T>, keep: T -> bool) {
    exists i, j :: 0 <= i < j < |xs| && keep(xs[i]) && keep(xs[j])
  }

  ghost predicate KeepsOne<T(!new)>(xs: seq<T>, keep: T -> bool) {
    exists i :: 0 <= i < |xs| && keep(xs[i])
  }

  lemma KeepsTwoStep<T(!new)>(xs: seq<T>, x: T, keep: T -> bool)
    ensures KeepsTwo(xs + [x], keep) <==> KeepsTwo(xs, keep) || (KeepsOne(xs, keep) && keep(x))
  {
    var all := xs + [x];
    if KeepsTwo(xs, keep) {
      var i, j :| 0 <= i < j < |xs| && keep(xs[i]) && keep(xs[j]);
      assert keep(all[i]) && keep(all[j]);
    }
    if KeepsOne(xs, keep) && keep(x) {
      var i :| 0 <= i < |xs| && keep(xs[i]);
      assert keep(all[i]) && keep(all[|xs|]);
    }
    if KeepsTwo(all, keep) {
      var i, j :| 0 <= i < j < |all| && keep(all[i]) && keep(all[j]);
      assert keep(xs[i]);
      if j < |xs| { assert keep(xs[j]); }
    }
  }

  lemma {:induction false} FilterOfTwo<T(!new)>(xs: seq<T>, keep: T -> bool)
    ensures |Filter(xs, keep)| >= 2 <==> KeepsTwo(xs, keep)
  {
    if xs != [] {
      var front, x := xs[..|xs| - 1], xs[|xs| - 1];
      assert xs == front + [x];
      FilterSnoc(front, x, keep);
      FilterOfTwo(front, keep);
      FilterOfOne(front, keep);
      KeepsTwoStep(front, x, keep);
    }
  }

  lemma FilterOfOne<T(!new)>(xs: seq<T>, keep: T -> bool)
    ensures |Filter(xs, keep)| >= 1 <==> KeepsOne(xs, keep)
  {
    var kept := Filter(xs, keep);
    if |kept| >= 1 { assert kept[0] in kept; }
    if i :| 0 <= i < |xs| && keep(xs[i]) { assert xs[i] in kept; }
  }

  lemma DuplicatesShareACell(rows: seq<Row>, order: seq<CellKey>, bySource: map<CellKey, seq<Row>>)
    requires BySource(rows, order, bySource)
    ensures HasDuplicate(rows) <==> exists k :: k in order && |RowsOf(bySource, k)| > 1
  {
    hide Distinct, Filter;
    if i, j :| 0 <= i < j < |rows| && SourceKey(rows[i]) == SourceKey(rows[j]) {
      var k := SourceKey(rows[i]);
      assert InSourceCell(k)(rows[i]) && InSourceCell(k)(rows[j]);
      FilterOfTwo(rows, InSourceCell(k));
      assert KeepsTwo(rows, InSourceCell(k));
      assert rows[i] in rows;
      assert HasRow(rows, k);
    }
    if k :| k in order && |RowsOf(bySource, k)| > 1 {
      FilterOfTwo(rows, InSourceCell(k));
      var i, j :| 0 <= i < j < |rows| && InSourceCell(k)(rows[i]) && InSourceCell(k)(rows[j]);
    }
  }

  // ---- Cells of mapped groups ----

  function MappedKey(mapped: map<string, string>, row: Row): Option<CellKey> {
    if row.group in mapped then Some(CellKey(row.time, mapped[row.group])) else None
  }

  function MapsTo(mapped: map<string, string>, k: CellKey): Row -> bool { row => MappedKey(mapped, row) == Some(k) }

  /** There is one cell for each time and name that has rows, and it aggregates all of them. */
  ghost predicate AggregatesRows(rows: seq<Row>, strategies: Strategies, mapped: map<string, string>, cells: Cells) {
    && Distinct(cells.order)
    && (forall k :: k in cells.order <==> k in cells.values)
    && (forall k :: k in cells.values <==> exists row :: row in rows && MappedKey(mapped, row) == Some(k))
    && (forall k | k in cells.values :: cells.values[k] == Aggregated(strategies, Filter(rows, MapsTo(mapped, k))))
  }

  lemma OneSourcePerCell(rows: seq<Row>, mapped: map<string, string>, k: CellKey)
    requires Injective(mapped) && k.group in mapped
    ensures Filter(rows, InSourceCell(k)) == Filter(rows, MapsTo(mapped, CellKey(k.time, mapped[k.group])))
  {
    SameFilter(rows, InSourceCell(k), MapsTo(mapped, CellKey(k.time, mapped[k.group])));
  }

  /** The cells made from the source cells `done`. */
  ghost predicate Mapped(rows: seq<Row>, strategies: Strategies, mapped: map<string, string>, done: seq<CellKey>,
                         cells: Cells) {
    && Distinct(cells.order)
    && (forall k :: k in cells.order <==> k in cells.values)
    && (forall k :: k in cells.values
             <==> exists s :: s in done && s.group in mapped && k == CellKey(s.time, mapped[s.group]))
    && (forall k | k in cells.values :: cells.values[k] == Aggregated(strategies, Filter(rows, MapsTo(mapped, k))))
  }

  /** A source cell still to come never meets a cell that is there already. */
  lemma NoCellIsOverwritten(rows: seq<Row>, strategies: Strategies, mapped: map<string, string>, done: seq<CellKey>,
                            cells: Cells, s: CellKey)
    requires Injective(mapped) && Mapped(rows, strategies, mapped, done, cells) && s !in done && s.group in mapped
    ensures CellKey(s.time, mapped[s.group]) !in cells.values
  {
  }

  lemma MappedStep(rows: seq<Row>, strategies: Strategies, mapped: map<string, string>, done: seq<CellKey>,
                   cells: Cells, s: CellKey)
    requires Injective(mapped) && Mapped(rows, strategies, mapped, done, cells) && s !in done
    ensures s.group !in mapped ==> Mapped(rows, strategies, mapped, done + [s], cells)
    ensures s.group in mapped ==>
              var k := CellKey(s.time, mapped[s.group]);
              Mapped(rows, strategies, mapped, done + [s],
                     Cells(cells.order + [k], cells.values[k := Aggregated(strategies, Filter(rows, InSourceCell(s)))]))
  {
    assert forall x :: x in done + [s] <==> x in done || x == s;
    if s.group in mapped {
      var k := CellKey(s.time, mapped[s.group]);
      NoCellIsOverwritten(rows, strategies, mapped, done, cells, s);
      OneSourcePerCell(rows, mapped, s);
      DistinctSnoc(cells.order, k);
      hide Injective, Distinct, Filter, Aggregated;
      forall j ensures (j in cells.values || j == k)
                   <==> exists x :: x in done + [s] && x.group in mapped && j == CellKey(x.time, mapped[x.group]) {
        CellsAfter(mapped, done, cells, s, j);
      }
    }
  }

  lemma CellsAfter(mapped: map<string, string>, done: seq<CellKey>, cells: Cells, s: CellKey, j: CellKey)
    requires s.group in mapped
    requires j in cells.values
             <==> exists x :: x in done && x.group in mapped && j == CellKey(x.time, mapped[x.group])
    ensures (j in cells.values || j == CellKey(s.time, mapped[s.group]))
            <==> exists x :: x in done + [s] && x.group in mapped && j == CellKey(x.time, mapped[x.group])
  {
    assert s in done + [s];
    if j in cells.values {
      var x :| x in done && x.group in mapped && j == CellKey(x.time, mapped[x.group]);
      assert x in done + [s];
    }
  }

  lemma AllMapped(rows: seq<Row>, strategies: Strategies, mapped: map<string, string>, order: seq<CellKey>,
                  bySource: map<CellKey, seq<Row>>, cells: Cells)
    requires BySource(rows, order, bySource) && Mapped(rows, strategies, mapped, order, cells)
    ensures AggregatesRows(rows, strategies, mapped, cells)
  {
    hide Distinct, Filter, Aggregated;
    forall k ensures k in cells.values <==> exists row :: row in rows && MappedKey(mapped, row) == Some(k) {
      if k in cells.values {
        var s :| s in order && s.group in mapped && k == CellKey(s.time, mapped[s.group]);
        var row :| row in rows && SourceKey(row) == s;
        assert MappedKey(mapped, row) == Some(k);
      }
      if row :| row in rows && MappedKey(mapped, row) == Some(k) {
        assert HasRow(rows, SourceKey(row));
      }
    }
  }

  method AggregateSourceCells(rows: seq<Row>, strategies: Strategies, mapped: map<string, string>)
    returns (r: Result<Cells, CrosswalkError>)
    requires Injective(mapped)
    ensures r.Err? <==> HasDuplicate(rows) && exists m :: m in strategies && strategies[m] == Ratio
    ensures r.Ok? ==> AggregatesRows(rows, strategies, mapped, r.value)
  {
    hide BySource, Mapped, Injective, Distinct, AggregatesRows, HasDuplicate;
    var order, bySource := GroupBySource(rows);
    DuplicatesShareACell(rows, order, bySource);
    for i := 0 to |order|
      invariant forall j | 0 <= j < i ::
                  |RowsOf(bySource, order[j])| > 1 ==> forall m | m in strategies :: strategies[m] != Ratio
    {
      if |RowsOf(bySource, order[i])| > 1 && exists m :: m in strategies && strategies[m] == Ratio {
        return Err(RatioNeedsOneRowPerCell);
      }
    }
    var cells := Cells([], map[]);
    NothingMapped(rows, strategies, mapped);
    for i := 0 to |order|
      invariant Mapped(rows, strategies, mapped, order[..i], cells)
    {
      var s := order[i];
      assert order[..i + 1] == order[..i] + [s];
      NotDoneYet(rows, order, bySource, i);
      MappedStep(rows, strategies, mapped, order[..i], cells, s);
      if s.group in mapped {
        var k := CellKey(s.time, mapped[s.group]);
        cells := Cells(cells.order + [k], cells.values[k := Aggregated(strategies, RowsOf(bySource, s))]);
      }
    }
    assert order[..|order|] == order;
    AllMapped(rows, strategies, mapped, order, bySource, cells);
    r := Ok(cells);
  }

  lemma NothingMapped(rows: seq<Row>, strategies: Strategies, mapped: map<string, string>)
    ensures Mapped(rows, strategies, mapped, [], Cells([], map[]))
  {
  }

  lemma NotDoneYet(rows: seq<Row>, order: seq<CellKey>, bySource: map<CellKey, seq<Row>>, i: nat)
    requires BySource(rows, order, bySource) && i < |order|
    ensures order[i] !in order[..i] && RowsOf(bySource, order[i]) == Filter(rows, InSourceCell(order[i]))
  {
  }

  /** A metric that must not be added up shows the value of the one row of its cell. */
  lemma RatioIsThatOfItsOnlyRow(rows: seq<Row>, strategies: Strategies, mapped: map<string, string>, cells: Cells,
                                metric: string, row: Row)
    requires Injective(mapped) && AggregatesRows(rows, strategies, mapped, cells) && !HasDuplicate(rows)
    requires metric in strategies && strategies[metric] == Ratio && row in rows && row.group in mapped
    ensures var k := CellKey(row.time, mapped[row.group]);
            && k in cells.values && metric in cells.values[k]
            && cells.values[k][metric] == if metric in row.metrics then Some(row.metrics[metric]) else None
  {
    hide Distinct, Filter, Aggregated, Injective, HasDuplicate;
    var k := CellKey(row.time, mapped[row.group]);
    assert MappedKey(mapped, row) == Some(k);
    OnlyRowOfCell(rows, mapped, k, row);
    RatioOfOneRow(strategies, metric, row);
  }

  lemma RatioOfOneRow(strategies: Strategies, metric: string, row: Row)
    requires metric in strategies && strategies[metric] == Ratio
    ensures metric in Aggregated(strategies, [row])
    ensures Aggregated(strategies, [row])[metric] == if metric in row.metrics then Some(row.metrics[metric]) else None
  {
    assert [row][..0] == [] && Numbers([], metric) == [];
  }

  lemma OnlyRowOfCell(rows: seq<Row>, mapped: map<string, string>, k: CellKey, row: Row)
    requires Injective(mapped) && !HasDuplicate(rows) && row in rows && MappedKey(mapped, row) == Some(k)
    ensures Filter(rows, MapsTo(mapped, k)) == [row]
  {
    var kept := Filter(rows, MapsTo(mapped, k));
    FilterOfTwo(rows, MapsTo(mapped, k));
    forall i, j | 0 <= i < j < |rows| ensures !(MapsTo(mapped, k)(rows[i]) && MapsTo(mapped, k)(rows[j])) {
      assert SourceKey(rows[i]) != SourceKey(rows[j]);
    }
    assert row in kept;
  }

  // ---- Both sources side by side ----

  datatype AlignedRow = AlignedRow(time: int, name: string, pair: Pair, leftPresent: bool, rightPresent: bool,
                                   left: CellValues, right: CellValues)

  function Side(cells: Cells, metrics: set<string>, k: CellKey): CellValues {
    map metric | metric in metrics ::
      if k in cells.values && metric in cells.values[k] then cells.values[k][metric] else None
  }

  function AlignedAt(left: Cells, right: Cells, accepted: map<string, Pair>, leftMetrics: set<string>,
                     rightMetrics: set<string>, k: CellKey): AlignedRow
    requires k.group in accepted
  {
    AlignedRow(k.time, k.group, accepted[k.group], k in left.values, k in right.values,
               Side(left, leftMetrics, k), Side(right, rightMetrics, k))
  }

  function NotIn(cells: Cells): CellKey -> bool { k => k !in cells.values }

  /** The keys of either side, each once. */
  function UnionOfKeys(left: Cells, right: Cells): seq<CellKey> { left.order + Filter(right.order, NotIn(left)) }

  ghost predicate IsCells(cells: Cells, accepted: map<string, Pair>) {
    && Distinct(cells.order)
    && (forall k :: k in cells.order <==> k in cells.values)
    && forall k | k in cells.values :: k.group in accepted
  }

  /** `keys` lists the cells of either side, each once. */
  ghost predicate ListsCells(left: Cells, right: Cells, keys: seq<CellKey>) {
    Distinct(keys) && forall k :: k in keys <==> k in left.values || k in right.values
  }

  /** The keys in the order of the aligned rows. */
  function CellKeys(left: Cells, right: Cells, atMost: (CellKey, CellKey) -> bool): seq<CellKey> {
    Sort(UnionOfKeys(left, right), atMost)
  }

  lemma UnionListsCells(left: Cells, right: Cells, accepted: map<string, Pair>, atMost: (CellKey, CellKey) -> bool)
    requires IsCells(left, accepted) && IsCells(right, accepted)
    ensures ListsCells(left, right, CellKeys(left, right, atMost))
  {
    var more := Filter(right.order, NotIn(left));
    FilterDistinct(right.order, NotIn(left));
    DistinctAppend(left.order, more);
    var keys := UnionOfKeys(left, right);
    SameSetOf(Sort(keys, atMost), keys);
    hide Distinct, Filter;
    forall k ensures k in Sort(keys, atMost) <==> k in left.values || k in right.values {
      assert k in SetOf(keys) <==> k in SetOf(Sort(keys, atMost));
      if k in right.values && k !in left.values { assert NotIn(left)(k); }
    }
  }

  lemma ListedAreAccepted(left: Cells, right: Cells, accepted: map<string, Pair>, keys: seq<CellKey>)
    requires IsCells(left, accepted) && IsCells(right, accepted) && ListsCells(left, right, keys)
    ensures forall i | 0 <= i < |keys| :: keys[i].group in accepted
  {
    forall i | 0 <= i < |keys| ensures keys[i].group in accepted { assert keys[i] in keys; }
  }

  method AlignedRows(left: Cells, right: Cells, accepted: map<string, Pair>, leftMetrics: set<string>,
                     rightMetrics: set<string>, atMost: (CellKey, CellKey) -> bool)
    returns (rows: seq<AlignedRow>)
    requires IsCells(left, accepted) && IsCells(right, accepted)
    ensures ListsCells(left, right, CellKeys(left, right, atMost))
    ensures |rows| == |CellKeys(left, right, atMost)|
    ensures forall i | 0 <= i < |rows| ::
              && CellKeys(left, right, atMost)[i].group in accepted
              && rows[i]
                 == AlignedAt(left, right, accepted, leftMetrics, rightMetrics, CellKeys(left, right, atMost)[i])
  {
    hide Distinct, AlignedAt, IsCells, ListsCells, CellKeys, Side;
    var keys := CellKeys(left, right, atMost);
    UnionListsCells(left, right, accepted, atMost);
    ListedAreAccepted(left, right, accepted, keys);
    rows := [];
    for i := 0 to |keys|
      invariant |rows| == i
      invariant forall j | 0 <= j < i ::
                  && keys[j].group in accepted
                  && rows[j] == AlignedAt(left, right, accepted, leftMetrics, rightMetrics, keys[j])
    {
      rows := rows + [AlignedAt(left, right, accepted, leftMetrics, rightMetrics, keys[i])];
    }
  }

  // ---- Conservation ----

  function Observed(x: Option<real>): real { if x.Some? then x.value else 0.0 }

  function ValueIn(values: CellValues, metric: string): real {
    if metric in values then Observed(values[metric]) else 0.0
  }

  function LeftValue(metric: string): AlignedRow -> real { (row: AlignedRow) => ValueIn(row.left, metric) }

  function RightValue(metric: string): AlignedRow -> real { (row: AlignedRow) => ValueIn(row.right, metric) }

  function Metric(metric: string, row: Row): real { if metric in row.metrics then row.metrics[metric] else 0.0 }

  /** What a row of a mapped group has of the metric. */
  function MappedMetric(mapped: map<string, string>, metric: string): Row -> real {
    (row: Row) => if row.group in mapped then Metric(metric, row) else 0.0
  }

  lemma NumbersSnoc(rows: seq<Row>, row: Row, metric: string)
    ensures Total(Numbers(rows + [row], metric), Identity())
            == Total(Numbers(rows, metric), Identity()) + Metric(metric, row)
  {
    assert (rows + [row])[..|rows|] == rows;
    if metric in row.metrics {
      TotalSnoc(Numbers(rows, metric), row.metrics[metric], Identity());
    } else {
      assert Numbers(rows, metric) + [] == Numbers(rows, metric);
    }
  }

  lemma NoNumbers(metric: string, keep: Row -> bool, f: Row -> real)
    ensures Total(Numbers(Filter([], keep), metric), Identity()) == 0.0 == Total([], f)
  {
  }

  lemma {:induction false} TotalOfNumbers(rows: seq<Row>, metric: string, keep: Row -> bool, f: Row -> real)
    requires forall row :: f(row) == if keep(row) then Metric(metric, row) else 0.0
    ensures Total(Numbers(Filter(rows, keep), metric), Identity()) == Total(rows, f)
  {
    hide Total, Filter, Numbers, Metric;
    if rows == [] {
      NoNumbers(metric, keep, f);
    } else {
      var front, row := rows[..|rows| - 1], rows[|rows| - 1];
      assert rows == front + [row];
      TotalOfNumbers(front, metric, keep, f);
      FilterSnoc(front, row, keep);
      TotalSnoc(front, row, f);
      var kept := Filter(front, keep);
      NumbersSnoc(kept, row, metric);
      assert kept + [] == kept;
    }
  }

  lemma AggregateIsTotal(numbers: seq<real>)
    ensures Observed(Aggregate(Sum, numbers)) == Total(numbers, Identity())
  {
  }

  function KeyOf(mapped: map<string, string>): Row -> Option<CellKey> { row => MappedKey(mapped, row) }

  /** What a side shows for a cell is what the source has in it. */
  lemma CellShowsItsRows(rows: seq<Row>, strategies: Strategies, mapped: map<string, string>, cells: Cells,
                         metric: string, k: CellKey)
    requires AggregatesRows(rows, strategies, mapped, cells) && metric in strategies && strategies[metric] == Sum
    ensures ValueIn(Side(cells, strategies.Keys, k), metric)
         == GroupTotal(rows, KeyOf(mapped), MappedMetric(mapped, metric))(Some(k))
  {
    hide Distinct, Filter, Numbers, Total;
    var inCell := InGroup(KeyOf(mapped), MappedMetric(mapped, metric), Some(k));
    forall row ensures inCell(row) == if MapsTo(mapped, k)(row) then Metric(metric, row) else 0.0 { }
    if k in cells.values {
      TotalOfNumbers(rows, metric, MapsTo(mapped, k), inCell);
      AggregateIsTotal(Numbers(Filter(rows, MapsTo(mapped, k)), metric));
    } else {
      forall i | 0 <= i < |rows| ensures inCell(rows[i]) == 0.0 { assert rows[i] in rows; }
      TotalConstant(rows, inCell, 0.0);
    }
  }

  function SomeKey(k: CellKey): Option<CellKey> { Some(k) }

  lemma DistinctSome(keys: seq<CellKey>)
    requires Distinct(keys)
    ensures Distinct(Map(keys, SomeKey))
  {
  }

  /** One side of the aligned rows adds up to the rows of the mapped groups. */
  lemma SideIsConserved(rows: seq<Row>, strategies: Strategies, mapped: map<string, string>, cells: Cells,
                        metric: string, keys: seq<CellKey>, shown: CellKey -> real)
    requires AggregatesRows(rows, strategies, mapped, cells) && metric in strategies && strategies[metric] == Sum
    requires Distinct(keys) && forall k | k in cells.values :: k in keys
    requires forall k :: shown(k) == ValueIn(Side(cells, strategies.Keys, k), metric)
    ensures Total(keys, shown) == Total(rows, MappedMetric(mapped, metric))
  {
    var groups := Map(keys, SomeKey);
    var groupTotal := GroupTotal(rows, KeyOf(mapped), MappedMetric(mapped, metric));
    DistinctSome(keys);
    forall row | row in rows ensures KeyOf(mapped)(row) in groups || MappedMetric(mapped, metric)(row) == 0.0 {
      if row.group in mapped {
        var k := CellKey(row.time, mapped[row.group]);
        assert MappedKey(mapped, row) == Some(k);
        assert k in keys;
        var i :| 0 <= i < |keys| && keys[i] == k;
        assert groups[i] == Some(k);
      }
    }
    hide Distinct, GroupTotal, Total, Side, ValueIn;
    GroupedTotals(rows, groups, KeyOf(mapped), MappedMetric(mapped, metric));
    forall i | 0 <= i < |keys| ensures shown(keys[i]) == groupTotal(groups[i]) {
      CellShowsItsRows(rows, strategies, mapped, cells, metric, keys[i]);
    }
    TotalAgree(keys, groups, shown, groupTotal);
  }

  /** Aligning loses and invents nothing: on each side a summed metric adds up to what the source has
    * in its mapped groups. */
  lemma AligningConserves(leftRows: seq<Row>, rightRows: seq<Row>, leftStrategies: Strategies,
                          rightStrategies: Strategies, accepted: map<string, Pair>, left: Cells, right: Cells,
                          keys: seq<CellKey>, aligned: seq<AlignedRow>)
    requires PartialBijection(accepted)
    requires AggregatesRows(leftRows, leftStrategies, Lefts(accepted), left)
    requires AggregatesRows(rightRows, rightStrategies, Rights(accepted), right)
    requires ListsCells(left, right, keys) && |aligned| == |keys|
    requires forall i | 0 <= i < |keys| :: keys[i].group in accepted &&
               aligned[i] == AlignedAt(left, right, accepted, leftStrategies.Keys, rightStrategies.Keys, keys[i])
    ensures forall m | m in leftStrategies && leftStrategies[m] == Sum ::
              Total(aligned, LeftValue(m)) == Total(leftRows, MappedMetric(Lefts(accepted), m))
    ensures forall m | m in rightStrategies && rightStrategies[m] == Sum ::
              Total(aligned, RightValue(m)) == Total(rightRows, MappedMetric(Rights(accepted), m))
  {
    hide AggregatesRows, Lefts, Rights, PartialBijection, Distinct, Side, ValueIn, Total;
    forall m | m in leftStrategies && leftStrategies[m] == Sum
      ensures Total(aligned, LeftValue(m)) == Total(leftRows, MappedMetric(Lefts(accepted), m))
    {
      var shown := k => ValueIn(Side(left, leftStrategies.Keys, k), m);
      TotalAgree(aligned, keys, LeftValue(m), shown);
      SideIsConserved(leftRows, leftStrategies, Lefts(accepted), left, m, keys, shown);
    }
    forall m | m in rightStrategies && rightStrategies[m] == Sum
      ensures Total(aligned, RightValue(m)) == Total(rightRows, MappedMetric(Rights(accepted), m))
    {
      var shown := k => ValueIn(Side(right, rightStrategies.Keys, k), m);
      TotalAgree(aligned, keys, RightValue(m), shown);
      SideIsConserved(rightRows, rightStrategies, Rights(accepted), right, m, keys, shown);
    }
  }
}
