/** Rows of a dimension added up per member and period, and the members made from the cells
  * (`_dimension_profile`). A dictionary that keeps insertion order is the list of its keys
  * beside a map. */
module DimensionCells {
  import opened Wrappers
  import opened Totals
  import opened References
  import opened Grouping
  import opened MemberShares

  /** A row after its fields were read: `value` is the normalized member. */
  datatype Row = Row(group: string, value: string, amount: Option<real>, orders: Option<real>, users: Option<real>,
                     sampleSize: Option<int>)

  datatype Cell = Cell(amount: real, orders: real, users: real, ordersObserved: bool, usersObserved: bool,
                       samples: seq<int>)

  const EMPTY_CELL := Cell(0.0, 0.0, 0.0, false, false, [])

  /** A member in a period. */
  datatype Key = Key(value: string, group: string)

  datatype Periods = Periods(baseline: string, target: string)

  predicate IsValid(p: Periods, row: Row) {
    (row.group == p.baseline || row.group == p.target) && row.amount.Some?
  }

  predicate InCell(p: Periods, k: Key, row: Row) { IsValid(p, row) && row.value == k.value && row.group == k.group }

  // ---- What a cell should hold ----

  function Known(x: Option<real>): real { if x.Some? then x.value else 0.0 }

  function AmountIn(p: Periods, k: Key): Row -> real {
    (row: Row) => if InCell(p, k, row) then Known(row.amount) else 0.0
  }

  function OrdersIn(p: Periods, k: Key): Row -> real {
    (row: Row) => if InCell(p, k, row) then Known(row.orders) else 0.0
  }

  function UsersIn(p: Periods, k: Key): Row -> real {
    (row: Row) => if InCell(p, k, row) then Known(row.users) else 0.0
  }

  function SamplesIn(p: Periods, k: Key): Row -> seq<int> {
    (row: Row) => if InCell(p, k, row) && row.sampleSize.Some? then [row.sampleSize.value] else []
  }

  function CellOf(p: Periods, rows: seq<Row>, k: Key): Cell {
    Cell(Total(rows, AmountIn(p, k)), Total(rows, OrdersIn(p, k)), Total(rows, UsersIn(p, k)),
         exists row :: row in rows && InCell(p, k, row) && row.orders.Some?,
         exists row :: row in rows && InCell(p, k, row) && row.users.Some?,
         Collect(rows, SamplesIn(p, k)))
  }

  predicate HasCell(p: Periods, rows: seq<Row>, k: Key) { exists row :: row in rows && InCell(p, k, row) }

  predicate HasMember(p: Periods, rows: seq<Row>, value: string) {
    exists row :: row in rows && IsValid(p, row) && row.value == value
  }

  // ---- Adding the rows up ----

  function AddRow(c: Cell, row: Row): Cell {
    Cell(c.amount + Known(row.amount), c.orders + Known(row.orders), c.users + Known(row.users),
         c.ordersObserved || row.orders.Some?, c.usersObserved || row.users.Some?,
         c.samples + if row.sampleSize.Some? then [row.sampleSize.value] else [])
  }

  function Stored(cells: map<Key, Cell>, k: Key): Cell { if k in cells then cells[k] else EMPTY_CELL }

  lemma CellStep(p: Periods, rows: seq<Row>, row: Row, k: Key)
    ensures CellOf(p, rows + [row], k)
            == if InCell(p, k, row) then AddRow(CellOf(p, rows, k), row) else CellOf(p, rows, k)
  {
    TotalSnoc(rows, row, AmountIn(p, k));
    TotalSnoc(rows, row, OrdersIn(p, k));
    TotalSnoc(rows, row, UsersIn(p, k));
    CollectSnoc(rows, row, SamplesIn(p, k));
    MembersOfSnoc(rows, row);
    hide Total, Collect, IsValid;
    var before, after := CellOf(p, rows, k), CellOf(p, rows + [row], k);
    assert after.ordersObserved <==> before.ordersObserved || (InCell(p, k, row) && row.orders.Some?);
    assert after.usersObserved <==> before.usersObserved || (InCell(p, k, row) && row.users.Some?);
  }

  lemma MembersOfSnoc<T>(xs: seq<T>, x: T)
    ensures forall y :: y in xs + [x] <==> y in xs || y == x
  {
  }

  /** The members of the valid rows, each where it is first seen. */
  function FirstSeen(p: Periods, rows: seq<Row>): seq<string> {
    if rows == [] then []
    else
      var before, row := FirstSeen(p, rows[..|rows| - 1]), rows[|rows| - 1];
      if IsValid(p, row) && row.value !in before then before + [row.value] else before
  }

  lemma FirstSeenSnoc(p: Periods, rows: seq<Row>, row: Row)
    ensures FirstSeen(p, rows + [row])
            == if IsValid(p, row) && row.value !in FirstSeen(p, rows) then FirstSeen(p, rows) + [row.value]
               else FirstSeen(p, rows)
  {
    assert (rows + [row])[..|rows|] == rows;
  }

  /** The cells built so far. */
  ghost predicate Paired(p: Periods, rows: seq<Row>, order: seq<string>, cells: map<Key, Cell>) {
    && order == FirstSeen(p, rows)
    && Distinct(order)
    && (forall v :: v in order <==> HasMember(p, rows, v))
    && (forall k :: k in cells <==> HasCell(p, rows, k))
    && (forall k :: Stored(cells, k) == CellOf(p, rows, k))
  }

  lemma HasStep(p: Periods, rows: seq<Row>, row: Row)
    ensures forall v :: HasMember(p, rows + [row], v) <==> HasMember(p, rows, v) || (IsValid(p, row) && row.value == v)
    ensures forall k :: HasCell(p, rows + [row], k) <==> HasCell(p, rows, k) || InCell(p, k, row)
  {
    hide IsValid;
    MembersOfSnoc(rows, row);
    forall v ensures HasMember(p, rows + [row], v) <==> HasMember(p, rows, v) || (IsValid(p, row) && row.value == v) { }
    forall k ensures HasCell(p, rows + [row], k) <==> HasCell(p, rows, k) || InCell(p, k, row) { }
  }

  lemma PairedStep(p: Periods, rows: seq<Row>, row: Row, order: seq<string>, cells: map<Key, Cell>)
    requires Paired(p, rows, order, cells) && IsValid(p, row)
    ensures var k := Key(row.value, row.group);
            Paired(p, rows + [row], if row.value in order then order else order + [row.value],
                   cells[k := AddRow(Stored(cells, k), row)])
  {
    hide AddRow, CellOf, HasMember, HasCell, Distinct, FirstSeen;
    var k := Key(row.value, row.group);
    HasStep(p, rows, row);
    FirstSeenSnoc(p, rows, row);
    DistinctSnoc(order, row.value);
    var after := cells[k := AddRow(Stored(cells, k), row)];
    forall j ensures Stored(after, j) == CellOf(p, rows + [row], j) { CellStep(p, rows, row, j); }
  }

  lemma PairedSkip(p: Periods, rows: seq<Row>, row: Row, order: seq<string>, cells: map<Key, Cell>)
    requires Paired(p, rows, order, cells) && !IsValid(p, row)
    ensures Paired(p, rows + [row], order, cells)
  {
    hide CellOf, HasMember, HasCell, Distinct, FirstSeen;
    HasStep(p, rows, row);
    FirstSeenSnoc(p, rows, row);
    forall j ensures Stored(cells, j) == CellOf(p, rows + [row], j) { CellStep(p, rows, row, j); }
  }

  lemma NothingPaired(p: Periods)
    ensures Paired(p, [], [], map[])
  {
  }

  method PairRows(p: Periods, rows: seq<Row>) returns (order: seq<string>, cells: map<Key, Cell>, invalidRows: nat)
    ensures Paired(p, rows, order, cells)
    ensures invalidRows == |Filter(rows, (row: Row) => !IsValid(p, row))|
  {
    hide Paired, AddRow, IsValid;
    ghost var invalid := (row: Row) => !IsValid(p, row);
    order, cells, invalidRows := [], map[], 0;
    NothingPaired(p);
    for i := 0 to |rows|
      invariant Paired(p, rows[..i], order, cells)
      invariant invalidRows == |Filter(rows[..i], invalid)|
    {
      var row := rows[i];
      assert rows[..i + 1] == rows[..i] + [row];
      FilterSnoc(rows[..i], row, invalid);
      if !IsValid(p, row) {
        PairedSkip(p, rows[..i], row, order, cells);
        invalidRows := invalidRows + 1;
        continue;
      }
      PairedStep(p, rows[..i], row, order, cells);
      var k := Key(row.value, row.group);
      if row.value !in order {
        order := order + [row.value];
      }
      cells := cells[k := AddRow(Stored(cells, k), row)];
    }
    assert rows[..|rows|] == rows;
    SameFilter(rows, invalid, (row: Row) => !IsValid(p, row));
  }

  // ---- From cells to members ----

  /** A member seen in one period only is dropped unless the window is complete. */
  predicate IsKept(p: Periods, cells: map<Key, Cell>, complete: bool, value: string) {
    complete || (Key(value, p.baseline) in cells && Key(value, p.target) in cells)
  }

  function Samples(p: Periods, cells: map<Key, Cell>, value: string): seq<int> {
    Stored(cells, Key(value, p.baseline)).samples + Stored(cells, Key(value, p.target)).samples
  }

  function MemberOf(p: Periods, cells: map<Key, Cell>, minSampleSize: int, value: string): Member {
    var samples := Samples(p, cells, value);
    Member(value, value == "Unknown",
           samples != [] && (forall n | n in samples :: n >= minSampleSize),
           Stored(cells, Key(value, p.baseline)).amount,
           Stored(cells, Key(value, p.target)).amount,
           None, None, None, None)
  }

  ghost predicate MembersOfValues(p: Periods, cells: map<Key, Cell>, minSampleSize: int, values: seq<string>,
                                  members: seq<Member>) {
    |members| == |values| && forall i | 0 <= i < |members| :: members[i] == MemberOf(p, cells, minSampleSize, values[i])
  }

  lemma NoMemberYet(p: Periods, cells: map<Key, Cell>, minSampleSize: int)
    ensures MembersOfValues(p, cells, minSampleSize, [], [])
  {
  }

  lemma OneMemberMore(p: Periods, cells: map<Key, Cell>, minSampleSize: int, values: seq<string>, members: seq<Member>,
                      v: string)
    requires MembersOfValues(p, cells, minSampleSize, values, members)
    ensures MembersOfValues(p, cells, minSampleSize, values + [v], members + [MemberOf(p, cells, minSampleSize, v)])
  {
    hide MemberOf;
  }

  method MeasureMembers(p: Periods, order: seq<string>, cells: map<Key, Cell>, complete: bool, minSampleSize: int)
    returns (members: seq<Member>, incompleteValues: nat)
    ensures MembersOfValues(p, cells, minSampleSize, KeptValues(p, order, cells, complete), members)
    ensures incompleteValues == |order| - |members|
  {
    hide IsKept, MemberOf, MembersOfValues;
    assert MembersOfValues(p, cells, minSampleSize, [], []) by { NoMemberYet(p, cells, minSampleSize); }
    ghost var kept := Kept(p, cells, complete);
    members, incompleteValues := [], 0;
    for i := 0 to |order|
      invariant MembersOfValues(p, cells, minSampleSize, Filter(order[..i], kept), members)
      invariant |members| <= i && incompleteValues == i - |members|
    {
      var value := order[i];
      assert order[..i + 1] == order[..i] + [value];
      FilterSnoc(order[..i], value, kept);
      assert Filter(order[..i], kept) + [] == Filter(order[..i], kept);
      if !IsKept(p, cells, complete, value) {
        incompleteValues := incompleteValues + 1;
        continue;
      }
      OneMemberMore(p, cells, minSampleSize, Filter(order[..i], kept), members, value);
      members := members + [MemberOf(p, cells, minSampleSize, value)];
    }
    assert order[..|order|] == order;
  }

  // ---- Members as the rows define them ----

  /** The amounts and samples of a member are those of its rows in the two periods. */
  function MemberOfRows(p: Periods, rows: seq<Row>, minSampleSize: int): string -> Member {
    value =>
      var b, t := CellOf(p, rows, Key(value, p.baseline)), CellOf(p, rows, Key(value, p.target));
      var samples := b.samples + t.samples;
      Member(value, value == "Unknown", samples != [] && (forall n | n in samples :: n >= minSampleSize),
             b.amount, t.amount, None, None, None, None)
  }

  function KeptOfRows(p: Periods, rows: seq<Row>, complete: bool): string -> bool {
    value => complete || (HasCell(p, rows, Key(value, p.baseline)) && HasCell(p, rows, Key(value, p.target)))
  }

  /** One member for each value kept, in the order in which they are first seen. */
  function MembersOfRows(p: Periods, rows: seq<Row>, complete: bool, minSampleSize: int): seq<Member> {
    Map(Filter(FirstSeen(p, rows), KeptOfRows(p, rows, complete)), MemberOfRows(p, rows, minSampleSize))
  }

  lemma MemberOfCells(p: Periods, rows: seq<Row>, order: seq<string>, cells: map<Key, Cell>, minSampleSize: int,
                      value: string)
    requires Paired(p, rows, order, cells)
    ensures MemberOf(p, cells, minSampleSize, value) == MemberOfRows(p, rows, minSampleSize)(value)
  {
    hide CellOf, HasMember, HasCell, Distinct, FirstSeen;
    var b, t := Key(value, p.baseline), Key(value, p.target);
    assert Stored(cells, b) == CellOf(p, rows, b) && Stored(cells, t) == CellOf(p, rows, t);
  }

  lemma MembersAreThoseOfRows(p: Periods, rows: seq<Row>, order: seq<string>, cells: map<Key, Cell>, complete: bool,
                              minSampleSize: int, members: seq<Member>)
    requires Paired(p, rows, order, cells)
    requires MembersOfValues(p, cells, minSampleSize, KeptValues(p, order, cells, complete), members)
    ensures members == MembersOfRows(p, rows, complete, minSampleSize)
  {
    hide CellOf, HasMember, HasCell, Distinct, FirstSeen, MemberOf, MemberOfRows, Filter;
    forall value ensures Kept(p, cells, complete)(value) == KeptOfRows(p, rows, complete)(value) {
      assert Key(value, p.baseline) in cells <==> HasCell(p, rows, Key(value, p.baseline));
      assert Key(value, p.target) in cells <==> HasCell(p, rows, Key(value, p.target));
    }
    SameFilter(order, Kept(p, cells, complete), KeptOfRows(p, rows, complete));
    var values := KeptValues(p, order, cells, complete);
    forall i | 0 <= i < |values| ensures members[i] == MemberOfRows(p, rows, minSampleSize)(values[i]) {
      MemberOfCells(p, rows, order, cells, minSampleSize, values[i]);
    }
  }

  // ---- Conservation ----

  /** What a row adds to a period. */
  function AmountOf(p: Periods, group: string): Row -> real {
    (row: Row) => if IsValid(p, row) && row.group == group then Known(row.amount) else 0.0
  }

  function CellAmount(p: Periods, rows: seq<Row>, group: string): string -> real {
    v => CellOf(p, rows, Key(v, group)).amount
  }

  /** The cells of a period hold every valid row of it once. */
  lemma CellsHoldEveryRow(p: Periods, rows: seq<Row>, order: seq<string>, group: string)
    requires Distinct(order) && forall row | row in rows && IsValid(p, row) :: row.value in order
    ensures Total(order, CellAmount(p, rows, group)) == Total(rows, AmountOf(p, group))
  {
    hide Distinct, Total;
    var value := (row: Row) => row.value;
    GroupedTotals(rows, order, value, AmountOf(p, group));
    forall i | 0 <= i < |order|
      ensures CellAmount(p, rows, group)(order[i]) == GroupTotal(rows, value, AmountOf(p, group))(order[i])
    {
      TotalAgree(rows, rows, AmountIn(p, Key(order[i], group)), InGroup(value, AmountOf(p, group), order[i]));
    }
    TotalAgree(order, order, CellAmount(p, rows, group), GroupTotal(rows, value, AmountOf(p, group)));
  }

  lemma {:induction false} TotalOfParts<T>(xs: seq<T>, keep: T -> bool, drop: T -> bool, f: T -> real)
    requires forall x :: drop(x) <==> !keep(x)
    ensures Total(xs, f) == Total(Filter(xs, keep), f) + Total(Filter(xs, drop), f)
  {
    if xs != [] {
      TotalOfParts(xs[1..], keep, drop, f);
      TotalAppend([xs[0]], Filter(xs[1..], keep), f);
      TotalAppend([xs[0]], Filter(xs[1..], drop), f);
      assert [xs[0]][1..] == [];
      assert Total([xs[0]], f) == f(xs[0]) + Total([], f);
    }
  }

  function Kept(p: Periods, cells: map<Key, Cell>, complete: bool): string -> bool {
    v => IsKept(p, cells, complete, v)
  }

  function Dropped(p: Periods, cells: map<Key, Cell>, complete: bool): string -> bool {
    v => !IsKept(p, cells, complete, v)
  }

  function KeptValues(p: Periods, order: seq<string>, cells: map<Key, Cell>, complete: bool): seq<string> {
    Filter(order, Kept(p, cells, complete))
  }

  function DroppedValues(p: Periods, order: seq<string>, cells: map<Key, Cell>, complete: bool): seq<string> {
    Filter(order, Dropped(p, cells, complete))
  }

  lemma MembersHoldTheirCells(p: Periods, rows: seq<Row>, order: seq<string>, cells: map<Key, Cell>,
                              minSampleSize: int, values: seq<string>, members: seq<Member>)
    requires Paired(p, rows, order, cells) && MembersOfValues(p, cells, minSampleSize, values, members)
    ensures Total(members, Baseline) == Total(values, CellAmount(p, rows, p.baseline))
    ensures Total(members, Target) == Total(values, CellAmount(p, rows, p.target))
  {
    hide Distinct, HasMember, HasCell, Samples, CellOf, Total;
    forall i | 0 <= i < |values|
      ensures Baseline(members[i]) == CellAmount(p, rows, p.baseline)(values[i])
      ensures Target(members[i]) == CellAmount(p, rows, p.target)(values[i])
    {
      var v := values[i];
      assert Stored(cells, Key(v, p.baseline)) == CellOf(p, rows, Key(v, p.baseline));
      assert Stored(cells, Key(v, p.target)) == CellOf(p, rows, Key(v, p.target));
    }
    TotalAgree(members, values, Baseline, CellAmount(p, rows, p.baseline));
    TotalAgree(members, values, Target, CellAmount(p, rows, p.target));
  }

  lemma PairedCoversRows(p: Periods, rows: seq<Row>, order: seq<string>, cells: map<Key, Cell>)
    requires Paired(p, rows, order, cells)
    ensures Distinct(order) && forall row | row in rows && IsValid(p, row) :: row.value in order
  {
    hide CellOf, HasCell, Distinct;
    forall row | row in rows && IsValid(p, row) ensures row.value in order { assert HasMember(p, rows, row.value); }
  }

  /** The members' amounts and those of the dropped members add up to the valid rows of the period;
    * in a complete window no member is dropped. */
  lemma AmountsAreConserved(p: Periods, rows: seq<Row>, order: seq<string>, cells: map<Key, Cell>, complete: bool,
                            minSampleSize: int, members: seq<Member>)
    requires Paired(p, rows, order, cells)
    requires MembersOfValues(p, cells, minSampleSize, KeptValues(p, order, cells, complete), members)
    ensures var dropped := DroppedValues(p, order, cells, complete);
      && Total(members, Baseline) + Total(dropped, CellAmount(p, rows, p.baseline))
          == Total(rows, AmountOf(p, p.baseline))
      && Total(members, Target) + Total(dropped, CellAmount(p, rows, p.target)) == Total(rows, AmountOf(p, p.target))
      && (complete ==> dropped == [])
  {
    hide Paired, Distinct, Total, MembersOfValues;
    PairedCoversRows(p, rows, order, cells);
    MembersHoldTheirCells(p, rows, order, cells, minSampleSize, KeptValues(p, order, cells, complete), members);
    CellsHoldEveryRow(p, rows, order, p.baseline);
    CellsHoldEveryRow(p, rows, order, p.target);
    TotalOfParts(order, Kept(p, cells, complete), Dropped(p, cells, complete), CellAmount(p, rows, p.baseline));
    TotalOfParts(order, Kept(p, cells, complete), Dropped(p, cells, complete), CellAmount(p, rows, p.target));
    if complete { NothingLeft(order, Dropped(p, cells, complete)); }
  }

  lemma {:induction false} NothingLeft<T>(xs: seq<T>, keep: T -> bool)
    requires forall x :: !keep(x)
    ensures Filter(xs, keep) == []
  {
    if xs != [] { NothingLeft(xs[1..], keep); }
  }
}
