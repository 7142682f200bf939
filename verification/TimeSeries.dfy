/** Rows read into a series with one value per time, in order of time (`_prepare_rows`). */
module TimeSeries {
  import opened Wrappers
  import opened Totals
  import opened Sorting
  import opened References

  datatype Family = Temporal | Numeric | Text

  /** A time by its sort key: the family and the place within it. */
  datatype Time = Time(family: Family, place: real)

  datatype TimeField = TimeMissing | TimeInvalid | GoodTime(time: Time)

  datatype ValueField = ValueMissing | ValueInvalid | GoodValue(value: real)

  datatype Row = NotAMapping | Row(time: TimeField, value: ValueField)

  datatype RowError =
    | RowIsInvalid | TimeIsMissing | ValueIsMissing | TimeIsInvalid | TimeIsDuplicate | TimeTypeIsInconsistent
    | ValueIsInvalid

  datatype Point = Point(time: Time, value: real)

  predicate IsGood(row: Row) { row.Row? && row.time.GoodTime? && row.value.GoodValue? }

  function PointOf(row: Row): Point {
    if IsGood(row) then Point(row.time.time, row.value.value) else Point(Time(Numeric, 0.0), 0.0)
  }

  function TimeOf(row: Row): Time { PointOf(row).time }

  /** Every row can be read, no time comes twice, and all times are of one family. */
  ghost predicate Acceptable(rows: seq<Row>) {
    && (forall row | row in rows :: IsGood(row))
    && Distinct(Map(rows, TimeOf))
    && (forall r, s | r in rows && s in rows :: TimeOf(r).family == TimeOf(s).family)
  }

  /** What the next row fails with, given the times and the family seen before it. */
  function ErrorOf(row: Row, seenTimes: set<Time>, family: Option<Family>): Option<RowError> {
    if row.NotAMapping? then Some(RowIsInvalid)
    else if row.time.TimeMissing? then Some(TimeIsMissing)
    else if row.value.ValueMissing? then Some(ValueIsMissing)
    else if row.time.TimeInvalid? then Some(TimeIsInvalid)
    else if row.time.time in seenTimes then Some(TimeIsDuplicate)
    else if family.Some? && family.value != row.time.time.family then Some(TimeTypeIsInconsistent)
    else if row.value.ValueInvalid? then Some(ValueIsInvalid)
    else None
  }

  function Rank(f: Family): int { match f case Temporal => 0 case Numeric => 1 case Text => 2 }

  predicate ByTime(p: Point, q: Point) {
    Rank(p.time.family) < Rank(q.time.family)
    || (p.time.family == q.time.family && p.time.place <= q.time.place)
  }

  function FamilyOf(rows: seq<Row>): Option<Family> {
    if rows == [] then None else Some(TimeOf(rows[0]).family)
  }

  lemma AcceptableStep(rows: seq<Row>, row: Row)
    requires Acceptable(rows)
    ensures ErrorOf(row, SetOf(Map(rows, TimeOf)), FamilyOf(rows)).None? <==> Acceptable(rows + [row])
  {
    var times := Map(rows, TimeOf);
    assert Map(rows + [row], TimeOf) == times + [TimeOf(row)];
    DistinctSnoc(times, TimeOf(row));
    assert rows != [] ==> rows[0] in rows;
    assert row in rows + [row] && forall r :: r in rows + [row] <==> r in rows || r == row;
    hide Distinct;
    if Acceptable(rows + [row]) {
      assert IsGood(row);
      if rows != [] { assert rows[0] in rows + [row]; }
    }
  }

  lemma {:induction false} AcceptablePrefix(rows: seq<Row>, n: nat)
    requires n <= |rows| && Acceptable(rows)
    ensures Acceptable(rows[..n])
  {
    assert Map(rows[..n], TimeOf) == Map(rows, TimeOf)[..n];
    DistinctPrefix(Map(rows, TimeOf), n);
  }

  /** The rows before one of them are acceptable, and that one fails with this error. */
  ghost predicate RejectedWith(rows: seq<Row>, error: RowError) {
    exists i :: 0 <= i < |rows| && FailsAt(rows, i, error)
  }

  ghost predicate FailsAt(rows: seq<Row>, i: nat, error: RowError)
    requires i < |rows|
  {
    Acceptable(rows[..i]) && ErrorOf(rows[i], SetOf(Map(rows[..i], TimeOf)), FamilyOf(rows[..i])) == Some(error)
  }

  lemma NotBeyondFailure(rows: seq<Row>, i: nat, j: nat, error: RowError)
    requires i < j <= |rows| && FailsAt(rows, i, error)
    ensures !Acceptable(rows[..j])
  {
    AcceptableStep(rows[..i], rows[i]);
    hide Acceptable, ErrorOf;
    assert rows[..i + 1] == rows[..i] + [rows[i]];
    assert rows[..j][..i + 1] == rows[..i + 1];
    if Acceptable(rows[..j]) { AcceptablePrefix(rows[..j], i + 1); }
  }

  /** Rows that are not acceptable are rejected with exactly one error. */
  lemma OneError(rows: seq<Row>, error: RowError, other: RowError)
    requires RejectedWith(rows, error) && RejectedWith(rows, other)
    ensures error == other && !Acceptable(rows)
  {
    var i :| 0 <= i < |rows| && FailsAt(rows, i, error);
    var j :| 0 <= j < |rows| && FailsAt(rows, j, other);
    assert rows[..|rows|] == rows;
    NotBeyondFailure(rows, i, |rows|, error);
    if i < j { NotBeyondFailure(rows, i, j, error); }
    if j < i { NotBeyondFailure(rows, j, i, other); }
  }

  /** What is wrong with row `i`, told by the rows themselves; of several faults the one named first counts. */
  ghost predicate IsFault(rows: seq<Row>, i: nat, error: RowError)
    requires i < |rows|
  {
    var row := rows[i];
    match error
    case RowIsInvalid => row == NotAMapping
    case TimeIsMissing => row.Row? && row.time == TimeMissing
    case ValueIsMissing => row.Row? && row.time != TimeMissing && row.value == ValueMissing
    case TimeIsInvalid => row.Row? && row.time == TimeInvalid && row.value != ValueMissing
    case TimeIsDuplicate =>
      && row.Row? && row.time.GoodTime? && row.value != ValueMissing
      && exists j :: 0 <= j < i && HasTime(rows[j], row.time)
    case TimeTypeIsInconsistent =>
      && row.Row? && row.time.GoodTime? && row.value != ValueMissing
      && (forall j | 0 <= j < i :: !HasTime(rows[j], row.time))
      && exists j :: 0 <= j < i && HasOtherFamily(rows[j], row.time.time.family)
    case ValueIsInvalid =>
      && row.Row? && row.time.GoodTime? && row.value == ValueInvalid
      && (forall j | 0 <= j < i :: !HasTime(rows[j], row.time) && !HasOtherFamily(rows[j], row.time.time.family))
  }

  predicate HasTime(row: Row, time: TimeField) { row.Row? && row.time == time }

  predicate HasOtherFamily(row: Row, family: Family) {
    row.Row? && row.time.GoodTime? && row.time.time.family != family
  }

  /** After acceptable rows a row fails with exactly the fault it has. */
  lemma FailsExactly(rows: seq<Row>, i: nat, error: RowError)
    requires i < |rows| && Acceptable(rows[..i])
    ensures FailsAt(rows, i, error) <==> IsFault(rows, i, error)
  {
    var row, before := rows[i], rows[..i];
    var times := Map(before, TimeOf);
    forall j | 0 <= j < i ensures IsGood(rows[j]) && times[j] == rows[j].time.time { assert before[j] in before; }
    if row.Row? && row.time.GoodTime? {
      SeenTimes(rows, i);
      FamilyBefore(rows, i);
    }
    hide Acceptable, Distinct, SetOf, FamilyOf;
  }

  lemma SeenTimes(rows: seq<Row>, i: nat)
    requires i < |rows| && rows[i].Row? && rows[i].time.GoodTime?
    requires forall j | 0 <= j < i :: IsGood(rows[j])
    ensures rows[i].time.time in SetOf(Map(rows[..i], TimeOf))
       <==> exists j :: 0 <= j < i && HasTime(rows[j], rows[i].time)
  {
    var times, time := Map(rows[..i], TimeOf), rows[i].time.time;
    assert time in SetOf(times) <==> time in times;
    forall j | 0 <= j < i ensures times[j] == rows[j].time.time { }
    if time in times {
      var j :| 0 <= j < |times| && times[j] == time;
      assert HasTime(rows[j], rows[i].time);
    }
    if j :| 0 <= j < i && HasTime(rows[j], rows[i].time) { assert times[j] == time; }
  }

  lemma FamilyBefore(rows: seq<Row>, i: nat)
    requires i < |rows| && rows[i].Row? && rows[i].time.GoodTime? && Acceptable(rows[..i])
    ensures (FamilyOf(rows[..i]).Some? && FamilyOf(rows[..i]).value != rows[i].time.time.family)
       <==> exists j :: 0 <= j < i && HasOtherFamily(rows[j], rows[i].time.time.family)
  {
    var before := rows[..i];
    forall j | 0 <= j < i ensures IsGood(rows[j]) && TimeOf(rows[j]).family == TimeOf(rows[0]).family {
      assert before[j] in before && before[0] in before;
    }
    hide Acceptable;
    if i > 0 {
      assert HasOtherFamily(rows[0], rows[i].time.time.family)
        <==> TimeOf(rows[0]).family != rows[i].time.time.family;
    }
  }

  /** The series, or the error of the first row that does not fit those before it. */
  method PrepareRows(rows: seq<Row>) returns (r: Result<seq<Point>, RowError>)
    ensures r.Ok? <==> Acceptable(rows)
    ensures r.Ok? ==> r.value == Sort(Map(rows, PointOf), ByTime)
    ensures r.Err? ==> RejectedWith(rows, r.error)
  {
    hide Acceptable, ErrorOf;
    var points: seq<Point>, seenTimes: set<Time>, family: Option<Family> := [], {}, None;
    NothingIsAcceptable();
    for i := 0 to |rows|
      invariant Acceptable(rows[..i])
      invariant points == Map(rows[..i], PointOf)
      invariant seenTimes == SetOf(Map(rows[..i], TimeOf))
      invariant family == FamilyOf(rows[..i])
    {
      var row := rows[i];
      assert rows[..i + 1] == rows[..i] + [row];
      AcceptableStep(rows[..i], row);
      var error := ErrorOf(row, seenTimes, family);
      if error.Some? {
        if Acceptable(rows) { AcceptablePrefix(rows, i + 1); }
        assert FailsAt(rows, i, error.value);
        return Err(error.value);
      }
      assert Map(rows[..i + 1], TimeOf) == Map(rows[..i], TimeOf) + [TimeOf(row)];
      SetOfSnoc(Map(rows[..i], TimeOf), TimeOf(row));
      FamilyStays(rows[..i], row);
      seenTimes := seenTimes + {TimeOf(row)};
      family := Some(TimeOf(row).family);
      points := points + [PointOf(row)];
    }
    assert rows[..|rows|] == rows;
    r := Ok(Sort(points, ByTime));
  }

  lemma NothingIsAcceptable()
    ensures Acceptable([])
  {
  }

  lemma FamilyStays(rows: seq<Row>, row: Row)
    requires Acceptable(rows + [row])
    ensures FamilyOf(rows + [row]) == Some(TimeOf(row).family)
  {
    assert (rows + [row])[0] in rows + [row] && row in rows + [row];
  }

  // ---- The series does not depend on the order of the rows ----

  lemma ByTimeIsPreorder()
    ensures TotalPreorder(ByTime)
  {
  }

  lemma AcceptableIsTieFree(rows: seq<Row>)
    requires Acceptable(rows)
    ensures TieFree(Map(rows, PointOf), ByTime)
  {
    var points, times := Map(rows, PointOf), Map(rows, TimeOf);
    forall p, q | p in points && q in points && ByTime(p, q) && ByTime(q, p) ensures p == q {
      var i :| 0 <= i < |points| && points[i] == p;
      var j :| 0 <= j < |points| && points[j] == q;
      assert times[i] == p.time && times[j] == q.time;
    }
  }

  /** Rows in another order are accepted or refused alike, and give the same series. */
  lemma SeriesForgetsRowOrder(rows: seq<Row>, others: seq<Row>)
    requires multiset(rows) == multiset(others)
    ensures Acceptable(rows) <==> Acceptable(others)
    ensures Acceptable(rows) ==> Sort(Map(rows, PointOf), ByTime) == Sort(Map(others, PointOf), ByTime)
  {
    SameSetOf(rows, others);
    assert forall row :: row in rows <==> row in others by {
      forall row ensures row in rows <==> row in others { assert row in SetOf(rows) <==> row in SetOf(others); }
    }
    MapPermutation(rows, others, TimeOf);
    if Acceptable(rows) {
      AcceptableIsTieFree(rows);
      ByTimeIsPreorder();
      MapMultiset(rows, others, PointOf);
      hide Acceptable, TieFree, TotalPreorder;
      SortPermutation(Map(rows, PointOf), Map(others, PointOf), ByTime);
    }
  }

  /** Times strictly ascend. */
  lemma SeriesAscends(rows: seq<Row>, i: nat, j: nat)
    requires Acceptable(rows) && i < j < |rows|
    ensures var s := Sort(Map(rows, PointOf), ByTime);
            s[i].time.family == s[j].time.family && s[i].time.place < s[j].time.place
  {
    var points := Map(rows, PointOf);
    var s := Sort(points, ByTime);
    ByTimeIsPreorder();
    SortSorted(points, ByTime);
    SortedTimesAreDistinct(rows, s);
    assert ByTime(s[i], s[j]);
    var times := Map(s, (p: Point) => p.time);
    assert times[i] != times[j];
    SameSetOf(points, s);
    assert s[i] in s && s[j] in s;
    assert s[i] in SetOf(points) && s[j] in SetOf(points);
    var a :| 0 <= a < |points| && points[a] == s[i];
    var b :| 0 <= b < |points| && points[b] == s[j];
    assert rows[a] in rows && rows[b] in rows;
  }

  lemma SortedTimesAreDistinct(rows: seq<Row>, s: seq<Point>)
    requires Acceptable(rows) && multiset(s) == multiset(Map(rows, PointOf))
    ensures Distinct(Map(s, (p: Point) => p.time))
  {
    var points := Map(rows, PointOf);
    assert Map(points, (p: Point) => p.time) == Map(rows, TimeOf);
    MapPermutation(points, s, (p: Point) => p.time);
  }
}
