/** What the report of level shifts says, told by the means and variances on both sides of a split and by
  * what a reader can compare: which splits are found, and which come first. */
module ChangePointReport {
  import opened Wrappers
  import opened Totals
  import opened RealArith
  import opened Sorting
  import opened RankCorrelation
  import opened Moments
  import opened TimeSeries
  import opened ChangePoint

  // ---- The parameters ----

  /** The parameters are accepted exactly when each side keeps at least two samples, the whole at least as many
    * as both sides, both thresholds are positive, and something may be reported; otherwise the first of these
    * that fails is named. */
  lemma ParametersExactly(p: Parameters)
    ensures ParameterError(p).None?
       <==> && p.minSegmentSamples >= 2 && p.minTotalSamples >= p.minSegmentSamples + p.minSegmentSamples
            && p.minRelativeShift > 0.0 && p.minStandardizedShift > 0.0 && p.maxCandidates > 0
    ensures ParameterError(p) == Some(MinSegmentSamplesInvalid) <==> p.minSegmentSamples <= 1
    ensures ParameterError(p) == Some(MinTotalSamplesInvalid)
       <==> 1 < p.minSegmentSamples && p.minTotalSamples < p.minSegmentSamples + p.minSegmentSamples
    ensures ParameterError(p) == Some(RelativeThresholdInvalid)
       <==> && 1 < p.minSegmentSamples && p.minTotalSamples >= p.minSegmentSamples + p.minSegmentSamples
            && !(p.minRelativeShift > 0.0)
    ensures ParameterError(p) == Some(StandardizedThresholdInvalid)
       <==> && 1 < p.minSegmentSamples && p.minTotalSamples >= p.minSegmentSamples + p.minSegmentSamples
            && p.minRelativeShift > 0.0 && !(p.minStandardizedShift > 0.0)
  {
  }

  // ---- The values ----

  predicate IsNotLater(r: Row, s: Row) {
    r.Row? && s.Row? && r.time.GoodTime? && s.time.GoodTime? && r.time.time.place <= s.time.time.place
  }

  /** The rows in the order of their times. */
  ghost predicate InOrderOfTime(ordered: seq<Row>) {
    forall i, j | 0 <= i < j < |ordered| :: IsNotLater(ordered[i], ordered[j])
  }

  /** The values that are scanned are those of the rows in the order of their times, however the rows came. */
  lemma ValuesInOrderOfTime(rows: seq<Row>, ordered: seq<Row>)
    requires Acceptable(rows) && multiset(ordered) == multiset(rows) && InOrderOfTime(ordered)
    ensures var values := Map(Sort(Map(rows, PointOf), ByTime), ValueOf);
      && |values| == |ordered|
      && forall i | 0 <= i < |ordered| :: ordered[i].Row? && ordered[i].value == GoodValue(values[i])
  {
    SeriesForgetsRowOrder(rows, ordered);
    var points := Map(ordered, PointOf);
    PointsInOrder(ordered);
    ByTimeIsPreorder();
    AcceptableIsTieFree(ordered);
    hide Acceptable, TieFree, TotalPreorder, Sort;
    SortSorted(points, ByTime);
    TieFreeSorted(points);
    SortedUnique(Sort(points, ByTime), points, ByTime);
    forall i | 0 <= i < |ordered| ensures ordered[i].Row? && ordered[i].value == GoodValue(points[i].value) {
      GoodRow(ordered, i);
    }
  }

  lemma GoodRow(rows: seq<Row>, i: nat)
    requires Acceptable(rows) && i < |rows|
    ensures rows[i].Row? && rows[i].value == GoodValue(PointOf(rows[i]).value)
  {
    assert rows[i] in rows;
  }

  lemma TieFreeSorted(points: seq<Point>)
    requires TieFree(points, ByTime)
    ensures TieFree(Sort(points, ByTime), ByTime)
  {
    var s := Sort(points, ByTime);
    forall x | x in s ensures x in points { assert x in multiset(s) && x in multiset(points); }
    hide Sort, ByTime;
  }

  lemma PointsInOrder(ordered: seq<Row>)
    requires Acceptable(ordered) && InOrderOfTime(ordered)
    ensures SortedBy(Map(ordered, PointOf), ByTime)
  {
    var points := Map(ordered, PointOf);
    forall i, j | 0 <= i < j < |points| ensures ByTime(points[i], points[j]) {
      assert ordered[i] in ordered && ordered[j] in ordered;
      assert TimeOf(ordered[i]).family == TimeOf(ordered[j]).family;
    }
  }

  // ---- One split ----

  /** The sample variance of the textbook, with its divisor of one less than the count. */
  lemma VarianceBySums(xs: seq<real>)
    requires xs != []
    ensures |xs| as real * ((|xs| - 1) as real * Variance(xs)) == |xs| as real * Dot(xs, xs) - Sum(xs) * Sum(xs)
    ensures Variance(xs) >= 0.0
  {
    hide *;
    DeviationsBySums(xs, xs);
    VarianceTimes(xs);
  }

  lemma VarianceTimes(xs: seq<real>)
    requires xs != []
    ensures (|xs| - 1) as real * Variance(xs) == Dot(Deviations(xs), Deviations(xs))
    ensures Variance(xs) >= 0.0
  {
    DotNonNegative(Deviations(xs));
    hide Dot, Deviations;
    if |xs| >= 2 {
      LeDiv(0.0, Dot(Deviations(xs), Deviations(xs)), (|xs| - 1) as real);
    } else {
      OneDeviation(xs);
    }
  }

  lemma OneDeviation(xs: seq<real>)
    requires |xs| == 1
    ensures Dot(Deviations(xs), Deviations(xs)) == 0.0
  {
    assert Total(xs, Identity()) == xs[0] by { assert xs[1..] == []; }
    assert Deviations(xs)[0] == 0.0;
    assert Deviations(xs) == [0.0];
  }

  /** How uncertain the difference of the means of the two sides is: the variance of each over its size. */
  function Uncertainty(left: seq<real>, right: seq<real>): real
    requires left != [] && right != []
  {
    Variance(left) / |left| as real + Variance(right) / |right| as real
  }

  lemma UncertaintyIsSquaredError(values: seq<real>, k: nat)
    requires 0 < k < |values|
    ensures SquaredError(values, k) == Uncertainty(values[..k], values[k..]) >= 0.0
  {
    VarianceBySums(values[..k]);
    VarianceBySums(values[k..]);
    LeDiv(0.0, Variance(values[..k]), k as real);
    LeDiv(0.0, Variance(values[k..]), (|values| - k) as real);
    hide Variance;
  }

  function Larger(x: real, y: real): real { if x < y then y else x }

  /** What is said of a split with these means and this uncertainty, without a quotient. */
  ghost predicate IsMerit(m: Merit, k: nat, l: real, r: real, error: real) {
    var larger := Larger(Abs(l), Abs(r));
    && m.splitIndex == k
    && (m.zeroVarianceShift <==> error == 0.0 && l != r)
    && (m.standardizedSquared.Some? <==> error > 0.0)
    && (m.standardizedSquared.Some? ==> m.standardizedSquared.value * error == (r - l) * (r - l))
    && (if larger > 0.0 then m.relativeShift * larger == Abs(r - l) else m.relativeShift == 0.0)
  }

  lemma QuotientTimesDivisor(x: real, y: real)
    requires y != 0.0
    ensures (x / y) * y == x
  {
  }

  lemma RelativeByProduct(l: real, r: real)
    ensures var larger := Larger(Abs(l), Abs(r));
      if larger > 0.0 then RelativeShift(l, r) * larger == Abs(r - l) else RelativeShift(l, r) == 0.0
  {
    if Larger(Abs(l), Abs(r)) > 0.0 { QuotientTimesDivisor(Abs(r - l), Larger(Abs(l), Abs(r))); }
  }

  lemma StandardizedByProduct(delta: real, error: real)
    ensures StandardizedSquared(delta, error).Some? <==> error > 0.0
    ensures StandardizedSquared(delta, error).Some?
            ==> StandardizedSquared(delta, error).value * error == delta * delta
  {
    if error > 0.0 { QuotientTimesDivisor(Square(delta), error); }
  }

  lemma MeritByProducts(k: nat, l: real, r: real, error: real)
    ensures IsMerit(MeritOf(k, l, r, error), k, l, r, error)
  {
    RelativeByProduct(l, r);
    StandardizedByProduct(r - l, error);
    hide StandardizedSquared, RelativeShift, Larger, Abs;
  }

  lemma MeritOfSplit(values: seq<real>, k: nat)
    requires 0 < k < |values|
    ensures var c, l, r := Evaluate(values, k), Mean(values[..k]), Mean(values[k..]);
      && c.leftMean == l && c.rightMean == r && c.delta == r - l
      && IsMerit(c.merit, k, l, r, Uncertainty(values[..k], values[k..]))
  {
    UncertaintyIsSquaredError(values, k);
    hide Mean, Variance, SquaredError, Uncertainty, IsMerit, MeritOf;
    MeritByProducts(k, Mean(values[..k]), Mean(values[k..]), SquaredError(values, k));
  }

  /** The means differ by at least the relative threshold times the larger one, and by at least the other
    * threshold times the standard error. */
  ghost predicate IsLevelShift(p: Parameters, l: real, r: real, error: real) {
    var larger, distance := Larger(Abs(l), Abs(r)), Abs(r - l);
    && larger > 0.0 && distance >= p.minRelativeShift * larger
    && distance * distance >= (p.minStandardizedShift * p.minStandardizedShift) * error
  }

  lemma SquareOfDistance(l: real, r: real)
    ensures Abs(r - l) * Abs(r - l) == Square(r - l)
    ensures r != l ==> Square(r - l) > 0.0
  {
    OppositeSquare(r - l, Abs(r - l));
    if r > l { PositiveProduct(r - l, r - l, Square(r - l)); }
    if r < l { NegativeProduct(r - l, r - l, Square(r - l)); }
  }

  lemma OppositeSquare(x: real, y: real)
    requires y == x || y == -x
    ensures y * y == x * x
  {
  }

  lemma FarEnough(p: Parameters, l: real, r: real)
    requires p.minRelativeShift > 0.0
    ensures var larger := Larger(Abs(l), Abs(r));
      && (RelativeShift(l, r) >= p.minRelativeShift <==> larger > 0.0 && Abs(r - l) >= p.minRelativeShift * larger)
      && (RelativeShift(l, r) >= p.minRelativeShift ==> r != l)
  {
    var larger := Larger(Abs(l), Abs(r));
    if larger > 0.0 {
      LeDiv(p.minRelativeShift, Abs(r - l), larger);
      PositiveProduct(p.minRelativeShift, larger, p.minRelativeShift * larger);
    }
  }

  lemma SureEnough(p: Parameters, k: nat, l: real, r: real, error: real)
    requires error >= 0.0 && r != l
    ensures var m := MeritOf(k, l, r, error);
      m.zeroVarianceShift
      || (m.standardizedSquared.Some? && m.standardizedSquared.value >= Square(p.minStandardizedShift))
      <==> Square(r - l) >= Square(p.minStandardizedShift) * error
  {
    SquareOfDistance(l, r);
    if error > 0.0 { LeDiv(Square(p.minStandardizedShift), Square(r - l), error); }
    hide Square;
  }

  lemma QualifiesByProducts(p: Parameters, k: nat, l: real, r: real, error: real)
    requires error >= 0.0 && p.minRelativeShift > 0.0
    ensures Qualifies(p, MeritOf(k, l, r, error)) <==> IsLevelShift(p, l, r, error)
  {
    hide *;
    FarEnough(p, l, r);
    if r != l { SureEnough(p, k, l, r, error); }
    SquareOfDistance(l, r);
    QualifiesParts(p, k, l, r, error);
    IsLevelShiftParts(p, l, r, error);
  }

  lemma QualifiesParts(p: Parameters, k: nat, l: real, r: real, error: real)
    ensures var m := MeritOf(k, l, r, error);
      Qualifies(p, m) <==>
        && RelativeShift(l, r) >= p.minRelativeShift
        && (m.zeroVarianceShift
            || (m.standardizedSquared.Some? && m.standardizedSquared.value >= Square(p.minStandardizedShift)))
  {
    hide Square, RelativeShift, StandardizedSquared;
  }

  lemma IsLevelShiftParts(p: Parameters, l: real, r: real, error: real)
    ensures IsLevelShift(p, l, r, error)
       <==> && Larger(Abs(l), Abs(r)) > 0.0 && Abs(r - l) >= p.minRelativeShift * Larger(Abs(l), Abs(r))
            && Abs(r - l) * Abs(r - l) >= Square(p.minStandardizedShift) * error
  {
    hide Larger, Abs;
  }

  /** The split leaves enough samples on both sides and is a level shift. */
  ghost predicate IsShift(values: seq<real>, p: Parameters, k: int) {
    && 0 < p.minSegmentSamples <= k <= |values| - p.minSegmentSamples
    && IsLevelShift(p, Mean(values[..k]), Mean(values[k..]), Uncertainty(values[..k], values[k..]))
  }

  lemma FoundExactlyWhenShift(values: seq<real>, p: Parameters, k: nat)
    requires 0 < p.minSegmentSamples <= k <= |values| - p.minSegmentSamples && p.minRelativeShift > 0.0
    ensures Qualifies(p, Evaluate(values, k).merit) <==> IsShift(values, p, k)
  {
    UncertaintyIsSquaredError(values, k);
    hide Mean, Variance, SquaredError, Uncertainty, Qualifies, MeritOf, IsLevelShift;
    QualifiesByProducts(p, k, Mean(values[..k]), Mean(values[k..]), SquaredError(values, k));
  }

  // ---- The report ----

  /** What `Scan` reports. */
  function Report(values: seq<real>, p: Parameters): seq<Candidate>
    requires ParameterError(p).None? && |values| >= p.minTotalSamples
  {
    Best(Candidates(values, p, |values| - p.minSegmentSamples + 1), p.maxCandidates)
  }

  ghost predicate IsReported(report: seq<Candidate>, k: nat) {
    exists i :: 0 <= i < |report| && report[i].merit.splitIndex == k
  }

  ghost function Shifts(values: seq<real>, p: Parameters): seq<Candidate>
    requires ParameterError(p).None? && |values| >= p.minTotalSamples
  {
    Candidates(values, p, |values| - p.minSegmentSamples + 1)
  }

  lemma ShiftsAreCandidates(values: seq<real>, p: Parameters, c: Candidate)
    requires ParameterError(p).None? && |values| >= p.minTotalSamples
    ensures var k := c.merit.splitIndex;
      c in Shifts(values, p) <==> IsShift(values, p, k) && c == Evaluate(values, k)
  {
    hide Candidates, Best, Evaluate, Qualifies, IsLevelShift, IsTopOf, Mean, Uncertainty, IsFound, IsShift;
    BestSplitsAreReported(values, p);
    FoundIsShift(values, p, c);
  }

  lemma FoundIsShift(values: seq<real>, p: Parameters, c: Candidate)
    requires ParameterError(p).None? && |values| >= p.minTotalSamples
    ensures IsFound(values, p, c, |values| - p.minSegmentSamples + 1)
       <==> IsShift(values, p, c.merit.splitIndex) && c == Evaluate(values, c.merit.splitIndex)
  {
    hide Evaluate, Qualifies, IsLevelShift, Mean, Uncertainty;
    var k := c.merit.splitIndex;
    if p.minSegmentSamples <= k <= |values| - p.minSegmentSamples { FoundExactlyWhenShift(values, p, k); }
  }

  lemma SplitOfShift(values: seq<real>, k: nat)
    requires 0 < k < |values|
    ensures Evaluate(values, k).merit.splitIndex == k
  {
  }

  lemma ReportFacts(values: seq<real>, p: Parameters)
    requires ParameterError(p).None? && |values| >= p.minTotalSamples
    ensures |Report(values, p)| <= p.maxCandidates && Falling(Report(values, p))
    ensures forall c | c in Report(values, p) :: c in Shifts(values, p)
    ensures forall c, d | c in Report(values, p) && d in Shifts(values, p) && d !in Report(values, p) ::
              Better(c.merit, d.merit)
    ensures |Report(values, p)| < p.maxCandidates
            ==> forall d | d in Shifts(values, p) :: d in Report(values, p)
  {
    LimitIsPositive(p);
    hide *;
    TopOfShifts(values, p);
    TopFacts(Report(values, p), Shifts(values, p), p.maxCandidates);
    if |Report(values, p)| < p.maxCandidates { RoomForAll(values, p); }
  }

  lemma LimitIsPositive(p: Parameters)
    requires ParameterError(p).None?
    ensures p.maxCandidates > 0
  {
  }

  lemma TopOfShifts(values: seq<real>, p: Parameters)
    requires ParameterError(p).None? && |values| >= p.minTotalSamples
    ensures IsTopOf(Report(values, p), Shifts(values, p), p.maxCandidates)
  {
    hide Candidates, IsTopOf, Best, IsFound;
    BestSplitsAreReported(values, p);
  }

  lemma RoomForAll(values: seq<real>, p: Parameters)
    requires ParameterError(p).None? && |values| >= p.minTotalSamples && |Report(values, p)| < p.maxCandidates
    ensures forall d | d in Shifts(values, p) :: d in Report(values, p)
  {
    hide Candidates, Best;
    BestKeepsAll(Shifts(values, p), p.maxCandidates);
  }

  lemma TopFacts(ranked: seq<Candidate>, all: seq<Candidate>, limit: int)
    requires IsTopOf(ranked, all, limit)
    ensures |ranked| <= limit && Falling(ranked)
    ensures forall c | c in ranked :: c in all
    ensures forall c, d | c in ranked && d in all && d !in ranked :: Better(c.merit, d.merit)
  {
    hide Falling, Better;
  }

  lemma BestKeepsAll(all: seq<Candidate>, limit: int)
    requires limit >= 0 && |Best(all, limit)| < limit
    ensures forall c | c in all :: c in Best(all, limit)
  {
    SortKeepsMembers(all);
    hide Sort;
  }

  /** Only level shifts are reported, each once and no more than asked for; if there is room, all are. */
  lemma ReportHoldsShifts(values: seq<real>, p: Parameters)
    requires ParameterError(p).None? && |values| >= p.minTotalSamples
    ensures |Report(values, p)| <= p.maxCandidates
    ensures forall c | c in Report(values, p) ::
              IsShift(values, p, c.merit.splitIndex) && c == Evaluate(values, c.merit.splitIndex)
    ensures forall i, j | 0 <= i < j < |Report(values, p)| ::
              Report(values, p)[i].merit.splitIndex != Report(values, p)[j].merit.splitIndex
    ensures |Report(values, p)| < p.maxCandidates
            ==> forall k | IsShift(values, p, k) :: Evaluate(values, k) in Report(values, p)
  {
    ReportFacts(values, p);
    var report := Report(values, p);
    hide Report, Shifts, Evaluate, IsLevelShift, Better;
    forall c | c in report
      ensures IsShift(values, p, c.merit.splitIndex) && c == Evaluate(values, c.merit.splitIndex)
    {
      ShiftsAreCandidates(values, p, c);
    }
    forall i, j | 0 <= i < j < |report| ensures report[i].merit.splitIndex != report[j].merit.splitIndex {
      assert report[i] in report && report[j] in report;
      RankingIsStrict(report[i].merit, report[j].merit, report[i].merit);
    }
    forall k | IsShift(values, p, k) ensures Evaluate(values, k) in Shifts(values, p) {
      SplitOfShift(values, k);
      ShiftsAreCandidates(values, p, Evaluate(values, k));
    }
  }

  /** The candidate is reported, and the other comes later in the report or is left out of it. */
  ghost predicate ComesBefore(report: seq<Candidate>, c: Candidate, d: Candidate) {
    exists i :: 0 <= i < |report| && report[i] == c && d !in report[..i + 1]
  }

  /** A shift comes before another exactly by this: shifts between two constant stretches first; then the
    * greater standardized shift; among equals the greater relative shift; at last the earlier split. */
  lemma ReportFollowsTheKey(values: seq<real>, p: Parameters, k: nat, m: nat)
    requires ParameterError(p).None? && |values| >= p.minTotalSamples
    requires IsShift(values, p, k) && IsShift(values, p, m)
    requires ComesBefore(Report(values, p), Evaluate(values, k), Evaluate(values, m))
    ensures var a, b := Evaluate(values, k).merit, Evaluate(values, m).merit;
      && (b.zeroVarianceShift ==> a.zeroVarianceShift)
      && (a.zeroVarianceShift == b.zeroVarianceShift ==>
            && a.standardizedSquared.Some? == b.standardizedSquared.Some?
            && (a.standardizedSquared.Some? ==> a.standardizedSquared.value >= b.standardizedSquared.value)
            && (a.standardizedSquared == b.standardizedSquared ==>
                  && a.relativeShift >= b.relativeShift
                  && (a.relativeShift == b.relativeShift ==> k < m)))
  {
    var c, d := Evaluate(values, k), Evaluate(values, m);
    MeritOfSplit(values, k);
    MeritOfSplit(values, m);
    UncertaintyIsSquaredError(values, k);
    UncertaintyIsSquaredError(values, m);
    FoundExactlyWhenShift(values, p, k);
    FoundExactlyWhenShift(values, p, m);
    assert Better(c.merit, d.merit) by { hide Better, Evaluate; BeforeIsBetter(values, p, c, d); }
    hide Evaluate, Uncertainty, SquaredError;
  }

  lemma LaterThan(report: seq<Candidate>, i: nat, j: nat)
    requires i < |report| && j < |report| && report[j] !in report[..i + 1]
    ensures i < j
  {
    var front := report[..i + 1];
    forall n | 0 <= n <= i ensures report[n] in front { assert front[n] == report[n]; }
  }

  /** Unless some shift is between constant stretches, the first split reported is one of the greatest
    * standardized shift of all; something is reported exactly if there is a shift at all. */
  lemma FirstIsStrongest(values: seq<real>, p: Parameters, m: nat)
    requires ParameterError(p).None? && |values| >= p.minTotalSamples && IsShift(values, p, m)
    ensures Report(values, p) != []
    ensures var a, b := Report(values, p)[0].merit, Evaluate(values, m).merit;
      a.standardizedSquared.Some? ==>
        b.standardizedSquared.Some? && a.standardizedSquared.value >= b.standardizedSquared.value
  {
    ReportHoldsShifts(values, p);
    var report, d := Report(values, p), Evaluate(values, m);
    hide Report, IsLevelShift, Better, Evaluate;
    var k := report[0].merit.splitIndex;
    if d != report[0] {
      assert report[0] in report;
      assert ComesBefore(report, report[0], d) by { assert report[..1] == [report[0]]; }
      ReportFollowsTheKey(values, p, k, m);
      MeritOfSplit(values, k);
      MeritOfSplit(values, m);
    }
  }

  lemma BeforeIsBetter(values: seq<real>, p: Parameters, c: Candidate, d: Candidate)
    requires ParameterError(p).None? && |values| >= p.minTotalSamples
    requires IsShift(values, p, d.merit.splitIndex) && d == Evaluate(values, d.merit.splitIndex)
    requires ComesBefore(Report(values, p), c, d)
    ensures Better(c.merit, d.merit)
  {
    ReportFacts(values, p);
    ShiftsAreCandidates(values, p, d);
    var report := Report(values, p);
    hide Report, Shifts, Evaluate, IsShift, Better;
    var i :| 0 <= i < |report| && report[i] == c && d !in report[..i + 1];
    assert c in report;
    if d in report {
      var j :| 0 <= j < |report| && report[j] == d;
      LaterThan(report, i, j);
    }
  }
}
