/** Level shifts of a series: every split that meets both thresholds, the best ones first
  * (`change_point_scan`). Square roots only serve to compare, so squares are compared instead. */
module ChangePoint {
  import opened Wrappers
  import opened Totals
  import opened RealArith
  import opened Sorting
  import opened References
  import opened RankCorrelation
  import opened TimeSeries

  datatype Parameters = Parameters(
    minTotalSamples: int, minSegmentSamples: int, minRelativeShift: real, minStandardizedShift: real,
    maxCandidates: int)

  datatype ScanError =
    | MinSegmentSamplesInvalid | MinTotalSamplesInvalid | RelativeThresholdInvalid | StandardizedThresholdInvalid
    | MaxCandidatesInvalid | InvalidRow(error: RowError)

  function ParameterError(p: Parameters): Option<ScanError> {
    if p.minSegmentSamples < 2 then Some(MinSegmentSamplesInvalid)
    else if p.minTotalSamples < 2 * p.minSegmentSamples then Some(MinTotalSamplesInvalid)
    else if p.minRelativeShift <= 0.0 then Some(RelativeThresholdInvalid)
    else if p.minStandardizedShift <= 0.0 then Some(StandardizedThresholdInvalid)
    else if p.maxCandidates < 1 then Some(MaxCandidatesInvalid)
    else None
  }

  /** What a split is ranked by. */
  datatype Merit = Merit(zeroVarianceShift: bool, standardizedSquared: Option<real>, relativeShift: real,
                         splitIndex: nat)

  datatype Candidate = Candidate(merit: Merit, leftMean: real, rightMean: real, delta: real)

  // ---- One split ----

  function Variance(xs: seq<real>): real
    requires xs != []
  {
    if |xs| < 2 then 0.0 else Dot(Deviations(xs), Deviations(xs)) / (|xs| - 1) as real
  }

  function RelativeShift(leftMean: real, rightMean: real): real {
    var denominator := Max(Abs(leftMean), Abs(rightMean));
    if denominator > 0.0 then Abs(rightMean - leftMean) / denominator else 0.0
  }

  /** The squared standard error of the difference of the means. */
  function SquaredError(values: seq<real>, k: nat): real
    requires 0 < k < |values|
  {
    Variance(values[..k]) / k as real + Variance(values[k..]) / (|values| - k) as real
  }

  function Square(x: real): real { x * x }

  function StandardizedSquared(delta: real, squaredError: real): Option<real> {
    if squaredError > 0.0 then Some(Square(delta) / squaredError) else None
  }

  function MeritOf(k: nat, leftMean: real, rightMean: real, squaredError: real): Merit {
    var delta := rightMean - leftMean;
    Merit(squaredError == 0.0 && delta != 0.0, StandardizedSquared(delta, squaredError),
          RelativeShift(leftMean, rightMean), k)
  }

  function Evaluate(values: seq<real>, k: nat): Candidate
    requires 0 < k < |values|
  {
    var leftMean, rightMean := Mean(values[..k]), Mean(values[k..]);
    Candidate(MeritOf(k, leftMean, rightMean, SquaredError(values, k)), leftMean, rightMean, rightMean - leftMean)
  }

  predicate Qualifies(p: Parameters, m: Merit) {
    && m.relativeShift >= p.minRelativeShift
    && (m.zeroVarianceShift
        || (m.standardizedSquared.Some? && m.standardizedSquared.value >= Square(p.minStandardizedShift)))
  }

  /** A mean shift is at most twice the larger mean. */
  lemma RelativeShiftAtMostTwo(leftMean: real, rightMean: real)
    ensures 0.0 <= RelativeShift(leftMean, rightMean) <= 2.0
  {
    var denominator := Max(Abs(leftMean), Abs(rightMean));
    if denominator > 0.0 {
      DivLe(Abs(rightMean - leftMean), denominator, 2.0);
      LeDiv(0.0, Abs(rightMean - leftMean), denominator);
    }
  }

  /** Comparing roots and comparing squares is the same for numbers that are not negative. */
  lemma RootsCompareAsSquares(x: real, y: real, x2: real, y2: real)
    requires x >= 0.0 && y >= 0.0 && x2 == x * x && y2 == y * y
    ensures x <= y <==> x2 <= y2
  {
    if x <= y {
      ProductMonotone(x, y, x);
      ProductMonotone(x, y, y);
    }
    if x2 <= y2 { SquareMonotone(x, y); }
  }

  // ---- The ranking ----

  function Standing(m: Merit): real { if m.standardizedSquared.Some? then m.standardizedSquared.value else 0.0 }

  /** Better in the order of the ranking key. */
  predicate Better(a: Merit, b: Merit) {
    if a.zeroVarianceShift != b.zeroVarianceShift then a.zeroVarianceShift
    else if Standing(a) != Standing(b) then Standing(a) > Standing(b)
    else if a.relativeShift != b.relativeShift then a.relativeShift > b.relativeShift
    else a.splitIndex < b.splitIndex
  }

  predicate AtLeast(a: Candidate, b: Candidate) { !Better(b.merit, a.merit) }

  /** The ranking is a strict order in which two different splits never tie. */
  lemma RankingIsStrict(a: Merit, b: Merit, c: Merit)
    ensures !Better(a, a)
    ensures Better(a, b) && Better(b, c) ==> Better(a, c)
    ensures a.splitIndex != b.splitIndex ==> Better(a, b) || Better(b, a)
    ensures !(Better(a, b) && Better(b, a))
    ensures !Better(b, a) && !Better(c, b) ==> !Better(c, a)
  {
  }

  lemma AtLeastIsPreorder()
    ensures TotalPreorder(AtLeast)
  {
    hide Better;
    forall x: Candidate, y: Candidate
      ensures AtLeast(x, y) || AtLeast(y, x)
    {
      RankingIsStrict(x.merit, y.merit, x.merit);
    }
    forall x: Candidate, y: Candidate, z: Candidate | AtLeast(x, y) && AtLeast(y, z) ensures AtLeast(x, z) {
      RankingIsStrict(x.merit, y.merit, z.merit);
    }
  }

  // ---- The best splits ----

  function SplitOf(c: Candidate): nat { c.merit.splitIndex }

  ghost predicate Falling(s: seq<Candidate>) {
    forall i, j | 0 <= i < j < |s| :: Better(s[i].merit, s[j].merit)
  }

  /** `ranked` lists the best `limit` of `all`, best first. */
  ghost predicate IsTopOf(ranked: seq<Candidate>, all: seq<Candidate>, limit: int) {
    && |ranked| == (if |all| < limit then |all| else limit)
    && (forall c | c in ranked :: c in all)
    && Falling(ranked)
    && (forall c, d | c in ranked && d in all && d !in ranked :: Better(c.merit, d.merit))
  }

  lemma SortedIsStrict(all: seq<Candidate>)
    requires Distinct(Map(all, SplitOf))
    ensures Falling(Sort(all, AtLeast))
  {
    var s := Sort(all, AtLeast);
    AtLeastIsPreorder();
    SortSorted(all, AtLeast);
    MapPermutation(all, s, SplitOf);
    var splits := Map(s, SplitOf);
    hide Better, Sort, TotalPreorder;
    forall i, j | 0 <= i < j < |s| ensures Better(s[i].merit, s[j].merit) {
      assert AtLeast(s[i], s[j]) && splits[i] != splits[j];
      RankingIsStrict(s[i].merit, s[j].merit, s[i].merit);
    }
  }

  lemma SortKeepsMembers(all: seq<Candidate>)
    ensures forall c :: c in Sort(all, AtLeast) <==> c in all
  {
    var s := Sort(all, AtLeast);
    hide Sort;
    SameSetOf(s, all);
    forall c ensures c in s <==> c in all { assert c in SetOf(s) <==> c in SetOf(all); }
  }

  lemma PrefixIsTop(all: seq<Candidate>, limit: int)
    requires Distinct(Map(all, SplitOf)) && limit >= 0
    ensures var s := Sort(all, AtLeast);
            IsTopOf(if |s| < limit then s else s[..limit], all, limit)
  {
    var s := Sort(all, AtLeast);
    hide Better, Sort, Distinct, SplitOf, Falling;
    SortedIsStrict(all);
    SortKeepsMembers(all);
    var n := if |s| < limit then |s| else limit;
    assert |s| < limit ==> s[..n] == s;
    FallingPrefix(s, n);
    forall c, d | c in s[..n] && d in s && d !in s[..n] ensures Better(c.merit, d.merit) { BeyondPrefix(s, n, c, d); }
  }

  lemma FallingPrefix(s: seq<Candidate>, n: nat)
    requires n <= |s| && Falling(s)
    ensures Falling(s[..n])
  {
    hide Better;
  }

  lemma BeyondPrefix(s: seq<Candidate>, n: nat, c: Candidate, d: Candidate)
    requires n <= |s| && Falling(s)
    requires c in s[..n] && d in s && d !in s[..n]
    ensures Better(c.merit, d.merit)
  {
    hide Better;
    var i :| 0 <= i < n && s[..n][i] == c;
    var j :| 0 <= j < |s| && s[j] == d;
    assert forall k | 0 <= k < n :: s[..n][k] in s[..n];
    assert j >= n;
  }

  // ---- The scan ----

  /** The splits that leave enough samples on both sides and meet both thresholds. */
  ghost predicate Found(values: seq<real>, p: Parameters, all: seq<Candidate>, upTo: int)
    requires p.minSegmentSamples > 0 && upTo <= |values| - p.minSegmentSamples + 1
  {
    && Distinct(Map(all, SplitOf))
    && (forall c | c in all :: IsFound(values, p, c, upTo))
    && (forall k | p.minSegmentSamples <= k < upTo && Qualifies(p, Evaluate(values, k).merit) ::
        Evaluate(values, k) in all)
  }

  ghost predicate IsFound(values: seq<real>, p: Parameters, c: Candidate, upTo: int)
    requires p.minSegmentSamples > 0 && upTo <= |values| - p.minSegmentSamples + 1
  {
    && p.minSegmentSamples <= SplitOf(c) < upTo
    && c == Evaluate(values, SplitOf(c)) && Qualifies(p, c.merit)
  }

  lemma FoundStep(values: seq<real>, p: Parameters, all: seq<Candidate>, k: int)
    requires 0 < p.minSegmentSamples <= k <= |values| - p.minSegmentSamples && Found(values, p, all, k)
    ensures var c := Evaluate(values, k);
            Found(values, p, if Qualifies(p, c.merit) then all + [c] else all, k + 1)
  {
    var c := Evaluate(values, k);
    assert SplitOf(c) == k;
    hide Evaluate, Qualifies;
    var splits := Map(all, SplitOf);
    assert Map(all + [c], SplitOf) == splits + [k];
    forall i | 0 <= i < |splits| ensures splits[i] < k { assert all[i] in all; }
    DistinctSnoc(splits, k);
  }

  /** The qualifying splits below `upTo` in order of position. */
  function Candidates(values: seq<real>, p: Parameters, upTo: int): seq<Candidate>
    requires p.minSegmentSamples > 0 && upTo <= |values| - p.minSegmentSamples + 1
    decreases upTo
  {
    if upTo <= p.minSegmentSamples then []
    else
      var c := Evaluate(values, upTo - 1);
      Candidates(values, p, upTo - 1) + if Qualifies(p, c.merit) then [c] else []
  }

  function Best(all: seq<Candidate>, limit: int): seq<Candidate>
    requires limit >= 0
  {
    var sorted := Sort(all, AtLeast);
    if |sorted| < limit then sorted else sorted[..limit]
  }

  lemma {:induction false} CandidatesAreFound(values: seq<real>, p: Parameters, upTo: int)
    requires 0 < p.minSegmentSamples <= upTo <= |values| - p.minSegmentSamples + 1
    ensures Found(values, p, Candidates(values, p, upTo), upTo)
    decreases upTo
  {
    hide Found, Qualifies, Evaluate;
    if upTo == p.minSegmentSamples {
      NothingFound(values, p);
    } else {
      CandidatesAreFound(values, p, upTo - 1);
      FoundStep(values, p, Candidates(values, p, upTo - 1), upTo - 1);
      var all := Candidates(values, p, upTo - 1);
      assert all + [] == all;
    }
  }

  lemma NothingFound(values: seq<real>, p: Parameters)
    requires 0 < p.minSegmentSamples <= |values| - p.minSegmentSamples + 1
    ensures Found(values, p, [], p.minSegmentSamples)
  {
  }

  lemma FoundFacts(values: seq<real>, p: Parameters, all: seq<Candidate>, upTo: int)
    requires p.minSegmentSamples > 0 && upTo <= |values| - p.minSegmentSamples + 1 && Found(values, p, all, upTo)
    ensures Distinct(Map(all, SplitOf))
    ensures forall c :: c in all <==> IsFound(values, p, c, upTo)
  {
    hide Evaluate, Qualifies, Distinct;
  }

  /** What is reported is exactly the best `maxCandidates` of all splits that leave enough samples on
    * both sides and meet both thresholds, in strictly falling order. */
  lemma {:induction false} BestSplitsAreReported(values: seq<real>, p: Parameters)
    requires ParameterError(p).None? && |values| >= p.minTotalSamples
    ensures var upTo := |values| - p.minSegmentSamples + 1;
            var all := Candidates(values, p, upTo);
            && (forall c :: c in all <==> IsFound(values, p, c, upTo))
            && IsTopOf(Best(all, p.maxCandidates), all, p.maxCandidates)
  {
    hide Found, IsFound, IsTopOf, Candidates, Distinct, Sort;
    var upTo := |values| - p.minSegmentSamples + 1;
    CandidatesAreFound(values, p, upTo);
    FoundFacts(values, p, Candidates(values, p, upTo), upTo);
    PrefixIsTop(Candidates(values, p, upTo), p.maxCandidates);
  }

  method Scan(values: seq<real>, p: Parameters) returns (ranked: seq<Candidate>)
    requires ParameterError(p).None? && |values| >= p.minTotalSamples
    ensures ranked == Best(Candidates(values, p, |values| - p.minSegmentSamples + 1), p.maxCandidates)
  {
    hide Qualifies, Evaluate, AtLeast, Sort;
    var candidates := [];
    for k := p.minSegmentSamples to |values| - p.minSegmentSamples + 1
      invariant candidates == Candidates(values, p, k)
    {
      var c := Evaluate(values, k);
      assert candidates + [] == candidates;
      if !Qualifies(p, c.merit) {
        continue;
      }
      candidates := candidates + [c];
    }
    var sorted := Sort(candidates, AtLeast);
    ranked := if |sorted| < p.maxCandidates then sorted else sorted[..p.maxCandidates];
  }

  datatype Evidence =
    | InsufficientSamples(sampleCount: nat)
    | Shifts(sampleCount: nat, eligibleSplitCount: int, ranked: seq<Candidate>)

  function ValueOf(p: Point): real { p.value }

  /** The whole capability. */
  method ChangePointScan(rows: seq<Row>, p: Parameters) returns (r: Result<Evidence, ScanError>)
    ensures ParameterError(p).Some? ==> r == Err(ParameterError(p).value)
    ensures ParameterError(p).None? ==> (r.Ok? <==> Acceptable(rows))
    ensures ParameterError(p).None? && r.Err? ==> r.error.InvalidRow? && RejectedWith(rows, r.error.error)
    ensures r.Ok? ==>
              var values := Map(Sort(Map(rows, PointOf), ByTime), ValueOf);
              if |rows| < p.minTotalSamples then r.value == InsufficientSamples(|rows|)
              else r.value == Shifts(|rows|, |rows| - 2 * p.minSegmentSamples + 1,
                                     Best(Candidates(values, p, |values| - p.minSegmentSamples + 1), p.maxCandidates))
                   && r.value.eligibleSplitCount > 0
  {
    hide Acceptable, Candidates, Best, Sort;
    var parameterError := ParameterError(p);
    if parameterError.Some? {
      return Err(parameterError.value);
    }
    var prepared := PrepareRows(rows);
    if prepared.Err? {
      return Err(InvalidRow(prepared.error));
    }
    if |prepared.value| < p.minTotalSamples {
      return Ok(InsufficientSamples(|prepared.value|));
    }
    var values := Map(prepared.value, ValueOf);
    var ranked := Scan(values, p);
    r := Ok(Shifts(|values|, |values| - 2 * p.minSegmentSamples + 1, ranked));
  }

  // ---- The unit does not matter ----

  ghost predicate Scaled(xs: seq<real>, ys: seq<real>, c: real) {
    |xs| == |ys| && forall i | 0 <= i < |xs| :: ys[i] == c * xs[i]
  }

  lemma ScaledParts(xs: seq<real>, ys: seq<real>, c: real, k: nat)
    requires Scaled(xs, ys, c) && k <= |xs|
    ensures Scaled(xs[..k], ys[..k], c) && Scaled(xs[k..], ys[k..], c)
  {
  }

  lemma {:induction false} TotalScaled(xs: seq<real>, ys: seq<real>, c: real, t: real, u: real)
    requires Scaled(xs, ys, c) && t == Total(xs, Identity()) && u == Total(ys, Identity())
    ensures u == c * t
  {
    if xs != [] {
      ScaledParts(xs, ys, c, 1);
      TotalScaled(xs[1..], ys[1..], c, Total(xs[1..], Identity()), Total(ys[1..], Identity()));
    }
  }

  lemma QuotientOfProduct(c: real, x: real, cx: real, n: real)
    requires n != 0.0 && cx == c * x
    ensures cx / n == c * (x / n)
  {
    var q, r := x / n, cx / n;
    assert q * n == x && r * n == cx;
    assert (c * q) * n == c * (q * n);
  }

  lemma MeanScaled(xs: seq<real>, ys: seq<real>, c: real)
    requires xs != [] && Scaled(xs, ys, c)
    ensures Mean(ys) == c * Mean(xs)
  {
    var t, u := Total(xs, Identity()), Total(ys, Identity());
    TotalScaled(xs, ys, c, t, u);
    hide Total, Scaled;
    QuotientOfProduct(c, t, u, |xs| as real);
  }

  lemma SquareScaled(c: real, d: real, cd: real, s: real)
    requires cd == c * d && s == c * c
    ensures cd * cd == s * (d * d)
  {
  }

  lemma ScaledStep(c: real, s: real, x: real, y: real, rest: real, scaledRest: real)
    requires s == c * c && y == c * x && scaledRest == s * rest
    ensures y * y + scaledRest == s * (x * x + rest)
  {
    SquareScaled(c, x, y, s);
    var xx := x * x;
    assert s * xx + s * rest == s * (xx + rest);
  }

  lemma {:induction false} DotScaled(xs: seq<real>, ys: seq<real>, c: real, s: real)
    requires Scaled(xs, ys, c) && s == c * c
    ensures Dot(ys, ys) == s * Dot(xs, xs)
  {
    if xs != [] {
      ScaledParts(xs, ys, c, 1);
      DotScaled(xs[1..], ys[1..], c, s);
      assert ys[0] == c * xs[0];
      hide Scaled;
      ScaledStep(c, s, xs[0], ys[0], Dot(xs[1..], xs[1..]), Dot(ys[1..], ys[1..]));
      DotUnfold(xs, xs);
      DotUnfold(ys, ys);
    }
  }

  lemma DeviationsAt(xs: seq<real>)
    requires xs != []
    ensures |Deviations(xs)| == |xs| && forall i | 0 <= i < |xs| :: Deviations(xs)[i] == xs[i] - Mean(xs)
  {
  }

  lemma DeviationsScaled(xs: seq<real>, ys: seq<real>, c: real)
    requires xs != [] && Scaled(xs, ys, c)
    ensures Scaled(Deviations(xs), Deviations(ys), c)
  {
    MeanScaled(xs, ys, c);
    DeviationsAt(xs);
    DeviationsAt(ys);
    var d, e, m, n := Deviations(xs), Deviations(ys), Mean(xs), Mean(ys);
    hide Mean, Deviations;
    forall i | 0 <= i < |xs| ensures e[i] == c * d[i] { DifferenceScaled(c, xs[i], m, ys[i], n); }
  }

  lemma DifferenceScaled(c: real, x: real, m: real, y: real, n: real)
    requires y == c * x && n == c * m
    ensures y - n == c * (x - m)
  {
  }

  lemma VarianceScaled(xs: seq<real>, ys: seq<real>, c: real, s: real)
    requires xs != [] && Scaled(xs, ys, c) && s == c * c
    ensures Variance(ys) == s * Variance(xs)
  {
    DeviationsScaled(xs, ys, c);
    DotScaled(Deviations(xs), Deviations(ys), c, s);
    hide Dot, Mean, Scaled;
    var d, e := Dot(Deviations(xs), Deviations(xs)), Dot(Deviations(ys), Deviations(ys));
    if |xs| >= 2 { QuotientOfProduct(s, d, e, (|xs| - 1) as real); }
  }

  lemma SquaredErrorScaled(xs: seq<real>, ys: seq<real>, k: nat, c: real, s: real)
    requires 0 < k < |xs| && Scaled(xs, ys, c) && s == c * c
    ensures SquaredError(ys, k) == s * SquaredError(xs, k)
  {
    ScaledParts(xs, ys, c, k);
    VarianceScaled(xs[..k], ys[..k], c, s);
    VarianceScaled(xs[k..], ys[k..], c, s);
    hide Variance, Scaled;
    QuotientOfProduct(s, Variance(xs[..k]), Variance(ys[..k]), k as real);
    QuotientOfProduct(s, Variance(xs[k..]), Variance(ys[k..]), (|xs| - k) as real);
    var a, b := Variance(xs[..k]) / k as real, Variance(xs[k..]) / (|xs| - k) as real;
    assert s * a + s * b == s * (a + b);
  }

  lemma QuotientScaled(x: real, y: real, s: real, sx: real, sy: real)
    requires y > 0.0 && s > 0.0 && sx == s * x && sy == s * y
    ensures sy > 0.0 && sx / sy == x / y
  {
    PositiveProduct(s, y, sy);
    var q := x / y;
    assert q * y == x;
    assert s * (q * y) == q * (s * y);
    assert sx == q * sy;
  }

  lemma AbsScaled(c: real, x: real, cx: real, s: real)
    requires cx == c * x && s == Abs(c)
    ensures Abs(cx) == s * Abs(x)
  {
    if x >= 0.0 && c >= 0.0 { ProductMonotone(0.0, x, c); }
    if x >= 0.0 && c < 0.0 { ProductMonotone(0.0, x, -c); }
    if x < 0.0 && c >= 0.0 { ProductMonotone(0.0, -x, c); }
    if x < 0.0 && c < 0.0 { ProductMonotone(0.0, -x, -c); }
  }

  lemma SignScaled(s: real, x: real, sx: real)
    requires s > 0.0 && sx == s * x
    ensures (x > 0.0 <==> sx > 0.0) && (x == 0.0 <==> sx == 0.0)
  {
    if x > 0.0 { PositiveProduct(s, x, sx); }
    if x < 0.0 { PositiveProduct(s, -x, -sx); }
  }

  lemma MaxScaled(x: real, y: real, s: real, sx: real, sy: real)
    requires s > 0.0 && sx == s * x && sy == s * y
    ensures Max(sx, sy) == s * Max(x, y)
  {
    SignScaled(s, y - x, sy - sx);
  }

  lemma RelativePartsScaled(l: real, r: real, c: real, cl: real, cr: real, s: real)
    requires c != 0.0 && cl == c * l && cr == c * r && s == Abs(c)
    ensures Abs(cr - cl) == s * Abs(r - l)
    ensures Max(Abs(cl), Abs(cr)) == s * Max(Abs(l), Abs(r))
  {
    hide Abs, Max;
    AbsOfNonZero(c);
    DifferenceScaled(c, r, l, cr, cl);
    AbsScaled(c, l, cl, s);
    AbsScaled(c, r, cr, s);
    AbsScaled(c, r - l, cr - cl, s);
    MaxScaled(Abs(l), Abs(r), s, Abs(cl), Abs(cr));
  }

  lemma RelativeShiftOfParts(l: real, r: real, cl: real, cr: real, s: real)
    requires s > 0.0 && Abs(cr - cl) == s * Abs(r - l) && Max(Abs(cl), Abs(cr)) == s * Max(Abs(l), Abs(r))
    ensures RelativeShift(cl, cr) == RelativeShift(l, r)
  {
    hide Max, Abs;
    var d, cd := Max(Abs(l), Abs(r)), Max(Abs(cl), Abs(cr));
    SignScaled(s, d, cd);
    if d > 0.0 { QuotientScaled(Abs(r - l), d, s, Abs(cr - cl), cd); }
  }

  lemma RelativeShiftScaled(l: real, r: real, c: real, cl: real, cr: real)
    requires c != 0.0 && cl == c * l && cr == c * r
    ensures RelativeShift(cl, cr) == RelativeShift(l, r)
  {
    hide RelativeShift, Max, Abs;
    AbsOfNonZero(c);
    RelativePartsScaled(l, r, c, cl, cr, Abs(c));
    RelativeShiftOfParts(l, r, cl, cr, Abs(c));
  }

  lemma SquaresScaled(c: real, d: real, cd: real, s: real)
    requires cd == c * d && s == c * c
    ensures Square(cd) == s * Square(d)
  {
    SquareScaled(c, d, cd, s);
  }

  lemma AbsOfNonZero(c: real)
    requires c != 0.0
    ensures Abs(c) > 0.0
  {
  }

  lemma StandardizedScaled(d: real, e: real, c: real, s: real, cd: real, se: real)
    requires c != 0.0 && s == c * c && cd == c * d && se == s * e
    ensures StandardizedSquared(cd, se) == StandardizedSquared(d, e)
    ensures (se == 0.0 <==> e == 0.0) && (cd == 0.0 <==> d == 0.0)
  {
    SquareOfNonZero(c, s);
    ZeroScaled(c, d, cd);
    SignScaled(s, e, se);
    SquaresScaled(c, d, cd, s);
    hide Square;
    if e > 0.0 { QuotientScaled(Square(d), e, s, Square(cd), se); }
  }

  lemma SquareOfNonZero(c: real, s: real)
    requires c != 0.0 && s == c * c
    ensures s > 0.0
  {
    if c > 0.0 { PositiveProduct(c, c, s); } else { NegativeProduct(c, c, s); }
  }

  lemma ZeroScaled(c: real, x: real, cx: real)
    requires c != 0.0 && cx == c * x
    ensures x == 0.0 <==> cx == 0.0
  {
    if cx == 0.0 { assert x == cx / c; }
  }

  /** A product under a name, for lemmas that only pass it on. */
  ghost predicate Times(x: real, y: real, z: real) { z == x * y }

  lemma MeritOfScaled(k: nat, l: real, r: real, e: real, c: real, s: real, cl: real, cr: real, se: real)
    requires c != 0.0 && Times(c, c, s) && Times(c, l, cl) && Times(c, r, cr) && Times(s, e, se)
    ensures MeritOf(k, cl, cr, se) == MeritOf(k, l, r, e)
  {
    hide RelativeShift, StandardizedSquared;
    RelativeShiftScaled(l, r, c, cl, cr);
    DifferenceScaled(c, r, l, cr, cl);
    StandardizedScaled(r - l, e, c, s, cr - cl, se);
  }

  /** The merit of a split is the same in every unit, and under a change of sign. */
  lemma MeritScaled(xs: seq<real>, ys: seq<real>, k: nat, c: real)
    requires 0 < k < |xs| && c != 0.0 && Scaled(xs, ys, c)
    ensures Evaluate(ys, k).merit == Evaluate(xs, k).merit
  {
    assert Times(c, c, c * c);
    hide *;
    assert |ys| == |xs| by { SplitScaled(xs, ys, k, c, c * c); }
    MeritScaledBy(xs, ys, k, c, c * c);
  }

  lemma MeritScaledBy(xs: seq<real>, ys: seq<real>, k: nat, c: real, s: real)
    requires 0 < k < |xs| && c != 0.0 && Scaled(xs, ys, c) && Times(c, c, s)
    ensures |ys| == |xs| && Evaluate(ys, k).merit == Evaluate(xs, k).merit
  {
    SplitScaled(xs, ys, k, c, s);
    hide Mean, SquaredError, MeritOf, Scaled, Times;
    MeritOfScaled(k, Mean(xs[..k]), Mean(xs[k..]), SquaredError(xs, k), c, s,
                  Mean(ys[..k]), Mean(ys[k..]), SquaredError(ys, k));
  }

  lemma SplitScaled(xs: seq<real>, ys: seq<real>, k: nat, c: real, s: real)
    requires 0 < k < |xs| && Scaled(xs, ys, c) && Times(c, c, s)
    ensures |ys| == |xs|
    ensures Times(c, Mean(xs[..k]), Mean(ys[..k])) && Times(c, Mean(xs[k..]), Mean(ys[k..]))
    ensures Times(s, SquaredError(xs, k), SquaredError(ys, k))
  {
    ScaledParts(xs, ys, c, k);
    MeanScaled(xs[..k], ys[..k], c);
    MeanScaled(xs[k..], ys[k..], c);
    SquaredErrorScaled(xs, ys, k, c, s);
    assert |ys| == |xs|;
    hide Mean, SquaredError, Scaled;
  }

  ghost predicate SameMerits(xs: seq<Candidate>, ys: seq<Candidate>) {
    |xs| == |ys| && forall i | 0 <= i < |xs| :: xs[i].merit == ys[i].merit
  }

  lemma {:induction false} CandidatesScaled(xs: seq<real>, ys: seq<real>, p: Parameters, c: real, upTo: int)
    requires p.minSegmentSamples > 0 && upTo <= |xs| - p.minSegmentSamples + 1 && c != 0.0 && Scaled(xs, ys, c)
    ensures SameMerits(Candidates(ys, p, upTo), Candidates(xs, p, upTo))
    decreases upTo
  {
    hide Evaluate, Qualifies;
    if upTo > p.minSegmentSamples {
      CandidatesScaled(xs, ys, p, c, upTo - 1);
      MeritScaled(xs, ys, upTo - 1, c);
    }
  }

  lemma {:induction false} InsertSameMerits(x: Candidate, y: Candidate, xs: seq<Candidate>, ys: seq<Candidate>)
    requires x.merit == y.merit && SameMerits(xs, ys)
    ensures SameMerits(Insert(x, xs, AtLeast), Insert(y, ys, AtLeast))
  {
    hide Better;
    if xs != [] {
      assert xs[0].merit == ys[0].merit;
      assert AtLeast(x, xs[0]) == AtLeast(y, ys[0]);
      SameMeritsTail(xs, ys);
      InsertSameMerits(x, y, xs[1..], ys[1..]);
      hide AtLeast;
      InsertUnfold(x, xs);
      InsertUnfold(y, ys);
      SameMeritsCons(xs[0], ys[0], Insert(x, xs[1..], AtLeast), Insert(y, ys[1..], AtLeast));
      SameMeritsCons(x, y, xs, ys);
    } else {
      SameMeritsCons(x, y, xs, ys);
    }
  }

  lemma InsertUnfold(x: Candidate, xs: seq<Candidate>)
    requires xs != []
    ensures Insert(x, xs, AtLeast) == if AtLeast(x, xs[0]) then [x] + xs else [xs[0]] + Insert(x, xs[1..], AtLeast)
  {
  }

  lemma SameMeritsTail(xs: seq<Candidate>, ys: seq<Candidate>)
    requires SameMerits(xs, ys) && xs != []
    ensures SameMerits(xs[1..], ys[1..])
  {
  }

  lemma SameMeritsCons(x: Candidate, y: Candidate, xs: seq<Candidate>, ys: seq<Candidate>)
    requires x.merit == y.merit && SameMerits(xs, ys)
    ensures SameMerits([x] + xs, [y] + ys)
  {
  }

  lemma {:induction false} SortSameMerits(xs: seq<Candidate>, ys: seq<Candidate>)
    requires SameMerits(xs, ys)
    ensures SameMerits(Sort(xs, AtLeast), Sort(ys, AtLeast))
  {
    hide AtLeast;
    if xs != [] {
      SortSameMerits(xs[1..], ys[1..]);
      InsertSameMerits(xs[0], ys[0], Sort(xs[1..], AtLeast), Sort(ys[1..], AtLeast));
    }
  }

  /** Multiplying all values by a number that is not zero keeps the same splits in the same order,
    * with the same merits. */
  lemma UnitDoesNotMatter(xs: seq<real>, ys: seq<real>, p: Parameters, c: real)
    requires p.minSegmentSamples > 0 && p.maxCandidates >= 0 && c != 0.0 && Scaled(xs, ys, c)
    ensures var upTo := |xs| - p.minSegmentSamples + 1;
            SameMerits(Best(Candidates(ys, p, upTo), p.maxCandidates), Best(Candidates(xs, p, upTo), p.maxCandidates))
  {
    hide Candidates, SameMerits, Best;
    var upTo := |xs| - p.minSegmentSamples + 1;
    CandidatesScaled(xs, ys, p, c, upTo);
    BestSameMerits(Candidates(ys, p, upTo), Candidates(xs, p, upTo), p.maxCandidates);
  }

  lemma BestSameMerits(xs: seq<Candidate>, ys: seq<Candidate>, limit: int)
    requires SameMerits(xs, ys) && limit >= 0
    ensures SameMerits(Best(xs, limit), Best(ys, limit))
  {
    hide AtLeast, Sort;
    SortSameMerits(xs, ys);
  }

  /** Rows in another order give the same splits. */
  lemma RowOrderDoesNotMatter(rows: seq<Row>, others: seq<Row>)
    requires multiset(rows) == multiset(others) && Acceptable(rows)
    ensures Map(Sort(Map(rows, PointOf), ByTime), ValueOf) == Map(Sort(Map(others, PointOf), ByTime), ValueOf)
  {
    SeriesForgetsRowOrder(rows, others);
  }
}
