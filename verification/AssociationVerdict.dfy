/** What the association capability asks of its configuration and what it says of a hypothesis: when one is
  * significant, when it is supported, and how likely chance alone is to give its coefficient. */
module AssociationVerdict {
  import opened Wrappers
  import opened Totals
  import opened RealArith
  import opened FdrAdjustment
  import opened RollingStability
  import opened Association

  // ---- The configuration ----

  /** As given by the caller (`rolling_step` may be left out). */
  datatype Settings = Settings(minSamples: int, window: int, step: Option<int>, minWindows: int, directionRatio: real,
                               minAbsCorrelation: real, alpha: real, fdr: FdrMethod)

  datatype SettingsError =
    | MinSamplesTooFew | WindowTooShort | StepNotPositive | MinWindowsNotPositive | DirectionRatioNotAProportion
    | MinCorrelationNotAProportion | AlphaNotBetween | FdrMethodUnsupported

  predicate IsProportion(x: real) { !(x < 0.0 || x > 1.0) }

  predicate HasFault(s: Settings, e: SettingsError) {
    match e
    case MinSamplesTooFew => s.minSamples <= 2
    case WindowTooShort => s.window <= 2
    case StepNotPositive => s.step.Some? && s.step.value <= 0
    case MinWindowsNotPositive => s.minWindows <= 0
    case DirectionRatioNotAProportion => !IsProportion(s.directionRatio)
    case MinCorrelationNotAProportion => !IsProportion(s.minAbsCorrelation)
    case AlphaNotBetween => s.alpha <= 0.0 || s.alpha >= 1.0
    case FdrMethodUnsupported => s.fdr == UnsupportedMethod
  }

  /** The order in which faults are looked for. */
  function Turn(e: SettingsError): nat {
    match e
    case MinSamplesTooFew => 0
    case WindowTooShort => 1
    case StepNotPositive => 2
    case MinWindowsNotPositive => 3
    case DirectionRatioNotAProportion => 4
    case MinCorrelationNotAProportion => 5
    case AlphaNotBetween => 6
    case FdrMethodUnsupported => 7
  }

  ghost predicate IsFirstFault(s: Settings, e: SettingsError) {
    HasFault(s, e) && forall f :: HasFault(s, f) ==> Turn(e) <= Turn(f)
  }

  /** Settings without a fault give a configuration that the capability works with; windows then advance by the
    * step given, or by a third of their length but at least by one. */
  method ValidateConfiguration(s: Settings) returns (r: Result<Configuration, SettingsError>)
    ensures r.Err? ==> IsFirstFault(s, r.error)
    ensures r.Ok? ==> forall e :: !HasFault(s, e)
    ensures r.Ok? ==>
      && IsValid(r.value) && s.minSamples == r.value.minSamples && s.window == r.value.window
      && (s.step.Some? ==> s.step.value == r.value.step)
      && (s.step.None? ==> r.value.step >= 1 && (3 * r.value.step <= s.window < 3 * (r.value.step + 1)))
      && r.value.thresholds == Thresholds(s.minWindows, s.directionRatio, s.minAbsCorrelation, s.alpha)
  {
    if s.minSamples < 3 { return Err(MinSamplesTooFew); }
    if s.window < 3 { return Err(WindowTooShort); }
    if s.step.Some? && s.step.value < 1 { return Err(StepNotPositive); }
    if s.minWindows < 1 { return Err(MinWindowsNotPositive); }
    if !(0.0 <= s.directionRatio <= 1.0) { return Err(DirectionRatioNotAProportion); }
    if !(0.0 <= s.minAbsCorrelation <= 1.0) { return Err(MinCorrelationNotAProportion); }
    if !(0.0 < s.alpha < 1.0) { return Err(AlphaNotBetween); }
    if s.fdr == UnsupportedMethod { return Err(FdrMethodUnsupported); }
    var third := s.window / 3;
    var step := if s.step.Some? then s.step.value else if third < 1 then 1 else third;
    r := Ok(Configuration(s.minSamples, s.window, step,
                          Thresholds(s.minWindows, s.directionRatio, s.minAbsCorrelation, s.alpha)));
  }

  /** What the capability works with is what comes of settings without a fault. */
  lemma ValidHasNoFault(c: Configuration, fdr: FdrMethod)
    requires fdr != UnsupportedMethod
    ensures var t := c.thresholds;
      var s := Settings(c.minSamples, c.window, Some(c.step), t.minWindows, t.directionRatio, t.minAbsCorrelation,
                        t.alpha, fdr);
      IsValid(c) <==> forall e :: !HasFault(s, e)
  {
    var t := c.thresholds;
    var s := Settings(c.minSamples, c.window, Some(c.step), t.minWindows, t.directionRatio, t.minAbsCorrelation,
                      t.alpha, fdr);
    if forall e :: !HasFault(s, e) {
      assert !HasFault(s, MinSamplesTooFew) && !HasFault(s, WindowTooShort) && !HasFault(s, StepNotPositive);
      assert !HasFault(s, MinWindowsNotPositive) && !HasFault(s, DirectionRatioNotAProportion);
      assert !HasFault(s, MinCorrelationNotAProportion) && !HasFault(s, AlphaNotBetween);
    }
  }

  // ---- Chance ----

  function Clamped(x: real): real { Min(Max(x, 0.0), 1.0) }

  function Min(x: real, y: real): real { if x < y then x else y }

  lemma OddsCancel(square: real, degrees: real)
    requires 0.0 <= square < 1.0 && degrees > 0.0
    ensures degrees + square * degrees / (1.0 - square) > 0.0
    ensures degrees / (degrees + square * degrees / (1.0 - square)) == 1.0 - square
  {
    var rest, odds := 1.0 - square, square * degrees / (1.0 - square);
    ProductMonotone(0.0, square, degrees);
    LeDiv(0.0, square * degrees, rest);
    assert odds * rest == square * degrees;
    assert rest * (degrees + odds) == degrees by {
      assert rest * (degrees + odds) == rest * degrees + rest * odds;
      assert rest * degrees == degrees - square * degrees;
    }
    assert (degrees / (degrees + odds)) * (degrees + odds) == degrees;
    SameFactor(degrees / (degrees + odds), rest, degrees + odds);
  }

  lemma SameFactor(x: real, y: real, z: real)
    requires z > 0.0 && x * z == y * z
    ensures x == y
  {
    if x < y { ProductPositive(y - x, z); }
    if y < x { ProductPositive(x - y, z); }
  }

  /** The p-value is the incomplete beta function at what the coefficient leaves unexplained, `1 - c * c`, with
    * two degrees of freedom fewer than pairs. A coefficient of zero has p-value one, one of full size zero, and
    * two pairs prove nothing. */
  lemma PValueOfUnexplained(c: real, n: nat, beta: Beta, unexplained: real)
    requires -1.0 <= c <= 1.0 && unexplained == 1.0 - c * c
    ensures n <= 2 || c == 0.0 ==> PValue(c, n, beta) == 1.0
    ensures n >= 3 && (c >= 0.999999999999999 || c <= -0.999999999999999) ==> PValue(c, n, beta) == 0.0
    ensures n >= 3 && -0.999999999999999 < c < 0.999999999999999 && c != 0.0
            ==> PValue(c, n, beta) == Clamped(beta(unexplained, n - 2))
  {
    ZeroHasPOne(n, beta);
    ExtremePValues(c, n, beta);
    if n > 2 && -0.999999999999999 < c < 0.999999999999999 {
      SquareBelowOne(c, Abs(c), 1.0 - unexplained);
      hide PValueOfSize, Clamped;
      PValueByUnexplained(Abs(c), n, beta, 1.0 - unexplained, unexplained);
    }
  }

  lemma ExtremePValues(c: real, n: nat, beta: Beta)
    ensures PValue(c, n, beta) == PValueOfSize(Abs(c), n, beta)
    ensures n <= 2 ==> PValue(c, n, beta) == 1.0
    ensures n >= 3 && (c >= 0.999999999999999 || c <= -0.999999999999999) ==> PValue(c, n, beta) == 0.0
  {
  }

  lemma PValueByUnexplained(size: real, n: nat, beta: Beta, square: real, unexplained: real)
    requires n > 2 && 0.0 <= size < 0.999999999999999 && square == size * size && unexplained == 1.0 - square
    requires 0.0 <= square < 1.0
    ensures square > 0.0 ==> PValueOfSize(size, n, beta) == Clamped(beta(unexplained, n - 2))
  {
    var degrees := (n - 2) as real;
    OddsNotNegative(square, size, degrees);
    OddsCancel(square, degrees);
    assert ShareOfDegrees(square, degrees) == unexplained;
    hide ShareOfDegrees;
    assert PValueOfSize(size, n, beta) == Clamped(RegularizedBeta(unexplained, n - 2, beta));
  }

  lemma SquareBelowOne(c: real, size: real, square: real)
    requires size == Abs(c) && size < 1.0 && square == c * c
    ensures size * size == square && 0.0 <= square < 1.0
    ensures c != 0.0 ==> square > 0.0
  {
    SquareNonNegative(c);
    ProductMonotone(size, 1.0, size);
    if c > 0.0 { PositiveProduct(c, c, square); }
    if c < 0.0 { NegativeProduct(c, c, square); }
  }

  // ---- The family ----

  /** The p-values there are, in their order. */
  function Ps(es: seq<Estimate>): seq<real> {
    if es == [] then []
    else Ps(es[..|es| - 1]) + match es[|es| - 1].pValue { case Some(p) => [p] case None => [] }
  }

  lemma {:induction false} FilterAgrees<T>(xs: seq<T>, f: T -> bool, g: T -> bool)
    requires forall x | x in xs :: f(x) == g(x)
    ensures Filter(xs, f) == Filter(xs, g)
  {
    if xs != [] { FilterAgrees(xs[1..], f, g); }
  }

  lemma TestedOfOneMore(es: seq<Estimate>, e: Estimate)
    ensures Tested(es + [e]) == Tested(es) + if e.pValue.Some? then [|es|] else []
  {
    var all, n := es + [e], |es|;
    assert Indices(n + 1) == Indices(n) + [n];
    FilterSnoc(Indices(n), n, (i: int) => HasP(all, i));
    FilterAgrees(Indices(n), (i: int) => HasP(all, i), (i: int) => HasP(es, i));
  }

  lemma {:induction false} PValuesAreThose(es: seq<Estimate>)
    ensures PValues(es) == Ps(es)
  {
    if es != [] {
      var front, e := es[..|es| - 1], es[|es| - 1];
      assert es == front + [e];
      PValuesAreThose(front);
      TestedOfOneMore(front, e);
      TestedFacts(front);
      hide Tested;
      forall k | 0 <= k < |Tested(front)| ensures PAt(es)(Tested(front)[k]) == PAt(front)(Tested(front)[k]) {
        assert Tested(front)[k] in Tested(front);
      }
      assert PValues(es) == PValues(front) + if e.pValue.Some? then [e.pValue.value] else [];
    } else {
      assert Tested(es) == [];
    }
  }

  /** One hypothesis of a judged family: it keeps its estimate and has an adjusted value exactly if it has a
    * p-value; it is significant when that value is at most `alpha`, and supported when moreover its coefficient
    * is at least as large as asked for, either way. */
  lemma SupportedExactlyWhen(js: seq<Judged>, es: seq<Estimate>, fdr: FdrMethod, t: Thresholds, i: nat)
    requires JudgedBy(js, es, fdr, t) && i < |es|
    ensures |js| == |es| && js[i].estimate == es[i]
    ensures js[i].qValue.Some? <==> es[i].pValue.Some?
    ensures js[i].fdrSignificant <==> js[i].qValue.Some? && js[i].qValue.value <= t.alpha
    ensures js[i].supported
       <==> && js[i].qValue.Some? && js[i].qValue.value <= t.alpha && es[i].coefficient.Some?
            && (es[i].coefficient.value >= t.minAbsCorrelation || es[i].coefficient.value <= -t.minAbsCorrelation)
  {
    var q :| Adjusted(PValues(es), fdr, q) && JudgedUpTo(js, es, q, t, |q|);
    JudgedCounts(js, es, q, t, |q|);
    var k := JudgedAt(js, es, q, t, i);
    hide Adjusted, JudgedUpTo, Tested;
  }

  /** The adjusted values there are, in their order. */
  function Qs(js: seq<Judged>): seq<real> {
    if js == [] then []
    else Qs(js[..|js| - 1]) + match js[|js| - 1].qValue { case Some(q) => [q] case None => [] }
  }

  lemma {:induction false} TestedPrefix(es: seq<Estimate>, n: nat)
    requires n <= |es|
    ensures Tested(es[..n]) <= Tested(es)
    decreases |es| - n
  {
    hide Tested;
    if n < |es| {
      assert es[..n + 1] == es[..n] + [es[n]];
      TestedOfOneMore(es[..n], es[n]);
      TestedPrefix(es, n + 1);
    } else {
      assert es[..n] == es;
    }
  }

  lemma {:induction false} AdjustedInOrder(js: seq<Judged>, es: seq<Estimate>, q: seq<real>, t: Thresholds, n: nat)
    requires JudgedUpTo(js, es, q, t, |q|) && n <= |es|
    ensures n <= |js| && Tested(es[..n]) <= Tested(es) && |Tested(es[..n])| <= |q|
    ensures Qs(js[..n]) == q[..|Tested(es[..n])|]
  {
    TestedPrefix(es, n);
    hide Tested;
    if n == 0 {
      NothingTested(es[..0]);
    } else {
      AdjustedInOrder(js, es, q, t, n - 1);
      assert es[..n] == es[..n - 1] + [es[n - 1]];
      TestedOfOneMore(es[..n - 1], es[n - 1]);
      assert js[..n][..n - 1] == js[..n - 1];
      var m := |Tested(es[..n - 1])|;
      if es[n - 1].pValue.Some? {
        assert Tested(es)[m] == n - 1;
        assert js[n - 1] == WithQ(es[n - 1], q[m], t);
        assert q[..m + 1] == q[..m] + [q[m]];
      } else {
        var k := JudgedAt(js, es, q, t, n - 1);
      }
    }
  }

  lemma NothingTested(es: seq<Estimate>)
    requires es == []
    ensures Tested(es) == []
  {
  }

  lemma AdjustedAll(js: seq<Judged>, es: seq<Estimate>, q: seq<real>, t: Thresholds)
    requires JudgedUpTo(js, es, q, t, |q|)
    ensures Qs(js) == q
  {
    AdjustedInOrder(js, es, q, t, |es|);
    hide Tested, Qs;
    assert es[..|es|] == es && js[..|es|] == js;
    assert q[..|q|] == q;
  }

  /** The adjusted values of a judged family are the adjustment of its p-values, in their order. */
  lemma JudgedValuesAreAdjusted(js: seq<Judged>, es: seq<Estimate>, fdr: FdrMethod, t: Thresholds)
    requires JudgedBy(js, es, fdr, t)
    ensures Adjusted(Ps(es), fdr, Qs(js))
  {
    hide Adjusted, Tested, PValues, Ps;
    var q :| Adjusted(PValues(es), fdr, q) && JudgedUpTo(js, es, q, t, |q|);
    PValuesAreThose(es);
    AdjustedAll(js, es, q, t);
  }
}
