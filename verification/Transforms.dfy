/** The transforms of a series, and what becomes of them when the series is negated (`_transform`). */
module Transforms {
  import opened Wrappers
  import opened Totals
  import opened Sorting
  import opened RollingStability
  import opened SignReversal

  /** The transforms that the aliases stand for. */
  datatype Transform = Level | Difference | LogDifference | SignedLogDifference

  /** The natural logarithm, wherever it is taken. */
  type Logarithm = real -> real

  /** `copysign(log1p(abs(value)), value)`, and zero of zero. */
  function SignedLog(x: real, log: Logarithm): real {
    if x == 0.0 then 0.0
    else
      var size := Abs(log(1.0 + Abs(x)));
      if x < 0.0 then -size else size
  }

  /** The change from one value to the next, where the transform has one. */
  function Change(previous: Option<real>, current: Option<real>, how: Transform, log: Logarithm): Option<real> {
    if previous.None? || current.None? then None
    else
      match how
      case Level => current
      case Difference => Some(current.value - previous.value)
      case SignedLogDifference => Some(SignedLog(current.value, log) - SignedLog(previous.value, log))
      case LogDifference =>
        if previous.value > 0.0 && current.value > 0.0 then Some(log(current.value) - log(previous.value)) else None
  }

  /** The changes between neighbours. */
  function Changes(s: Series, how: Transform, log: Logarithm): (r: Series)
    ensures |r| == if s == [] then 0 else |s| - 1
    ensures forall i | 0 <= i < |r| :: r[i] == Change(s[i], s[i + 1], how, log)
  {
    if |s| <= 1 then []
    else
      var n := |s| - 1;
      Changes(s[..n], how, log) + [Change(s[n - 1], s[n], how, log)]
  }

  /** The first value has no change; a series without values gets one place all the same. */
  function Transformed(s: Series, how: Transform, log: Logarithm): Series {
    if how == Level then s else [None] + Changes(s, how, log)
  }

  method TransformSeries(values: Series, how: Transform, log: Logarithm) returns (transformed: Series)
    ensures transformed == Transformed(values, how, log)
  {
    hide Change, Transformed;
    if how == Level {
      TransformedLevel(values, log);
      return values;
    }
    transformed := [None];
    var n := if values == [] then 0 else |values| - 1;
    for i := 0 to n
      invariant |transformed| == i + 1 && transformed[0] == None
      invariant forall j | 0 < j <= i :: transformed[j] == Change(values[j - 1], values[j], how, log)
    {
      var change := TransformChange(values[i], values[i + 1], how, log);
      transformed := transformed + [change];
    }
    TransformedFrom(values, how, log, transformed);
  }

  lemma TransformedLevel(s: Series, log: Logarithm)
    ensures Transformed(s, Level, log) == s
  {
  }

  method TransformChange(previous: Option<real>, current: Option<real>, how: Transform, log: Logarithm)
    returns (change: Option<real>)
    requires how != Level
    ensures change == Change(previous, current, how, log)
  {
    if previous.None? || current.None? {
      change := None;
    } else if how == Difference {
      change := Some(current.value - previous.value);
    } else if how == SignedLogDifference {
      change := Some(SignedLog(current.value, log) - SignedLog(previous.value, log));
    } else if previous.value > 0.0 && current.value > 0.0 {
      change := Some(log(current.value) - log(previous.value));
    } else {
      change := None;
    }
  }

  lemma {:induction false} TransformedFrom(s: Series, how: Transform, log: Logarithm, t: Series)
    requires how != Level && |t| == (if s == [] then 1 else |s|) && t[0] == None
    requires forall j | 0 < j < |t| :: t[j] == Change(s[j - 1], s[j], how, log)
    ensures t == Transformed(s, how, log)
  {
    hide Change, Changes;
    var changes := Changes(s, how, log);
    forall i | 0 < i < |t| ensures t[i] == changes[i - 1] {
      var k := i - 1;
      assert changes[k] == Change(s[k], s[k + 1], how, log);
    }
    assert t == [None] + changes;
  }

  // ---- The negated series ----

  function NegatedSeries(s: Series): (r: Series)
    ensures |r| == |s| && forall i | 0 <= i < |r| :: r[i] == Opposite(s[i])
  {
    Map(s, Opposite)
  }

  lemma SignedLogIsOdd(x: real, log: Logarithm)
    ensures SignedLog(-x, log) == -SignedLog(x, log)
  {
    assert Abs(-x) == Abs(x);
  }

  /** Both values are there and have the same sign. */
  predicate SameSign(previous: Option<real>, current: Option<real>) {
    && previous.Some? && current.Some?
    && ((previous.value > 0.0 && current.value > 0.0) || (previous.value < 0.0 && current.value < 0.0))
  }

  lemma ChangeOfNegated(previous: Option<real>, current: Option<real>, how: Transform, log: Logarithm)
    ensures Change(Opposite(previous), Opposite(current), how, log) == Opposite(Change(previous, current, how, log))
            <==> !(how == LogDifference && SameSign(previous, current))
  {
    if previous.Some? && current.Some? {
      SignedLogIsOdd(previous.value, log);
      SignedLogIsOdd(current.value, log);
      hide SignedLog;
    }
  }

  /** No two neighbours have the same sign, so that a logarithm of their change exists neither of the series
    * nor of the negated one. */
  ghost predicate NeverSameSign(s: Series) { forall i | 0 < i < |s| :: !SameSign(s[i - 1], s[i]) }

  lemma TransformedAt(s: Series, how: Transform, log: Logarithm)
    requires how != Level
    ensures var t := Transformed(s, how, log);
      && |t| == (if s == [] then 1 else |s|) && t[0] == None
      && forall i | 0 < i < |t| :: t[i] == Change(s[i - 1], s[i], how, log)
  {
    var t, changes := Transformed(s, how, log), Changes(s, how, log);
    hide Change, Changes;
    forall i | 0 < i < |t| ensures t[i] == Change(s[i - 1], s[i], how, log) { assert t[i] == changes[i - 1]; }
  }

  lemma ChangeTurnsAt(s: Series, how: Transform, log: Logarithm, i: nat)
    requires how != Level && 0 < i < |s|
    ensures |Transformed(s, how, log)| == |Transformed(NegatedSeries(s), how, log)| == |s|
    ensures Transformed(NegatedSeries(s), how, log)[i] == Opposite(Transformed(s, how, log)[i])
            <==> !(how == LogDifference && SameSign(s[i - 1], s[i]))
  {
    TransformedAt(s, how, log);
    TransformedAt(NegatedSeries(s), how, log);
    hide Change, Transformed, Opposite, SameSign;
    assert NegatedSeries(s)[i - 1] == Opposite(s[i - 1]) && NegatedSeries(s)[i] == Opposite(s[i]);
    ChangeOfNegated(s[i - 1], s[i], how, log);
  }

  lemma ChangesTurn(s: Series, how: Transform, log: Logarithm)
    requires how != Level && (how != LogDifference || NeverSameSign(s))
    ensures Transformed(NegatedSeries(s), how, log) == NegatedSeries(Transformed(s, how, log))
  {
    TransformedAt(s, how, log);
    TransformedAt(NegatedSeries(s), how, log);
    NothingOpposite();
    var t, negated := Transformed(s, how, log), Transformed(NegatedSeries(s), how, log);
    hide Change, Transformed, SameSign, Opposite;
    forall i | 0 <= i < |t| ensures negated[i] == Opposite(t[i]) {
      if i > 0 {
        ChangeTurnsAt(s, how, log, i);
        assert how != LogDifference || !SameSign(s[i - 1], s[i]);
      }
    }
    assert |negated| == |NegatedSeries(t)|;
  }

  lemma GrowthDoesNotTurn(s: Series, log: Logarithm, i: nat)
    requires 0 < i < |s| && SameSign(s[i - 1], s[i])
    ensures Transformed(NegatedSeries(s), LogDifference, log) != NegatedSeries(Transformed(s, LogDifference, log))
  {
    hide Transformed, SameSign, Opposite;
    ChangeTurnsAt(s, LogDifference, log, i);
    var t := Transformed(s, LogDifference, log);
    assert NegatedSeries(t)[i] == Opposite(t[i]);
  }

  /** The transform of the negated series is the negated transform exactly when it takes no plain logarithms,
    * or no two neighbours have the same sign. */
  lemma TransformOfNegated(s: Series, how: Transform, log: Logarithm)
    ensures Transformed(NegatedSeries(s), how, log) == NegatedSeries(Transformed(s, how, log))
            <==> how != LogDifference || NeverSameSign(s)
  {
    hide SameSign, NegatedSeries;
    if how == LogDifference && !NeverSameSign(s) {
      var i :| 0 < i < |s| && SameSign(s[i - 1], s[i]);
      GrowthDoesNotTurn(s, log, i);
    } else if how != Level {
      ChangesTurn(s, how, log);
    }
  }

  lemma NothingOpposite()
    ensures Opposite(None) == None
  {
  }

  /** So negating commutes with a transform, whatever the series, exactly for all but the plain logarithm. */
  lemma TransformsThatCommute(how: Transform, log: Logarithm)
    ensures (forall s :: Transformed(NegatedSeries(s), how, log) == NegatedSeries(Transformed(s, how, log)))
            <==> how != LogDifference
  {
    hide Transformed, NegatedSeries;
    forall s: Series ensures how != LogDifference ==>
                       Transformed(NegatedSeries(s), how, log) == NegatedSeries(Transformed(s, how, log)) {
      TransformOfNegated(s, how, log);
    }
    var growing := [Some(1.0), Some(1.0)];
    TransformOfNegated(growing, how, log);
    assert SameSign(growing[0], growing[1]);
  }

  /** Where no value is negative, no logarithm of a change is left after negating. */
  lemma NegatedGrowthIsGone(s: Series, log: Logarithm)
    requires forall i | 0 <= i < |s| && s[i].Some? :: s[i].value >= 0.0
    ensures forall x | x in Transformed(NegatedSeries(s), LogDifference, log) :: x == None
  {
    var negated := NegatedSeries(s);
    TransformedAt(negated, LogDifference, log);
    var t := Transformed(negated, LogDifference, log);
    hide Transformed;
    forall i | 0 < i < |t| ensures t[i] == None { assert negated[i] == Opposite(s[i]); }
  }

  lemma NothingIsPaired(target: Series, candidate: Series, lag: int)
    requires forall x | x in candidate :: x == None
    ensures Pairs(target, candidate, lag) == []
  {
    PairTimesFacts(target, candidate, lag);
    var times := PairTimes(target, candidate, lag);
    hide PairTimes;
    forall i | 0 <= i < |candidate| ensures candidate[i] == None { assert candidate[i] in candidate; }
    forall t ensures t !in times {
      assert t in times <==> HasPair(target, candidate, lag, t);
      assert 0 <= t - lag < |candidate| ==> candidate[t - lag] == None;
    }
    NothingIn(times);
  }
}
