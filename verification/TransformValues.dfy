/** What a transformed series holds at each place. */
module TransformValues {
  import opened Wrappers
  import opened Totals
  import opened RollingStability
  import opened Transforms

  /** The logarithm on both sides of zero. */
  function Mirrored(x: real, log: Logarithm): real {
    if x > 0.0 then Abs(log(1.0 + x)) else if x < 0.0 then -Abs(log(1.0 - x)) else 0.0
  }

  lemma SignedLogExactly(x: real, log: Logarithm)
    ensures SignedLog(x, log) == Mirrored(x, log)
  {
  }

  /** What the transform makes of two values that follow each other. */
  function Step(a: real, b: real, how: Transform, log: Logarithm): Option<real> {
    match how
    case Level => Some(b)
    case Difference => Some(b - a)
    case SignedLogDifference => Some(Mirrored(b, log) - Mirrored(a, log))
    case LogDifference => if a <= 0.0 || b <= 0.0 then None else Some(log(b) - log(a))
  }

  /** Levels are left as they are. Any other transform keeps the length, has nothing at the first place, and
    * elsewhere has the step between the value there and the one before, if both are known. */
  lemma TransformedExactly(s: Series, how: Transform, log: Logarithm)
    ensures how == Level ==> Transformed(s, how, log) == s
    ensures how != Level ==>
      var t := Transformed(s, how, log);
      && |t| == (if s == [] then 1 else |s|) && t[0] == None
      && forall i | 0 < i < |s| ::
           t[i] == if s[i - 1].Some? && s[i].Some? then Step(s[i - 1].value, s[i].value, how, log) else None
  {
    if how != Level {
      var t, changes := Transformed(s, how, log), Changes(s, how, log);
      forall i | 0 < i < |s|
        ensures t[i] == if s[i - 1].Some? && s[i].Some? then Step(s[i - 1].value, s[i].value, how, log) else None
      {
        var k := i - 1;
        assert t[i] == changes[k] == Change(s[k], s[k + 1], how, log);
        if s[k].Some? && s[i].Some? {
          SignedLogExactly(s[k].value, log);
          SignedLogExactly(s[i].value, log);
        }
      }
    }
  }
}
