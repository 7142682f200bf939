/** Numbers sorted together with their original positions. */
module RealOrder {
  import opened Sorting
  import opened Totals

  predicate AtMost(a: real, b: real) { a <= b }

  predicate ByValue(a: (nat, real), b: (nat, real)) { a.1 <= b.1 }

  function Values(xs: seq<(nat, real)>): (r: seq<real>)
    ensures |r| == |xs| && forall i | 0 <= i < |xs| :: r[i] == xs[i].1
  {
    seq(|xs|, i requires 0 <= i < |xs| => xs[i].1)
  }

  function Ordered(xs: seq<real>): seq<(nat, real)> {
    Sort(Enumerate(xs), ByValue)
  }

  function SortedValues(xs: seq<real>): seq<real> {
    Sort(xs, AtMost)
  }

  lemma ValuesCons(x: (nat, real), xs: seq<(nat, real)>)
    ensures Values([x] + xs) == [x.1] + Values(xs)
  {
  }

  lemma {:induction false} InsertValue(x: (nat, real), xs: seq<(nat, real)>)
    ensures Values(Insert(x, xs, ByValue)) == Insert(x.1, Values(xs), AtMost)
  {
    if xs == [] {
      assert Values([x]) == [x.1];
    } else {
      ValuesCons(xs[0], xs[1..]);
      assert xs == [xs[0]] + xs[1..];
      assert Values(xs)[1..] == Values(xs[1..]);
      ValuesCons(x, xs);
      ValuesCons(xs[0], Insert(x, xs[1..], ByValue));
      InsertValue(x, xs[1..]);
    }
  }

  lemma ValuesTail(xs: seq<(nat, real)>)
    requires xs != []
    ensures Values(xs)[0] == xs[0].1 && Values(xs)[1..] == Values(xs[1..])
  {
  }

  lemma SortOfNone<T>(xs: seq<T>, le: (T, T) -> bool)
    requires xs == []
    ensures Sort(xs, le) == []
  {
  }

  lemma SortUnfold<T>(xs: seq<T>, le: (T, T) -> bool)
    requires xs != []
    ensures Sort(xs, le) == Insert(xs[0], Sort(xs[1..], le), le)
  {
  }

  lemma {:induction false} SortValues(xs: seq<(nat, real)>)
    ensures Values(Sort(xs, ByValue)) == Sort(Values(xs), AtMost)
  {
    hide Sort, Insert, Values, ByValue, AtMost;
    if xs == [] {
      SortOfNone(xs, ByValue);
      SortOfNone(Values(xs), AtMost);
    } else {
      ValuesTail(xs);
      SortUnfold(xs, ByValue);
      SortUnfold(Values(xs), AtMost);
      SortValues(xs[1..]);
      InsertValue(xs[0], Sort(xs[1..], ByValue));
    }
  }

  /** What sorting an enumeration gives: a rearrangement of the positions under which
    * the values ascend. */
  lemma OrderedFacts(xs: seq<real>)
    ensures |Ordered(xs)| == |xs|
    ensures Values(Ordered(xs)) == SortedValues(xs)
    ensures multiset(SortedValues(xs)) == multiset(xs) && |SortedValues(xs)| == |xs|
    ensures forall i, j | 0 <= i <= j < |xs| :: SortedValues(xs)[i] <= SortedValues(xs)[j]
    ensures forall k | 0 <= k < |xs| :: Ordered(xs)[k].0 < |xs| && Ordered(xs)[k].1 == xs[Ordered(xs)[k].0]
    ensures forall k, l | 0 <= k < l < |xs| :: Ordered(xs)[k].0 != Ordered(xs)[l].0
    ensures forall i | 0 <= i < |xs| :: exists k :: 0 <= k < |xs| && Ordered(xs)[k] == (i, xs[i])
  {
    EnumerationVisitsOnce(xs, Ordered(xs));
    SortValues(Enumerate(xs));
    assert Values(Enumerate(xs)) == xs;
    Ascending(xs);
  }

  lemma Ascending(xs: seq<real>)
    ensures |SortedValues(xs)| == |xs|
    ensures forall i, j | 0 <= i <= j < |xs| :: SortedValues(xs)[i] <= SortedValues(xs)[j]
  {
    SortSorted(xs, AtMost);
    var s := SortedValues(xs);
    forall i, j | 0 <= i <= j < |s| ensures s[i] <= s[j] {
      if i < j { assert AtMost(s[i], s[j]); }
    }
  }

  // Indicators: their totals count.
  function Below(v: real): real -> real { x => if x < v then 1.0 else 0.0 }

  function EqualTo(v: real): real -> real { x => if x == v then 1.0 else 0.0 }

  /** In a sequence made of a low part, a run of one value and a high part, the counts are the
    * bounds of the run. */
  lemma CountsOfRun(s: seq<real>, start: nat, end: nat, v: real)
    requires start <= end <= |s|
    requires forall k | 0 <= k < start :: s[k] < v
    requires forall k | start <= k < end :: s[k] == v
    requires forall k | end <= k < |s| :: s[k] > v
    ensures Total(s, Below(v)) == start as real
    ensures Total(s, EqualTo(v)) == (end - start) as real
  {
    var low, run, high := s[..start], s[start..end], s[end..];
    assert s == low + (run + high);
    CountsOfPieces(low, run, high, v);
  }

  lemma CountsOfPieces(low: seq<real>, run: seq<real>, high: seq<real>, v: real)
    requires forall k | 0 <= k < |low| :: low[k] < v
    requires forall k | 0 <= k < |run| :: run[k] == v
    requires forall k | 0 <= k < |high| :: high[k] > v
    ensures Total(low + (run + high), Below(v)) == |low| as real
    ensures Total(low + (run + high), EqualTo(v)) == |run| as real
  {
    var below, equal := Below(v), EqualTo(v);
    AllCount(low, below);
    NoneCounts(run, below);
    NoneCounts(high, below);
    NoneCounts(low, equal);
    AllCount(run, equal);
    NoneCounts(high, equal);
    hide Total, Below, EqualTo;
    TotalOfThree(low, run, high, below);
    TotalOfThree(low, run, high, equal);
  }

  lemma {:induction false} AllCount(xs: seq<real>, f: real -> real)
    requires forall k | 0 <= k < |xs| :: f(xs[k]) == 1.0
    ensures Total(xs, f) == |xs| as real
  {
    TotalConstant(xs, f, 1.0);
  }

  lemma {:induction false} NoneCounts(xs: seq<real>, f: real -> real)
    requires forall k | 0 <= k < |xs| :: f(xs[k]) == 0.0
    ensures Total(xs, f) == 0.0
  {
    TotalConstant(xs, f, 0.0);
  }

  lemma TotalOfThree(a: seq<real>, b: seq<real>, c: seq<real>, f: real -> real)
    ensures Total(a + (b + c), f) == Total(a, f) + (Total(b, f) + Total(c, f))
  {
    TotalAppend(a, b + c, f);
    TotalAppend(b, c, f);
  }
}
