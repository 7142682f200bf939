/** What a stable sort forgets of the order in which its members came, and what it keeps. */
module StableSort {
  import opened Totals
  import opened Sorting

  lemma InsertBefore<T>(x: T, xs: seq<T>, le: (T, T) -> bool)
    requires xs == [] || le(x, xs[0])
    ensures Insert(x, xs, le) == [x] + xs
  {
  }

  lemma InsertAfter<T>(x: T, xs: seq<T>, le: (T, T) -> bool)
    requires xs != [] && !le(x, xs[0])
    ensures Insert(x, xs, le) == [xs[0]] + Insert(x, xs[1..], le)
  {
  }

  lemma FilterCons<T>(x: T, xs: seq<T>, keep: T -> bool)
    ensures Filter([x] + xs, keep) == (if keep(x) then [x] else []) + Filter(xs, keep)
  {
    assert ([x] + xs)[1..] == xs;
  }

  lemma {:induction false} InsertKeepsTies<T(!new)>(x: T, xs: seq<T>, le: (T, T) -> bool, tied: T -> bool)
    requires forall x, y | tied(x) && tied(y) :: le(x, y)
    ensures Filter(Insert(x, xs, le), tied) == (if tied(x) then [x] else []) + Filter(xs, tied)
  {
    hide Insert, Filter;
    if xs == [] || le(x, xs[0]) {
      InsertBefore(x, xs, le);
      FilterCons(x, xs, tied);
    } else {
      InsertAfter(x, xs, le);
      InsertKeepsTies(x, xs[1..], le, tied);
      FilterCons(xs[0], Insert(x, xs[1..], le), tied);
      FilterCons(xs[0], xs[1..], tied);
      assert xs == [xs[0]] + xs[1..];
    }
  }

  /** A stable sort keeps the members of a tie in their order. */
  lemma {:induction false} SortKeepsTies<T(!new)>(xs: seq<T>, le: (T, T) -> bool, tied: T -> bool)
    requires forall x, y | tied(x) && tied(y) :: le(x, y)
    ensures Filter(Sort(xs, le), tied) == Filter(xs, tied)
  {
    hide Insert, Filter;
    if xs != [] {
      SortKeepsTies(xs[1..], le, tied);
      InsertKeepsTies(xs[0], Sort(xs[1..], le), le, tied);
      FilterCons(xs[0], xs[1..], tied);
      assert xs == [xs[0]] + xs[1..];
    }
  }

  /** When two lists start with different members of a tie, sorting shows which was which. */
  lemma HeadsShow<T(!new)>(xs: seq<T>, ys: seq<T>, le: (T, T) -> bool)
    requires TotalPreorder(le) && xs != [] && ys != [] && xs[0] != ys[0] && le(xs[0], ys[0]) && le(ys[0], xs[0])
    ensures Sort(xs, le) != Sort(ys, le)
  {
    var head := xs[0];
    var tied := (t: T) => le(t, head) && le(head, t);
    SortKeepsTies(xs, le, tied);
    SortKeepsTies(ys, le, tied);
    FilterStarts(xs, tied);
    FilterStarts(ys, tied);
    hide Sort, Filter;
  }

  lemma FilterStarts<T>(xs: seq<T>, keep: T -> bool)
    requires xs != [] && keep(xs[0])
    ensures Filter(xs, keep) != [] && Filter(xs, keep)[0] == xs[0]
  {
  }

  /** The member at `i` moved to the front. */
  function MovedToFront<T>(xs: seq<T>, i: nat): (r: seq<T>)
    requires i < |xs|
    ensures multiset(r) == multiset(xs) && r[0] == xs[i]
  {
    var rest := RemoveAt(xs, i);
    assert multiset([xs[i]] + rest) == multiset{xs[i]} + multiset(rest);
    [xs[i]] + rest
  }

  /** A sorted list is the same for every arrival order exactly when no two members tie. */
  lemma SortForgetsArrivalOrder<T(!new)>(xs: seq<T>, le: (T, T) -> bool)
    requires TotalPreorder(le)
    ensures TieFree(xs, le) <==> forall ys | multiset(ys) == multiset(xs) :: Sort(ys, le) == Sort(xs, le)
  {
    hide Sort;
    if TieFree(xs, le) {
      forall ys | multiset(ys) == multiset(xs) ensures Sort(ys, le) == Sort(xs, le) { SortPermutation(xs, ys, le); }
    } else {
      var x, y :| x in xs && y in xs && le(x, y) && le(y, x) && x != y;
      var i :| 0 <= i < |xs| && xs[i] == x;
      var j :| 0 <= j < |xs| && xs[j] == y;
      HeadsShow(MovedToFront(xs, i), MovedToFront(xs, j), le);
    }
  }
}
