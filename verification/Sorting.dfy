/** The stable sort that the library calls `sorted` and `sort` stand for. */
module Sorting {

  ghost predicate TotalPreorder<T(!new)>(le: (T, T) -> bool) {
    && (forall x, y :: le(x, y) || le(y, x))
    && (forall x, y, z :: le(x, y) && le(y, z) ==> le(x, z))
  }

  ghost predicate SortedBy<T>(xs: seq<T>, le: (T, T) -> bool) {
    forall i, j | 0 <= i < j < |xs| :: le(xs[i], xs[j])
  }

  function Insert<T>(x: T, xs: seq<T>, le: (T, T) -> bool): (r: seq<T>)
    ensures multiset(r) == multiset(xs) + multiset{x}
    ensures |r| == |xs| + 1
  {
    if xs == [] then [x]
    else if le(x, xs[0]) then [x] + xs
    else
      assert xs == [xs[0]] + xs[1..];
      [xs[0]] + Insert(x, xs[1..], le)
  }

  /** Stable: an element is inserted before the later elements that tie with it. */
  function Sort<T>(xs: seq<T>, le: (T, T) -> bool): (r: seq<T>)
    ensures multiset(r) == multiset(xs)
    ensures |r| == |xs|
  {
    if xs == [] then []
    else
      assert xs == [xs[0]] + xs[1..];
      Insert(xs[0], Sort(xs[1..], le), le)
  }

  lemma {:induction false} InsertSorted<T(!new)>(x: T, xs: seq<T>, le: (T, T) -> bool)
    requires TotalPreorder(le) && SortedBy(xs, le)
    ensures SortedBy(Insert(x, xs, le), le)
  {
    if xs == [] {
    } else if le(x, xs[0]) {
      forall j | 0 <= j < |xs| ensures le(x, xs[j]) {
        if j > 0 { assert le(xs[0], xs[j]); }
      }
    } else {
      InsertSorted(x, xs[1..], le);
      var rest := Insert(x, xs[1..], le);
      forall j | 0 <= j < |rest| ensures le(xs[0], rest[j]) {
        assert rest[j] in multiset(rest);
        if rest[j] != x {
          assert rest[j] in multiset(xs[1..]);
          assert rest[j] in xs[1..];
          var k :| 0 <= k < |xs[1..]| && xs[1..][k] == rest[j];
          assert le(xs[0], xs[k + 1]);
        }
      }
    }
  }

  lemma {:induction false} SortSorted<T(!new)>(xs: seq<T>, le: (T, T) -> bool)
    requires TotalPreorder(le)
    ensures SortedBy(Sort(xs, le), le)
  {
    if xs != [] {
      SortSorted(xs[1..], le);
      InsertSorted(xs[0], Sort(xs[1..], le), le);
    }
  }

  lemma MultisetTail<T>(xs: seq<T>)
    requires xs != []
    ensures multiset(xs[1..]) == multiset(xs) - multiset{xs[0]}
  {
    assert xs == [xs[0]] + xs[1..];
  }

  lemma SortedTail<T>(xs: seq<T>, le: (T, T) -> bool)
    requires SortedBy(xs, le) && xs != []
    ensures SortedBy(xs[1..], le)
  {
  }

  lemma SameLeast<T(!new)>(xs: seq<T>, ys: seq<T>, le: (T, T) -> bool)
    requires TotalPreorder(le) && SortedBy(ys, le) && xs != [] && ys != []
    requires xs[0] in multiset(ys)
    ensures le(ys[0], xs[0])
  {
    assert xs[0] in ys;
    var i :| 0 <= i < |ys| && ys[i] == xs[0];
    if i > 0 { assert le(ys[0], ys[i]); } else { assert le(ys[0], ys[0]); }
  }

  /** No two different elements tie. */
  ghost predicate TieFree<T(!new)>(xs: seq<T>, le: (T, T) -> bool) {
    forall x, y | x in xs && y in xs && le(x, y) && le(y, x) :: x == y
  }

  lemma FirstIsShared<T(!new)>(xs: seq<T>, ys: seq<T>, le: (T, T) -> bool)
    requires TotalPreorder(le) && TieFree(xs, le) && xs != [] && ys != []
    requires SortedBy(xs, le) && SortedBy(ys, le) && multiset(xs) == multiset(ys)
    ensures xs[0] == ys[0]
  {
    assert xs[0] in multiset(ys) && ys[0] in multiset(xs);
    SameLeast(xs, ys, le);
    SameLeast(ys, xs, le);
    assert xs[0] in xs && ys[0] in xs;
  }

  lemma TieFreeTail<T(!new)>(xs: seq<T>, le: (T, T) -> bool)
    requires TieFree(xs, le) && xs != []
    ensures TieFree(xs[1..], le)
  {
    assert forall x | x in xs[1..] :: x in xs;
  }

  /** Without ties the sorted arrangement depends on the elements alone. */
  lemma {:induction false} SortedUnique<T(!new)>(xs: seq<T>, ys: seq<T>, le: (T, T) -> bool)
    requires TotalPreorder(le) && TieFree(xs, le)
    requires SortedBy(xs, le) && SortedBy(ys, le) && multiset(xs) == multiset(ys)
    ensures xs == ys
  {
    hide TotalPreorder, TieFree, SortedBy;
    assert |xs| == |multiset(xs)| == |multiset(ys)| == |ys|;
    if xs != [] {
      FirstIsShared(xs, ys, le);
      TieFreeTail(xs, le);
      MultisetTail(xs);
      MultisetTail(ys);
      SortedTail(xs, le);
      SortedTail(ys, le);
      SortedUnique(xs[1..], ys[1..], le);
      assert xs == [xs[0]] + xs[1..] && ys == [ys[0]] + ys[1..];
    }
  }

  /** Sorting forgets the order of its input when no two different elements tie. */
  lemma SortPermutation<T(!new)>(xs: seq<T>, ys: seq<T>, le: (T, T) -> bool)
    requires TotalPreorder(le) && TieFree(xs, le) && multiset(xs) == multiset(ys)
    ensures Sort(xs, le) == Sort(ys, le)
  {
    SortSorted(xs, le);
    SortSorted(ys, le);
    forall x | x in Sort(xs, le) ensures x in xs {
      assert x in multiset(Sort(xs, le));
      assert x in multiset(xs);
    }
    SortedUnique(Sort(xs, le), Sort(ys, le), le);
  }

  // ---- The order of words, given that of their letters ----

  predicate WordAtMost<T(==)>(s: seq<T>, t: seq<T>, before: (T, T) -> bool) {
    s == [] || (t != [] && (before(s[0], t[0]) || (s[0] == t[0] && WordAtMost(s[1..], t[1..], before))))
  }

  ghost predicate Alphabet<T(!new)>(before: (T, T) -> bool) {
    StrictOrder(before) && forall x, y :: before(x, y) || before(y, x) || x == y
  }

  lemma {:induction false} WordsAreTotal<T(!new)>(s: seq<T>, t: seq<T>, before: (T, T) -> bool)
    requires Alphabet(before)
    ensures WordAtMost(s, t, before) || WordAtMost(t, s, before)
  {
    if s != [] && t != [] {
      var x, y := s[0], t[0];
      assert before(x, y) || before(y, x) || x == y;
      if x == y { WordsAreTotal(s[1..], t[1..], before); }
    }
  }

  lemma {:induction false} WordsAreTransitive<T(!new)>(s: seq<T>, t: seq<T>, u: seq<T>, before: (T, T) -> bool)
    requires Alphabet(before) && WordAtMost(s, t, before) && WordAtMost(t, u, before)
    ensures WordAtMost(s, u, before)
  {
    if s != [] && t != [] && u != [] {
      var x, y, z := s[0], t[0], u[0];
      assert before(x, y) && before(y, z) ==> before(x, z);
      if x == y == z { WordsAreTransitive(s[1..], t[1..], u[1..], before); }
    }
  }

  /** The first letter in which they differ decides, and a word comes after its beginnings. */
  ghost predicate WordBefore<T>(s: seq<T>, t: seq<T>, before: (T, T) -> bool) {
    exists k :: 0 <= k < |t| && k <= |s| && s[..k] == t[..k] && (k == |s| || before(s[k], t[k]))
  }

  lemma {:induction false} FirstDifferenceDecides<T>(s: seq<T>, t: seq<T>, before: (T, T) -> bool)
    requires WordAtMost(s, t, before) && s != t
    ensures WordBefore(s, t, before)
  {
    if s == [] || before(s[0], t[0]) {
      assert s[..0] == t[..0];
    } else {
      assert s == [s[0]] + s[1..] && t == [t[0]] + t[1..];
      FirstDifferenceDecides(s[1..], t[1..], before);
      var k :| 0 <= k < |t[1..]| && k <= |s[1..]| && s[1..][..k] == t[1..][..k]
               && (k == |s[1..]| || before(s[1..][k], t[1..][k]));
      assert s[..k + 1] == [s[0]] + s[1..][..k] && t[..k + 1] == [t[0]] + t[1..][..k];
      assert 0 <= k + 1 < |t|;
    }
  }

  // ---- Strict orders: arrangements without ties ----

  ghost predicate StrictOrder<T(!new)>(lt: (T, T) -> bool) {
    && (forall x :: !lt(x, x))
    && (forall x, y, z :: lt(x, y) && lt(y, z) ==> lt(x, z))
  }

  ghost predicate StrictlySortedBy<T>(xs: seq<T>, lt: (T, T) -> bool) {
    forall i, j | 0 <= i < j < |xs| :: lt(xs[i], xs[j])
  }

  lemma StrictTail<T(!new)>(xs: seq<T>, ys: seq<T>, lt: (T, T) -> bool)
    requires StrictOrder(lt) && StrictlySortedBy(xs, lt) && StrictlySortedBy(ys, lt)
    requires xs != [] && ys != [] && xs[0] == ys[0]
    requires forall x | x in xs :: x in ys
    ensures forall x | x in xs[1..] :: x in ys[1..]
  {
    forall x | x in xs[1..] ensures x in ys[1..] {
      var i :| 0 <= i < |xs[1..]| && xs[1..][i] == x;
      assert xs[i + 1] == x && lt(xs[0], xs[i + 1]);
      assert x in ys;
      var k :| 0 <= k < |ys| && ys[k] == x;
      assert k != 0;
      assert ys[1..][k - 1] == x;
    }
  }

  lemma FirstIsMember<T>(xs: seq<T>)
    ensures xs == [] || exists x :: x in xs
  {
    if xs != [] { assert xs[0] in xs; }
  }

  lemma NothingIn<T>(xs: seq<T>)
    requires forall x :: x !in xs
    ensures xs == []
  {
    FirstIsMember(xs);
  }

  /** A strictly sorted arrangement is determined by its members. */
  lemma {:induction false} StrictlySortedUnique<T(!new)>(xs: seq<T>, ys: seq<T>, lt: (T, T) -> bool)
    requires StrictOrder(lt) && StrictlySortedBy(xs, lt) && StrictlySortedBy(ys, lt)
    requires forall x | x in xs :: x in ys
    requires forall y | y in ys :: y in xs
    ensures xs == ys
  {
    if xs == [] {
      FirstIsMember(ys);
    } else {
      assert xs[0] in ys && ys[0] in xs by { assert xs[0] in xs; assert ys[0] in ys; }
      StrictHead(xs, ys, lt);
      StrictTail(xs, ys, lt);
      StrictTail(ys, xs, lt);
      StrictlySortedUnique(xs[1..], ys[1..], lt);
      assert xs == [xs[0]] + xs[1..] && ys == [ys[0]] + ys[1..];
    }
  }

  lemma StrictHead<T(!new)>(xs: seq<T>, ys: seq<T>, lt: (T, T) -> bool)
    requires StrictOrder(lt) && StrictlySortedBy(xs, lt) && StrictlySortedBy(ys, lt)
    requires xs != [] && ys != [] && xs[0] in ys && ys[0] in xs
    ensures xs[0] == ys[0]
  {
    var x, y := xs[0], ys[0];
    var i :| 0 <= i < |ys| && ys[i] == x;
    var j :| 0 <= j < |xs| && xs[j] == y;
    assert i == 0 || lt(y, x);
    assert j == 0 || lt(x, y);
  }

  /** Each element paired with its position: the enumeration that is sorted by value. */
  function Enumerate<T>(xs: seq<T>): (r: seq<(nat, T)>)
    ensures |r| == |xs|
    ensures forall i | 0 <= i < |xs| :: r[i] == (i, xs[i])
  {
    seq(|xs|, i requires 0 <= i < |xs| => (i, xs[i]))
  }

  /** A permutation of an enumeration visits every position exactly once. */
  lemma EnumerationVisitsOnce<T>(xs: seq<T>, ys: seq<(nat, T)>)
    requires multiset(ys) == multiset(Enumerate(xs))
    ensures |ys| == |xs|
    ensures forall k | 0 <= k < |ys| :: ys[k].0 < |xs| && ys[k].1 == xs[ys[k].0]
    ensures forall k, l | 0 <= k < l < |ys| :: ys[k].0 != ys[l].0
    ensures forall i | 0 <= i < |xs| :: exists k :: 0 <= k < |ys| && ys[k] == (i, xs[i])
  {
    var es := Enumerate(xs);
    assert |ys| == |multiset(ys)| == |multiset(es)| == |es|;
    forall k | 0 <= k < |ys| ensures ys[k].0 < |xs| && ys[k].1 == xs[ys[k].0] {
      assert ys[k] in multiset(ys);
      assert ys[k] in es;
    }
    forall i | 0 <= i < |xs| ensures exists k :: 0 <= k < |ys| && ys[k] == (i, xs[i]) {
      assert es[i] in multiset(es);
      assert es[i] in multiset(ys);
      assert (i, xs[i]) in ys;
    }
    forall k, l | 0 <= k < l < |ys| ensures ys[k].0 != ys[l].0 {
      if ys[k].0 == ys[l].0 {
        var e := ys[k];
        assert ys[l] == e;
        Twice(ys, k, l);
        OnceIn(xs, e);
        assert false;
      }
    }
  }

  lemma Twice<T>(ys: seq<T>, k: nat, l: nat)
    requires k < l < |ys| && ys[k] == ys[l]
    ensures multiset(ys)[ys[k]] >= 2
  {
    assert ys == ys[..k] + [ys[k]] + ys[k + 1..l] + [ys[l]] + ys[l + 1..];
  }

  lemma OnceIn<T>(xs: seq<T>, e: (nat, T))
    requires e in Enumerate(xs)
    ensures multiset(Enumerate(xs))[e] == 1
  {
    var es := Enumerate(xs);
    var i := e.0;
    assert es == es[..i] + [es[i]] + es[i + 1..];
    assert e !in es[..i] && e !in es[i + 1..];
  }
}
