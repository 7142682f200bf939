/** The paths through a hierarchy, from roots to leaves (`_hierarchy_dimension_paths`). */
module HierarchyPaths {
  import opened Sets
  import opened Wrappers
  import opened Totals
  import opened Sorting
  import opened References
  import opened Hierarchy

  type Path = seq<string>

  /** All profiles are of one hierarchy; the caller has selected them by it. */
  ghost predicate OneHierarchy(h: Profiles) {
    forall d, e | d in h && e in h :: h[d].hierarchyId == h[e].hierarchyId
  }

  predicate CharBefore(c: char, d: char) { c < d }

  /** The order of `sorted` on names. */
  predicate AtMost(s: string, t: string) { WordAtMost(s, t, CharBefore) }

  predicate IsRoot(h: Profiles, d: string)
    requires d in h
  {
    h[d].parent == "" || h[d].parent !in h
  }

  function ChildOf(h: Profiles, parent: string): string -> bool {
    d => d in h && !IsRoot(h, d) && h[d].parent == parent
  }

  function RootOf(h: Profiles): string -> bool { d => d in h && IsRoot(h, d) }

  /** The dimensions in the order in which they were first seen. */
  ghost predicate Lists(h: Profiles, order: seq<string>) {
    Named(h) && OneHierarchy(h) && Distinct(order) && SetOf(order) == h.Keys
  }

  function Listed(children: map<string, seq<string>>, d: string): seq<string> {
    if d in children then children[d] else []
  }

  ghost predicate IsIndex(h: Profiles, order: seq<string>, children: map<string, seq<string>>) {
    Lists(h, order) && forall p :: Listed(children, p) == Filter(order, ChildOf(h, p))
  }

  function Descendants(children: map<string, seq<string>>, d: string): seq<string> {
    Sort(Listed(children, d), AtMost)
  }

  lemma MembersOfSorted(xs: seq<string>)
    ensures forall x :: x in Sort(xs, AtMost) <==> x in xs
    ensures Distinct(xs) ==> Distinct(Sort(xs, AtMost))
  {
    var ys := Sort(xs, AtMost);
    SameSetOf(ys, xs);
    forall x ensures x in ys <==> x in xs { assert x in SetOf(ys) <==> x in SetOf(xs); }
  }

  /** The dimensions one level below are those whose parent this is, each once. */
  lemma DescendantsAreChildren(h: Profiles, order: seq<string>, children: map<string, seq<string>>, d: string)
    requires IsIndex(h, order, children)
    ensures forall c :: c in Descendants(children, d) <==> c in h && Above(h, h[c]) == Some(d)
    ensures Distinct(Descendants(children, d))
  {
    var listed := Filter(order, ChildOf(h, d));
    FilterDistinct(order, ChildOf(h, d));
    assert Listed(children, d) == listed;
    MembersOfSorted(listed);
    forall c ensures c in listed <==> c in h && Above(h, h[c]) == Some(d) {
      assert c in order <==> c in SetOf(order);
      if c in h && h[c].parent in h { assert h[c].hierarchyId == h[h[c].parent].hierarchyId; }
    }
  }

  lemma RootsHaveNothingAbove(h: Profiles, d: string)
    requires OneHierarchy(h) && d in h
    ensures IsRoot(h, d) <==> Above(h, h[d]).None?
  {
    if h[d].parent in h { assert h[d].hierarchyId == h[h[d].parent].hierarchyId; }
  }

  // ---- The visit ----

  /** `visit`: the paths it appends. */
  function Visit(h: Profiles, order: seq<string>, children: map<string, seq<string>>, d: string, path: Path): seq<Path>
    requires IsIndex(h, order, children) && d in h
    decreases |h.Keys - SetOf(path)|, 0, 0
  {
    if d in path then [path + [d]]
    else
      var descendants := Descendants(children, d);
      if descendants == [] then [path + [d]]
      else
        DescendantsAreChildren(h, order, children, d);
        SetOfSnoc(path, d);
        StrictSubsetIsSmaller(h.Keys - SetOf(path + [d]), h.Keys - SetOf(path), d);
        VisitAll(h, order, children, descendants, path + [d])
  }

  function VisitAll(h: Profiles, order: seq<string>, children: map<string, seq<string>>, ds: seq<string>,
                    path: Path): seq<Path>
    requires IsIndex(h, order, children) && forall d | d in ds :: d in h
    decreases |h.Keys - SetOf(path)|, 1, |ds|
  {
    if ds == [] then []
    else Visit(h, order, children, ds[0], path) + VisitAll(h, order, children, ds[1..], path)
  }

  lemma {:induction false} VisitAllCollects(h: Profiles, order: seq<string>, children: map<string, seq<string>>,
                                            ds: seq<string>, path: Path, q: Path)
    requires IsIndex(h, order, children) && forall d | d in ds :: d in h
    ensures q in VisitAll(h, order, children, ds, path)
            <==> exists d :: d in ds && q in Visit(h, order, children, d, path)
  {
    hide IsIndex;
    if ds != [] {
      VisitAllCollects(h, order, children, ds[1..], path, q);
      assert forall d :: d in ds <==> d == ds[0] || d in ds[1..];
      if d :| d in ds && q in Visit(h, order, children, d, path) {
        if d != ds[0] { assert d in ds[1..] && q in Visit(h, order, children, d, path); }
      }
      if d :| d in ds[1..] && q in Visit(h, order, children, d, path) {
        assert d in ds;
      } else if q in Visit(h, order, children, ds[0], path) {
        assert ds[0] in ds;
      }
    }
  }

  // ---- What holds of every path ----

  predicate EdgePath(h: Profiles, q: Path) {
    && (forall i | 0 <= i < |q| :: q[i] in h)
    && (forall i | 0 < i < |q| :: Above(h, h[q[i]]) == Some(q[i - 1]))
  }

  ghost predicate IsLeaf(h: Profiles, d: string) {
    forall c | c in h :: Above(h, h[c]) != Some(d)
  }

  /** Every step of the path leads from a parent to its child; no dimension comes twice, unless the
    * last one closes a circle, and otherwise the path goes on until there is nothing below. */
  ghost predicate IsPath(h: Profiles, q: Path) {
    && q != [] && EdgePath(h, q)
    && Distinct(q[..|q| - 1])
    && (q[|q| - 1] in q[..|q| - 1] || IsLeaf(h, q[|q| - 1]))
  }

  lemma {:induction false} VisitMakesPaths(h: Profiles, order: seq<string>, children: map<string, seq<string>>,
                                           d: string, path: Path)
    requires IsIndex(h, order, children) && d in h
    requires EdgePath(h, path + [d]) && Distinct(path)
    ensures Visit(h, order, children, d, path) != []
    ensures forall q | q in Visit(h, order, children, d, path) :: IsPath(h, q) && path + [d] <= q
    decreases |h.Keys - SetOf(path)|
  {
    hide IsIndex, EdgePath, IsLeaf, Distinct;
    DescendantsAreChildren(h, order, children, d);
    var descendants := Descendants(children, d);
    if d in path || descendants == [] {
      PathEndsHere(h, order, children, d, path);
    } else {
      SetOfSnoc(path, d);
      StrictSubsetIsSmaller(h.Keys - SetOf(path + [d]), h.Keys - SetOf(path), d);
      DistinctSnoc(path, d);
      assert descendants[0] in descendants;
      forall c | c in descendants
        ensures Visit(h, order, children, c, path + [d]) != []
        ensures forall q | q in Visit(h, order, children, c, path + [d]) :: IsPath(h, q) && path + [d] <= q
      {
        EdgePathSnoc(h, path + [d], c);
        VisitMakesPaths(h, order, children, c, path + [d]);
        assert path + [d] <= path + [d] + [c];
      }
      forall q | q in VisitAll(h, order, children, descendants, path + [d]) ensures IsPath(h, q) && path + [d] <= q {
        VisitAllCollects(h, order, children, descendants, path + [d], q);
      }
      var some := Visit(h, order, children, descendants[0], path + [d])[0];
      VisitAllCollects(h, order, children, descendants, path + [d], some);
    }
  }

  lemma EdgePathSnoc(h: Profiles, path: Path, c: string)
    requires path != [] && EdgePath(h, path) && c in h && Above(h, h[c]) == Some(path[|path| - 1])
    ensures EdgePath(h, path + [c])
  {
  }

  lemma PathEndsHere(h: Profiles, order: seq<string>, children: map<string, seq<string>>, d: string, path: Path)
    requires IsIndex(h, order, children) && d in h && EdgePath(h, path + [d]) && Distinct(path)
    requires d in path || Descendants(children, d) == []
    ensures Visit(h, order, children, d, path) == [path + [d]] && IsPath(h, path + [d])
  {
    DescendantsAreChildren(h, order, children, d);
    assert (path + [d])[..|path|] == path;
  }

  /** What is reported below a child is reported below its parent. */
  lemma ReportedAbove(h: Profiles, order: seq<string>, children: map<string, seq<string>>, d: string, c: string,
                      path: Path, q: Path)
    requires IsIndex(h, order, children) && d in h && d !in path && c in Descendants(children, d) && c in h
    requires q in Visit(h, order, children, c, path + [d])
    ensures q in Visit(h, order, children, d, path)
  {
    DescendantsAreChildren(h, order, children, d);
    hide IsIndex, Distinct, Descendants;
    VisitAllCollects(h, order, children, Descendants(children, d), path + [d], q);
  }

  lemma NextOnWalk(h: Profiles, d: string, path: Path, walk: Path)
    requires path + [d] <= walk && |walk| > |path| + 1 && EdgePath(h, walk) && Distinct(walk)
    ensures var c := walk[|path| + 1];
      d !in path && c in h && Above(h, h[c]) == Some(d) && path + [d] + [c] <= walk
  {
    assert walk[|path|] == d;
    assert path + [d] + [walk[|path| + 1]] == walk[..|path| + 2];
    forall i | 0 <= i < |path| ensures path[i] != d { assert walk[i] != walk[|path|]; }
  }

  lemma WalkEndsHere(h: Profiles, order: seq<string>, children: map<string, seq<string>>, d: string, path: Path,
                     walk: Path)
    requires IsIndex(h, order, children) && d in h && walk == path + [d] && EdgePath(h, walk) && Distinct(walk)
    ensures exists q :: q in Visit(h, order, children, d, path) && walk <= q
  {
    DistinctSnoc(path, d);
    hide IsIndex, Distinct, EdgePath;
    VisitMakesPaths(h, order, children, d, path);
    var q := Visit(h, order, children, d, path)[0];
    assert q in Visit(h, order, children, d, path);
  }

  /** Everything reachable is reached: a path that can be walked is the beginning of one that is reported. */
  lemma {:induction false} VisitFollows(h: Profiles, order: seq<string>, children: map<string, seq<string>>, d: string,
                                        path: Path, walk: Path)
    requires IsIndex(h, order, children) && d in h && path + [d] <= walk
    requires EdgePath(h, walk) && Distinct(walk)
    ensures exists q :: q in Visit(h, order, children, d, path) && walk <= q
    decreases |walk| - |path|
  {
    hide IsIndex, Distinct, EdgePath, Visit, Descendants;
    if |walk| == |path| + 1 {
      WalkEndsHere(h, order, children, d, path, walk);
    } else {
      var c := walk[|path| + 1];
      NextOnWalk(h, d, path, walk);
      DescendantsAreChildren(h, order, children, d);
      VisitFollows(h, order, children, c, path + [d], walk);
      var q :| q in Visit(h, order, children, c, path + [d]) && walk <= q;
      ReportedAbove(h, order, children, d, c, path, q);
    }
  }

  lemma EndOfPath(h: Profiles, order: seq<string>, children: map<string, seq<string>>, d: string, path: Path)
    requires IsIndex(h, order, children) && d in h && IsPath(h, path + [d])
    ensures Visit(h, order, children, d, path) == [path + [d]]
  {
    var q := path + [d];
    assert q[..|q| - 1] == path && q[|q| - 1] == d;
    DescendantsAreChildren(h, order, children, d);
    if d !in path { FirstIsMember(Descendants(children, d)); }
    hide IsLeaf, EdgePath;
    PathEndsHere(h, order, children, d, path);
  }

  lemma InsidePath(h: Profiles, d: string, path: Path, q: Path)
    requires path + [d] <= q && |q| > |path| + 1 && IsPath(h, q)
    ensures var c := q[|path| + 1];
      d !in path && c in h && Above(h, h[c]) == Some(d) && path + [d] + [c] <= q
  {
    assert q[|path|] == d;
    assert path + [d] + [q[|path| + 1]] == q[..|path| + 2];
    var walk := q[..|q| - 1];
    forall i | 0 <= i < |path| ensures path[i] != d { assert walk[i] != walk[|path|]; }
  }

  /** No path is left out: whatever goes on from here as a path should is reported. */
  lemma {:induction false} VisitReports(h: Profiles, order: seq<string>, children: map<string, seq<string>>, d: string,
                                        path: Path, q: Path)
    requires IsIndex(h, order, children) && d in h && path + [d] <= q && IsPath(h, q)
    ensures q in Visit(h, order, children, d, path)
    decreases |q| - |path|
  {
    hide IsIndex, IsPath, Visit, Descendants;
    if |q| == |path| + 1 {
      assert q == path + [d];
      EndOfPath(h, order, children, d, path);
    } else {
      var c := q[|path| + 1];
      InsidePath(h, d, path, q);
      DescendantsAreChildren(h, order, children, d);
      VisitReports(h, order, children, c, path + [d], q);
      ReportedAbove(h, order, children, d, c, path, q);
    }
  }

  /** No path is reported twice by one visit. */
  lemma {:induction false} VisitRepeatsNothing(h: Profiles, order: seq<string>, children: map<string, seq<string>>,
                                               d: string, path: Path)
    requires IsIndex(h, order, children) && d in h
    requires EdgePath(h, path + [d]) && Distinct(path)
    ensures Distinct(Visit(h, order, children, d, path))
    decreases |h.Keys - SetOf(path)|, 0, 0
  {
    hide IsIndex, EdgePath;
    if d in path || Descendants(children, d) == [] {
      PathEndsHere(h, order, children, d, path);
    } else {
      DescendantsAreChildren(h, order, children, d);
      SetOfSnoc(path, d);
      StrictSubsetIsSmaller(h.Keys - SetOf(path + [d]), h.Keys - SetOf(path), d);
      DistinctSnoc(path, d);
      VisitAllRepeatsNothing(h, order, children, Descendants(children, d), path + [d]);
    }
  }

  lemma {:induction false} VisitAllRepeatsNothing(h: Profiles, order: seq<string>, children: map<string, seq<string>>,
                                                  ds: seq<string>, path: Path)
    requires IsIndex(h, order, children) && Distinct(ds) && Distinct(path) && EdgePath(h, path)
    requires forall d | d in ds :: d in h && (path != [] ==> Above(h, h[d]) == Some(path[|path| - 1]))
    ensures Distinct(VisitAll(h, order, children, ds, path))
    decreases |h.Keys - SetOf(path)|, 1, |ds|
  {
    hide IsIndex, IsPath;
    if ds != [] {
      DistinctAppend([ds[0]], ds[1..]);
      assert [ds[0]] + ds[1..] == ds;
      StartOfPaths(h, path, ds[0]);
      VisitRepeatsNothing(h, order, children, ds[0], path);
      VisitAllRepeatsNothing(h, order, children, ds[1..], path);
      var first, rest := Visit(h, order, children, ds[0], path), VisitAll(h, order, children, ds[1..], path);
      VisitMakesPaths(h, order, children, ds[0], path);
      forall q | q in rest ensures q !in first {
        VisitAllCollects(h, order, children, ds[1..], path, q);
        var d :| d in ds[1..] && q in Visit(h, order, children, d, path);
        StartOfPaths(h, path, d);
        VisitMakesPaths(h, order, children, d, path);
        StartsWith(path, d, q);
        if q in first { StartsWith(path, ds[0], q); }
      }
      DistinctAppend(first, rest);
    }
  }

  lemma StartOfPaths(h: Profiles, path: Path, d: string)
    requires EdgePath(h, path) && d in h && (path != [] ==> Above(h, h[d]) == Some(path[|path| - 1]))
    ensures EdgePath(h, path + [d])
  {
  }

  // ---- The order of the report ----

  lemma AtMostIsPreorder()
    ensures TotalPreorder(AtMost)
  {
    forall s, t ensures AtMost(s, t) || AtMost(t, s) { WordsAreTotal(s, t, CharBefore); }
    forall s, t, u | AtMost(s, t) && AtMost(t, u) ensures AtMost(s, u) { WordsAreTransitive(s, t, u, CharBefore); }
  }

  /** The first dimension in which the paths differ comes earlier in `q`. */
  ghost predicate PathBefore(q: Path, r: Path) {
    exists k :: 0 <= k < |q| && k < |r| && q[..k] == r[..k] && q[k] != r[k] && AtMost(q[k], r[k])
  }

  ghost predicate InOrder(paths: seq<Path>) {
    forall i, j | 0 <= i < j < |paths| :: PathBefore(paths[i], paths[j])
  }

  lemma InOrderAppend(first: seq<Path>, rest: seq<Path>)
    requires InOrder(first) && InOrder(rest) && forall q, r | q in first && r in rest :: PathBefore(q, r)
    ensures InOrder(first + rest)
  {
    hide PathBefore;
  }

  /** Names that ascend, each once. */
  ghost predicate Ascends(ds: seq<string>) { Distinct(ds) && SortedBy(ds, AtMost) }

  lemma SortedAscends(xs: seq<string>)
    requires Distinct(xs)
    ensures Ascends(Sort(xs, AtMost))
  {
    MembersOfSorted(xs);
    AtMostIsPreorder();
    SortSorted(xs, AtMost);
  }

  lemma DescendantsAscend(h: Profiles, order: seq<string>, children: map<string, seq<string>>, d: string)
    requires IsIndex(h, order, children)
    ensures Ascends(Descendants(children, d))
  {
    FilterDistinct(order, ChildOf(h, d));
    assert Listed(children, d) == Filter(order, ChildOf(h, d));
    SortedAscends(Listed(children, d));
  }

  lemma SplitAt(path: Path, c: string, d: string, q: Path, r: Path)
    requires path + [c] <= q && path + [d] <= r && c != d && AtMost(c, d)
    ensures PathBefore(q, r)
  {
    StartsWith(path, c, q);
    StartsWith(path, d, r);
    assert q[..|path|] == (path + [c])[..|path|] == path;
    assert r[..|path|] == (path + [d])[..|path|] == path;
  }

  lemma {:induction false} VisitInOrder(h: Profiles, order: seq<string>, children: map<string, seq<string>>, d: string,
                                        path: Path)
    requires IsIndex(h, order, children) && d in h
    requires EdgePath(h, path + [d]) && Distinct(path)
    ensures InOrder(Visit(h, order, children, d, path))
    decreases |h.Keys - SetOf(path)|, 0, 0
  {
    hide IsIndex, EdgePath, Ascends, PathBefore;
    if d in path || Descendants(children, d) == [] {
      PathEndsHere(h, order, children, d, path);
    } else {
      DescendantsAreChildren(h, order, children, d);
      DescendantsAscend(h, order, children, d);
      SetOfSnoc(path, d);
      StrictSubsetIsSmaller(h.Keys - SetOf(path + [d]), h.Keys - SetOf(path), d);
      DistinctSnoc(path, d);
      VisitAllInOrder(h, order, children, Descendants(children, d), path + [d]);
    }
  }

  lemma AscendsTail(ds: seq<string>)
    requires Ascends(ds) && ds != []
    ensures Ascends(ds[1..])
    ensures forall d | d in ds[1..] :: d != ds[0] && AtMost(ds[0], d)
  {
    forall i, j | 0 <= i < j < |ds[1..]| ensures ds[1..][i] != ds[1..][j] { assert ds[i + 1] != ds[j + 1]; }
    forall d | d in ds[1..] ensures d != ds[0] && AtMost(ds[0], d) {
      var i :| 0 <= i < |ds[1..]| && ds[1..][i] == d;
      assert ds[i + 1] == d && ds[0] != ds[i + 1];
    }
  }

  lemma {:induction false} VisitAllInOrder(h: Profiles, order: seq<string>, children: map<string, seq<string>>,
                                           ds: seq<string>, path: Path)
    requires IsIndex(h, order, children) && Ascends(ds) && Distinct(path) && EdgePath(h, path)
    requires forall d | d in ds :: d in h && (path != [] ==> Above(h, h[d]) == Some(path[|path| - 1]))
    ensures InOrder(VisitAll(h, order, children, ds, path))
    decreases |h.Keys - SetOf(path)|, 1, |ds|
  {
    hide IsIndex, IsPath, PathBefore, InOrder, Ascends;
    if ds == [] {
      NothingInOrder();
    } else {
      AscendsTail(ds);
      StartOfPaths(h, path, ds[0]);
      VisitInOrder(h, order, children, ds[0], path);
      VisitAllInOrder(h, order, children, ds[1..], path);
      var first, rest := Visit(h, order, children, ds[0], path), VisitAll(h, order, children, ds[1..], path);
      VisitMakesPaths(h, order, children, ds[0], path);
      forall q, r | q in first && r in rest ensures PathBefore(q, r) {
        VisitAllCollects(h, order, children, ds[1..], path, r);
        var d :| d in ds[1..] && r in Visit(h, order, children, d, path);
        StartOfPaths(h, path, d);
        VisitMakesPaths(h, order, children, d, path);
        SplitAt(path, ds[0], d, q, r);
      }
      InOrderAppend(first, rest);
    }
  }

  lemma NothingInOrder()
    ensures InOrder([])
  {
  }

  lemma StartsWith(path: Path, d: string, q: Path)
    requires path + [d] <= q
    ensures |q| > |path| && q[|path|] == d
  {
    assert (path + [d])[|path|] == d;
  }

  // ---- All paths ----

  /** Children and roots among the dimensions seen so far. */
  ghost predicate Indexed(h: Profiles, seen: seq<string>, children: map<string, seq<string>>, roots: seq<string>) {
    roots == Filter(seen, RootOf(h)) && forall p :: Listed(children, p) == Filter(seen, ChildOf(h, p))
  }

  lemma IndexedStep(h: Profiles, seen: seq<string>, children: map<string, seq<string>>, roots: seq<string>, d: string)
    requires d in h && Indexed(h, seen, children, roots)
    ensures IsRoot(h, d) ==> Indexed(h, seen + [d], children, roots + [d])
    ensures !IsRoot(h, d) ==>
              Indexed(h, seen + [d], children[h[d].parent := Listed(children, h[d].parent) + [d]], roots)
  {
    FilterSnoc(seen, d, RootOf(h));
    forall p
      ensures Filter(seen + [d], ChildOf(h, p)) == Filter(seen, ChildOf(h, p)) + if ChildOf(h, p)(d) then [d] else []
    {
      FilterSnoc(seen, d, ChildOf(h, p));
    }
    hide Filter;
    assert forall xs: seq<string> :: xs + [] == xs;
  }

  method IndexChildren(h: Profiles, order: seq<string>) returns (children: map<string, seq<string>>, roots: seq<string>)
    requires Lists(h, order)
    ensures IsIndex(h, order, children) && roots == Filter(order, RootOf(h))
  {
    hide Distinct, Filter;
    children, roots := map[], [];
    assert Indexed(h, [], children, roots) by { NothingIndexed(h); }
    for i := 0 to |order|
      invariant Indexed(h, order[..i], children, roots)
    {
      var d := order[i];
      assert d in SetOf(order);
      assert order[..i + 1] == order[..i] + [d];
      IndexedStep(h, order[..i], children, roots, d);
      var parent := h[d].parent;
      if parent != "" && parent in h {
        children := children[parent := Listed(children, parent) + [d]];
      } else {
        roots := roots + [d];
      }
    }
    assert order[..|order|] == order;
  }

  lemma NothingIndexed(h: Profiles)
    ensures Indexed(h, [], map[], [])
  {
  }

  method VisitEach(h: Profiles, order: seq<string>, children: map<string, seq<string>>, starts: seq<string>)
    returns (paths: seq<Path>)
    requires IsIndex(h, order, children) && forall d | d in starts :: d in h
    ensures paths == VisitAll(h, order, children, starts, [])
  {
    hide IsIndex;
    paths := [];
    for i := 0 to |starts|
      invariant paths == VisitAll(h, order, children, starts[..i], [])
    {
      assert starts[..i + 1] == starts[..i] + [starts[i]];
      VisitAllSnoc(h, order, children, starts[..i], starts[i], []);
      paths := paths + Visit(h, order, children, starts[i], []);
    }
    assert starts[..|starts|] == starts;
  }

  lemma {:induction false} VisitAllSnoc(h: Profiles, order: seq<string>, children: map<string, seq<string>>,
                                        ds: seq<string>, d: string, path: Path)
    requires IsIndex(h, order, children) && d in h && forall e | e in ds :: e in h
    ensures VisitAll(h, order, children, ds + [d], path)
         == VisitAll(h, order, children, ds, path) + Visit(h, order, children, d, path)
  {
    hide IsIndex;
    if ds != [] {
      assert (ds + [d])[1..] == ds[1..] + [d];
      VisitAllSnoc(h, order, children, ds[1..], d, path);
    }
  }

  predicate Covers(paths: seq<Path>, d: string) { exists q :: q in paths && d in q }

  lemma StartsMakePaths(h: Profiles, order: seq<string>, children: map<string, seq<string>>, starts: seq<string>)
    requires IsIndex(h, order, children) && forall d | d in starts :: d in h
    ensures forall q | q in VisitAll(h, order, children, starts, []) :: IsPath(h, q) && |q| > 0 && q[0] in starts
    ensures forall d | d in starts :: Covers(VisitAll(h, order, children, starts, []), d)
  {
    hide IsIndex, IsPath;
    forall q | q in VisitAll(h, order, children, starts, []) ensures IsPath(h, q) && |q| > 0 && q[0] in starts {
      VisitAllCollects(h, order, children, starts, [], q);
      var d :| d in starts && q in Visit(h, order, children, d, []);
      StartMakesPaths(h, order, children, d);
    }
    forall d | d in starts ensures Covers(VisitAll(h, order, children, starts, []), d) {
      StartMakesPaths(h, order, children, d);
      var q := Visit(h, order, children, d, [])[0];
      VisitAllCollects(h, order, children, starts, [], q);
      assert q[0] == d;
    }
  }

  lemma StartMakesPaths(h: Profiles, order: seq<string>, children: map<string, seq<string>>, d: string)
    requires IsIndex(h, order, children) && d in h
    ensures Visit(h, order, children, d, []) != []
    ensures forall q | q in Visit(h, order, children, d, []) :: IsPath(h, q) && |q| > 0 && q[0] == d
  {
    hide IsIndex, IsPath, Visit;
    assert [] + [d] == [d];
    VisitMakesPaths(h, order, children, d, []);
    assert forall q: Path | [d] <= q :: q[0] == d;
  }

  /** Visits from these dimensions report exactly the paths that start at one of them. */
  lemma StartsReportTheirPaths(h: Profiles, order: seq<string>, children: map<string, seq<string>>,
                               starts: seq<string>, q: Path)
    requires IsIndex(h, order, children) && forall d | d in starts :: d in h
    ensures q in VisitAll(h, order, children, starts, []) <==> IsPath(h, q) && q[0] in starts
  {
    hide IsIndex, Visit;
    StartsMakePaths(h, order, children, starts);
    if IsPath(h, q) && q[0] in starts {
      hide IsPath;
      assert [] + [q[0]] <= q;
      VisitReports(h, order, children, q[0], [], q);
      VisitAllCollects(h, order, children, starts, [], q);
    }
  }

  ghost predicate IsRootToLeaf(h: Profiles, q: Path) {
    && q != [] && EdgePath(h, q)
    && Above(h, h[q[0]]).None?
    && IsLeaf(h, q[|q| - 1])
  }

  /** Going up a path is going up the chain of parents of its last dimension. */
  lemma {:induction false} PathIsChain(h: Profiles, q: Path, i: nat)
    requires EdgePath(h, q) && i < |q|
    ensures Nth(h, q[|q| - 1], |q| - 1 - i) == Some(q[i])
    decreases |q| - i
  {
    if i < |q| - 1 {
      PathIsChain(h, q, i + 1);
      assert Above(h, h[q[i + 1]]) == Some(q[i]);
    } else {
      assert Nth(h, q[|q| - 1], 0) == Some(q[|q| - 1]);
    }
  }

  /** Above each dimension of a path from a root the chain stops at that root. */
  lemma RootedPathEnds(h: Profiles, q: Path, j: nat)
    requires EdgePath(h, q) && j < |q| && Above(h, h[q[0]]).None?
    ensures EndsAfter(h, q[j], j)
  {
    PathIsChain(h, q[..j + 1], 0);
  }

  lemma RootedPathsRepeatNothing(h: Profiles, q: Path)
    requires q != [] && EdgePath(h, q) && Above(h, h[q[0]]).None?
    ensures Distinct(q)
  {
    hide Nth, EndsAfter;
    forall i, j | 0 <= i < j < |q| ensures q[i] != q[j] {
      PathIsChain(h, q[..j + 1], i);
      RootedPathEnds(h, q, j);
      NeverComesBack(h, q[j], j, j - i);
    }
  }

  /** The path from the root down to `d`. */
  lemma {:induction false} ChainAsPath(h: Profiles, d: string, k: nat) returns (q: Path)
    requires d in h && EndsAfter(h, d, k)
    ensures q != [] && EdgePath(h, q) && Above(h, h[q[0]]).None? && q[|q| - 1] == d
    decreases k
  {
    EndsAfterRoot(h, d, k);
    if Above(h, h[d]).None? {
      q := [d];
    } else {
      EndsAfterParent(h, d, k - 1);
      q := ChainAsPath(h, Above(h, h[d]).value, k - 1);
      q := q + [d];
    }
  }

  ghost predicate IsRoots(h: Profiles, starts: seq<string>) {
    Distinct(starts) && forall d :: d in starts <==> d in h && Above(h, h[d]).None?
  }

  // ---- Which dimensions the roots reach ----

  /** The visits from the roots pass exactly the dimensions whose chain of parents stops. */
  lemma RootsCoverWhatEnds(h: Profiles, order: seq<string>, children: map<string, seq<string>>, starts: seq<string>,
                           d: string)
    requires IsIndex(h, order, children) && IsRoots(h, starts) && d in h
    ensures (forall e | e in starts :: e in h)
    ensures Covers(VisitAll(h, order, children, starts, []), d) <==> Ends(h, d)
  {
    RootsAreKnown(h, starts);
    if Ends(h, d) { EndingIsCovered(h, order, children, starts, d); }
    if Covers(VisitAll(h, order, children, starts, []), d) {
      var q :| q in VisitAll(h, order, children, starts, []) && d in q;
      hide IsIndex, EndsAfter;
      StartsReportTheirPaths(h, order, children, starts, q);
      var j :| 0 <= j < |q| && q[j] == d;
      RootedPathEnds(h, q, j);
    }
  }

  lemma EndingIsCovered(h: Profiles, order: seq<string>, children: map<string, seq<string>>, starts: seq<string>,
                        d: string)
    requires IsIndex(h, order, children) && IsRoots(h, starts) && d in h && Ends(h, d)
    requires forall e | e in starts :: e in h
    ensures Covers(VisitAll(h, order, children, starts, []), d)
  {
    hide IsIndex, EndsAfter, Distinct, Visit, VisitAll;
    var k: nat :| EndsAfter(h, d, k);
    var walk := ChainAsPath(h, d, k);
    RootedPathsRepeatNothing(h, walk);
    assert walk[0] in starts by { FirstIsKnown(h, walk); }
    hide EdgePath, IsRoots;
    assert [] + [walk[0]] <= walk;
    VisitFollows(h, order, children, walk[0], [], walk);
    var q :| q in Visit(h, order, children, walk[0], []) && walk <= q;
    VisitAllCollects(h, order, children, starts, [], q);
    assert q[|walk| - 1] == d;
  }

  lemma FirstIsKnown(h: Profiles, q: Path)
    requires q != [] && EdgePath(h, q)
    ensures q[0] in h
  {
  }

  lemma EmptyPath(h: Profiles)
    ensures EdgePath(h, []) && Distinct<string>([])
  {
  }

  lemma SortedRootsAreRoots(h: Profiles, order: seq<string>)
    requires Lists(h, order)
    ensures IsRoots(h, Sort(Filter(order, RootOf(h)), AtMost))
  {
    var roots := Filter(order, RootOf(h));
    FilterDistinct(order, RootOf(h));
    MembersOfSorted(roots);
    forall d ensures d in roots <==> d in h && Above(h, h[d]).None? {
      assert d in order <==> d in SetOf(order);
      if d in h { RootsHaveNothingAbove(h, d); }
    }
  }

  // ---- The report ----

  /** A path that starts at a root, or where the chain of parents never stops. */
  ghost predicate IsReported(h: Profiles, q: Path) {
    IsPath(h, q) && (IsRooted(h, q) || IsEndless(h, q))
  }

  ghost predicate IsRooted(h: Profiles, q: Path) { q != [] && q[0] in h && Above(h, h[q[0]]).None? }

  ghost predicate IsEndless(h: Profiles, q: Path) { q != [] && q[0] in h && !Ends(h, q[0]) }

  lemma RootedOrEndless(h: Profiles, q: Path)
    ensures !(IsRooted(h, q) && IsEndless(h, q))
  {
    if IsRooted(h, q) { EndsAfterRoot(h, q[0], 0); }
  }

  /** The paths from roots come first; before and after, the paths are in the order of their names. */
  ghost predicate RootsFirst(h: Profiles, paths: seq<Path>) {
    exists k: nat :: k <= |paths| && SplitsAt(h, paths, k)
  }

  ghost predicate SplitsAt(h: Profiles, paths: seq<Path>, k: nat)
    requires k <= |paths|
  {
    && InOrder(paths[..k]) && InOrder(paths[k..])
    && (forall q | q in paths[..k] :: IsRooted(h, q))
    && (forall q | q in paths[k..] :: IsEndless(h, q))
  }

  /** The dimensions that no path from a root passes. */
  ghost predicate IsLeft(h: Profiles, left: seq<string>) {
    Distinct(left) && forall d :: d in left <==> d in h && !Ends(h, d)
  }

  lemma LeftAreEndless(h: Profiles, order: seq<string>, children: map<string, seq<string>>, starts: seq<string>,
                       rootPaths: seq<Path>)
    requires IsIndex(h, order, children) && IsRoots(h, starts) && forall d | d in starts :: d in h
    requires rootPaths == VisitAll(h, order, children, starts, [])
    ensures IsLeft(h, Filter(order, d => !Covers(rootPaths, d)))
  {
    var uncovered := d => !Covers(rootPaths, d);
    FilterDistinct(order, uncovered);
    forall d ensures d in Filter(order, uncovered) <==> d in h && !Ends(h, d) {
      assert d in order <==> d in SetOf(order);
      if d in h { RootsCoverWhatEnds(h, order, children, starts, d); }
    }
  }

  /** The visits from names that ascend: no path twice, all in order. */
  lemma VisitsFromNames(h: Profiles, order: seq<string>, children: map<string, seq<string>>, names: seq<string>)
    requires IsIndex(h, order, children) && Distinct(names) && forall d | d in names :: d in h
    ensures forall d | d in Sort(names, AtMost) :: d in h
    ensures var paths := VisitAll(h, order, children, Sort(names, AtMost), []);
      Distinct(paths) && InOrder(paths)
  {
    MembersOfSorted(names);
    hide Ascends, InOrder, EdgePath, IsIndex, Distinct;
    SortedAscends(names);
    EmptyPath(h);
    VisitAllInOrder(h, order, children, Sort(names, AtMost), []);
    VisitAllRepeatsNothing(h, order, children, Sort(names, AtMost), []);
  }

  lemma ReportedByEither(h: Profiles, order: seq<string>, children: map<string, seq<string>>, starts: seq<string>,
                         left: seq<string>, q: Path)
    requires IsIndex(h, order, children) && IsRoots(h, starts) && IsLeft(h, left)
    requires (forall d | d in starts :: d in h) && (forall d | d in left :: d in h)
    ensures q in VisitAll(h, order, children, starts, []) <==> IsPath(h, q) && IsRooted(h, q)
    ensures q in VisitAll(h, order, children, left, []) <==> IsPath(h, q) && IsEndless(h, q)
  {
    StartsReportTheirPaths(h, order, children, starts, q);
    StartsReportTheirPaths(h, order, children, left, q);
    hide IsIndex, EdgePath, Distinct, Ends;
  }

  /** Together the visits from the roots and those from what is left make the report. */
  lemma ReportOfBoth(h: Profiles, order: seq<string>, children: map<string, seq<string>>, starts: seq<string>,
                     left: seq<string>, rootPaths: seq<Path>, leftPaths: seq<Path>)
    requires IsIndex(h, order, children) && IsRoots(h, starts) && IsLeft(h, left)
    requires (forall d | d in starts :: d in h) && (forall d | d in left :: d in h)
    requires rootPaths == VisitAll(h, order, children, starts, [])
    requires leftPaths == VisitAll(h, order, children, left, [])
    requires Distinct(rootPaths) && InOrder(rootPaths) && Distinct(leftPaths) && InOrder(leftPaths)
    ensures var paths := rootPaths + leftPaths;
      Distinct(paths) && RootsFirst(h, paths) && forall q :: q in paths <==> IsReported(h, q)
  {
    hide IsIndex, IsRoots, IsLeft, IsPath, IsRooted, IsEndless, Distinct, InOrder, VisitAll;
    var paths, k := rootPaths + leftPaths, |rootPaths|;
    forall q
      ensures q in rootPaths <==> IsPath(h, q) && IsRooted(h, q)
      ensures q in leftPaths <==> IsPath(h, q) && IsEndless(h, q)
      ensures !(IsRooted(h, q) && IsEndless(h, q))
    {
      ReportedByEither(h, order, children, starts, left, q);
      RootedOrEndless(h, q);
    }
    DistinctAppend(rootPaths, leftPaths);
    assert paths[..k] == rootPaths && paths[k..] == leftPaths;
    assert SplitsAt(h, paths, k);
  }

  /** The paths of a hierarchy, whatever its parents: exactly the paths that start at a root or where the
    * chain of parents never stops, each once, those from roots first, and no dimension is left out. */
  method HierarchyDimensionPaths(h: Profiles, order: seq<string>) returns (paths: seq<Path>)
    requires Lists(h, order)
    ensures Distinct(paths) && RootsFirst(h, paths)
    ensures forall q :: q in paths <==> IsReported(h, q)
    ensures forall d | d in h :: Covers(paths, d)
    ensures Acyclic(h) ==> InOrder(paths) && forall q :: q in paths <==> IsRootToLeaf(h, q)
  {
    hide InOrder, RootsFirst, IsReported, Acyclic, IsRootToLeaf, Distinct, IsRoots, IsIndex, IsLeft, AtMost, Filter,
         Visit, VisitAll, Covers;
    var children, roots := IndexChildren(h, order);
    SortedRootsAreRoots(h, order);
    var starts := Sort(roots, AtMost);
    RootsAreKnown(h, starts);
    RootsOf(h, order, roots);
    var rootPaths := VisitEach(h, order, children, starts);
    LeftAreEndless(h, order, children, starts, rootPaths);
    var uncovered := Filter(order, d => !Covers(rootPaths, d));
    SortedLeft(h, uncovered);
    var leftPaths := VisitEach(h, order, children, Sort(uncovered, AtMost));
    VisitsFromNames(h, order, children, roots);
    VisitsFromNames(h, order, children, uncovered);
    paths := rootPaths + leftPaths;
    ReportOfBoth(h, order, children, starts, Sort(uncovered, AtMost), rootPaths, leftPaths);
    EverythingIsCovered(h, order, children, paths);
    if Acyclic(h) { ReportWithoutCircles(h, paths); }
  }

  lemma RootsOf(h: Profiles, order: seq<string>, roots: seq<string>)
    requires Lists(h, order) && roots == Filter(order, RootOf(h))
    ensures Distinct(roots) && forall d | d in roots :: d in h
  {
    FilterDistinct(order, RootOf(h));
  }

  lemma SortedLeft(h: Profiles, left: seq<string>)
    requires IsLeft(h, left)
    ensures Distinct(left) && (forall d | d in left :: d in h)
    ensures IsLeft(h, Sort(left, AtMost)) && forall d | d in Sort(left, AtMost) :: d in h
  {
    MembersOfSorted(left);
  }

  /** A dimension whose chain stops is below a root; any other starts paths of its own. */
  lemma EverythingIsCovered(h: Profiles, order: seq<string>, children: map<string, seq<string>>, paths: seq<Path>)
    requires IsIndex(h, order, children) && forall q :: q in paths <==> IsReported(h, q)
    ensures forall d | d in h :: Covers(paths, d)
  {
    hide IsIndex, IsReported;
    forall d | d in h ensures Covers(paths, d) {
      var q := ReportedThrough(h, order, children, d, [d]);
    }
  }

  /** Every walk from a dimension that starts paths goes on to a reported path, and so does the way from the
    * root of any other. */
  lemma ReportedThrough(h: Profiles, order: seq<string>, children: map<string, seq<string>>, d: string, walk: Path)
    returns (q: Path)
    requires IsIndex(h, order, children) && d in h && walk != [] && walk[0] == d && EdgePath(h, walk) && Distinct(walk)
    ensures IsReported(h, q) && forall e | e in walk :: e in q
  {
    var whole := walk;
    if Ends(h, d) {
      var k: nat :| EndsAfter(h, d, k);
      whole := FromTheRoot(h, d, k, walk);
    }
    hide IsIndex, EdgePath, Ends, EndsAfter, Distinct;
    assert [] + [whole[0]] <= whole && whole[0] in h by { FirstIsKnown(h, whole); }
    VisitFollows(h, order, children, whole[0], [], whole);
    q :| q in Visit(h, order, children, whole[0], []) && whole <= q;
    StartMakesPaths(h, order, children, whole[0]);
    assert forall e | e in whole :: e in q;
  }

  lemma FromTheRoot(h: Profiles, d: string, k: nat, walk: Path) returns (whole: Path)
    requires d in h && EndsAfter(h, d, k) && walk != [] && walk[0] == d && EdgePath(h, walk)
    ensures whole != [] && EdgePath(h, whole) && Above(h, h[whole[0]]).None? && Distinct(whole)
    ensures forall e | e in walk :: e in whole
  {
    hide EndsAfter;
    var down := ChainAsPath(h, d, k);
    whole := down + walk[1..];
    assert walk == [walk[0]] + walk[1..] && whole == down[..|down| - 1] + walk;
    EdgesMeet(h, down, walk);
    RootedPathsRepeatNothing(h, whole);
  }

  lemma EdgesMeet(h: Profiles, down: Path, walk: Path)
    requires down != [] && walk != [] && EdgePath(h, down) && EdgePath(h, walk) && down[|down| - 1] == walk[0]
    ensures EdgePath(h, down + walk[1..])
  {
    var whole, n := down + walk[1..], |down|;
    forall i | 0 < i < |whole| ensures whole[i] in h && Above(h, h[whole[i]]) == Some(whole[i - 1]) {
      if i >= n { assert whole[i] == walk[i - n + 1] && whole[i - 1] == walk[i - n]; }
    }
  }

  // ---- Without circles ----

  lemma ReportedIsRootToLeaf(h: Profiles, q: Path)
    requires Acyclic(h)
    ensures IsReported(h, q) <==> IsRootToLeaf(h, q)
  {
    hide Ends, IsLeaf;
    if IsRootToLeaf(h, q) {
      RootedPathsRepeatNothing(h, q);
      DistinctPrefix(q, |q| - 1);
    }
    if IsReported(h, q) {
      RootedPathsRepeatNothing(h, q);
      assert q == q[..|q| - 1] + [q[|q| - 1]];
      DistinctSnoc(q[..|q| - 1], q[|q| - 1]);
    }
  }

  lemma NothingIsEndless(h: Profiles, q: Path)
    requires Acyclic(h)
    ensures !IsEndless(h, q)
  {
  }

  /** Without circles there is one path for each way from a root to a leaf, and all are in order. */
  lemma ReportWithoutCircles(h: Profiles, paths: seq<Path>)
    requires Acyclic(h) && RootsFirst(h, paths) && forall q :: q in paths <==> IsReported(h, q)
    ensures InOrder(paths) && forall q :: q in paths <==> IsRootToLeaf(h, q)
  {
    hide InOrder, IsReported, IsRootToLeaf, Ends;
    forall q ensures q in paths <==> IsRootToLeaf(h, q) { ReportedIsRootToLeaf(h, q); }
    var k: nat :| k <= |paths| && SplitsAt(h, paths, k);
    forall q ensures q !in paths[k..] { NothingIsEndless(h, q); }
    FirstIsMember(paths[k..]);
    assert paths[..k] == paths;
  }

  /** The lesser character at the first difference decides, and a name comes after its beginnings. */
  ghost predicate NameBefore(s: string, t: string) {
    exists n :: 0 <= n < |t| && n <= |s| && s[..n] == t[..n] && (n == |s| || s[n] < t[n])
  }

  lemma NamesDecide(s: string, t: string)
    requires AtMost(s, t) && s != t
    ensures NameBefore(s, t)
  {
    FirstDifferenceDecides(s, t, CharBefore);
  }

  /** Paths in order part at the name that comes first in the alphabet of characters. */
  lemma PathsAreAlphabetical(paths: seq<Path>, i: nat, j: nat)
    requires InOrder(paths) && i < j < |paths|
    ensures exists k :: 0 <= k < |paths[i]| && k < |paths[j]| && paths[i][..k] == paths[j][..k]
                        && NameBefore(paths[i][k], paths[j][k])
  {
    hide AtMost;
    var q, r := paths[i], paths[j];
    assert PathBefore(q, r);
    var k :| 0 <= k < |q| && k < |r| && q[..k] == r[..k] && q[k] != r[k] && AtMost(q[k], r[k]);
    NamesDecide(q[k], r[k]);
  }

  lemma RootsAreKnown(h: Profiles, starts: seq<string>)
    requires IsRoots(h, starts)
    ensures forall d | d in starts :: d in h
  {
  }

  /** One path for each leaf: its way up is its own. */
  lemma OnePathPerLeaf(h: Profiles, q: Path, r: Path)
    requires Acyclic(h) && IsRootToLeaf(h, q) && IsRootToLeaf(h, r) && q[|q| - 1] == r[|r| - 1]
    ensures q == r
  {
    hide Nth, EndsAfter, Acyclic, IsLeaf;
    var leaf := q[|q| - 1];
    PathEndsAtRoot(h, q);
    PathEndsAtRoot(h, r);
    EndsOnce(h, leaf, |q| - 1, |r| - 1);
    forall i | 0 <= i < |q| ensures q[i] == r[i] {
      PathIsChain(h, q, i);
      PathIsChain(h, r, i);
    }
  }

  lemma PathEndsAtRoot(h: Profiles, q: Path)
    requires IsRootToLeaf(h, q)
    ensures EndsAfter(h, q[|q| - 1], |q| - 1)
  {
    PathIsChain(h, q, 0);
  }
}
