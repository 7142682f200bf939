/** The paths of a hierarchy told by the parents that its profiles name, and nothing else. */
module HierarchyByParents {
  import opened Wrappers
  import opened References
  import opened Hierarchy
  import opened HierarchyPaths

  /** Nothing is known above the dimension. */
  predicate IsTop(h: Profiles, d: string)
    requires d in h
  {
    h[d].parent == "" || h[d].parent !in h
  }

  lemma TopExactly(h: Profiles, d: string)
    requires Named(h) && OneHierarchy(h) && d in h
    ensures Above(h, h[d]).None? <==> IsTop(h, d)
    ensures Above(h, h[d]).Some? ==> Above(h, h[d]) == Some(h[d].parent)
  {
  }

  /** Dimensions that have their parents among them. */
  ghost predicate IsCircling(h: Profiles, ds: set<string>) {
    ds <= h.Keys && forall d | d in ds :: h[d].parent in ds
  }

  lemma {:induction false} CirclingGoesOn(h: Profiles, ds: set<string>, d: string, k: nat)
    requires Named(h) && OneHierarchy(h) && IsCircling(h, ds) && d in ds && d in h
    ensures Nth(h, d, k).Some? && Nth(h, d, k).value in ds
  {
    hide Above, Named, OneHierarchy, IsCircling;
    if k > 0 {
      CirclingGoesOn(h, ds, d, k - 1);
      var below := Nth(h, d, k - 1).value;
      assert Nth(h, d, k) == Above(h, h[below]);
      CirclingHasParent(h, ds, below);
    }
  }

  lemma CirclingHasParent(h: Profiles, ds: set<string>, d: string)
    requires Named(h) && OneHierarchy(h) && IsCircling(h, ds) && d in ds
    ensures d in h && Above(h, h[d]).Some? && Above(h, h[d]).value in ds
  {
    TopExactly(h, d);
    assert h[d].parent in ds;
  }

  /** The dimensions on the way up. */
  ghost function WayUp(h: Profiles, d: string): set<string>
    requires d in h
  {
    set e | e in h && exists k: nat :: Nth(h, d, k) == Some(e)
  }

  lemma {:induction false} NeverStops(h: Profiles, d: string, k: nat)
    requires d in h && !Ends(h, d)
    ensures Nth(h, d, k).Some?
  {
    if k > 0 {
      NeverStops(h, d, k - 1);
      assert !EndsAfter(h, d, k - 1);
    }
  }

  lemma WayUpCircles(h: Profiles, d: string)
    requires Named(h) && OneHierarchy(h) && d in h && !Ends(h, d)
    ensures d in WayUp(h, d) && IsCircling(h, WayUp(h, d))
  {
    var ds := WayUp(h, d);
    assert Nth(h, d, 0) == Some(d);
    forall e | e in ds ensures h[e].parent in ds {
      var k: nat :| Nth(h, d, k) == Some(e);
      NeverStops(h, d, k + 1);
      TopExactly(h, e);
      assert Nth(h, d, k + 1) == Some(h[e].parent);
    }
  }

  /** The chain of parents never stops exactly for the dimensions among some that have their parents among them. */
  lemma EndlessExactly(h: Profiles, d: string)
    requires Named(h) && OneHierarchy(h) && d in h
    ensures !Ends(h, d) <==> exists ds :: d in ds && IsCircling(h, ds)
  {
    if !Ends(h, d) { WayUpCircles(h, d); }
    if ds :| d in ds && IsCircling(h, ds) {
      forall k: nat ensures !EndsAfter(h, d, k) { CirclingGoesOn(h, ds, d, k + 1); }
    }
  }

  /** Each dimension of the path names the one before it as its parent. */
  ghost predicate NamesParents(h: Profiles, q: Path) {
    && (forall i | 0 <= i < |q| :: q[i] in h)
    && (forall i | 0 < i < |q| :: h[q[i]].parent == q[i - 1])
  }

  ghost predicate HasNothingBelow(h: Profiles, d: string) { forall c | c in h :: h[c].parent != d }

  lemma EdgesExactly(h: Profiles, q: Path)
    requires Named(h) && OneHierarchy(h)
    ensures EdgePath(h, q) <==> NamesParents(h, q)
  {
    forall i | 0 < i < |q| && q[i] in h
      ensures Above(h, h[q[i]]) == Some(q[i - 1]) <==> (q[i - 1] in h && h[q[i]].parent == q[i - 1])
    {
      TopExactly(h, q[i]);
    }
  }

  lemma LeafExactly(h: Profiles, d: string)
    requires Named(h) && OneHierarchy(h) && d in h
    ensures IsLeaf(h, d) <==> HasNothingBelow(h, d)
  {
    forall c | c in h ensures Above(h, h[c]) == Some(d) <==> h[c].parent == d { TopExactly(h, c); }
  }

  /** No dimension comes twice, unless the last one closes a circle; otherwise there is nothing below it. */
  ghost predicate GoesAsFarAsItCan(h: Profiles, q: Path)
    requires q != []
  {
    && (forall i, j | 0 <= i < j < |q| - 1 :: q[i] != q[j])
    && ((exists i :: 0 <= i < |q| - 1 && q[i] == q[|q| - 1]) || HasNothingBelow(h, q[|q| - 1]))
  }

  lemma FarExactly(h: Profiles, q: Path)
    requires Named(h) && OneHierarchy(h) && q != [] && q[|q| - 1] in h
    ensures GoesAsFarAsItCan(h, q)
       <==> Distinct(q[..|q| - 1]) && (q[|q| - 1] in q[..|q| - 1] || IsLeaf(h, q[|q| - 1]))
  {
    LeafExactly(h, q[|q| - 1]);
    hide IsLeaf, HasNothingBelow, Named, OneHierarchy;
    var front := q[..|q| - 1];
    assert forall i | 0 <= i < |front| :: front[i] == q[i];
  }

  /** The dimension has nothing known above it, or lies on or below a circle. */
  ghost predicate CanStart(h: Profiles, d: string)
    requires d in h
  {
    IsTop(h, d) || exists ds :: d in ds && IsCircling(h, ds)
  }

  lemma PathExactly(h: Profiles, q: Path)
    requires Named(h) && OneHierarchy(h)
    ensures IsPath(h, q) <==> q != [] && NamesParents(h, q) && GoesAsFarAsItCan(h, q)
  {
    EdgesExactly(h, q);
    if q != [] && NamesParents(h, q) { FarExactly(h, q); }
    hide EdgePath, IsLeaf, GoesAsFarAsItCan, Named, OneHierarchy;
  }

  lemma StartExactly(h: Profiles, q: Path)
    requires Named(h) && OneHierarchy(h) && q != [] && q[0] in h
    ensures IsRooted(h, q) || IsEndless(h, q) <==> CanStart(h, q[0])
  {
    TopExactly(h, q[0]);
    EndlessExactly(h, q[0]);
    hide Ends, IsCircling, IsTop, Named, OneHierarchy, Above;
  }

  /** A path is reported exactly when each of its dimensions names the one before it, it goes as far as it can
    * without coming twice to one, and it starts where nothing is known above, or on or below a circle. */
  lemma ReportedExactly(h: Profiles, q: Path)
    requires Named(h) && OneHierarchy(h)
    ensures IsReported(h, q)
       <==> q != [] && NamesParents(h, q) && GoesAsFarAsItCan(h, q) && CanStart(h, q[0])
  {
    hide IsPath, IsRooted, IsEndless, GoesAsFarAsItCan, CanStart, Named, OneHierarchy;
    PathExactly(h, q);
    if q != [] && NamesParents(h, q) { StartExactly(h, q); }
  }
}
