/** Which dimensions are read together with the selected one: those above and below it
  * (`_related_hierarchy_readout_profiles`). */
module RelatedReadouts {
  import opened Sets
  import opened Wrappers
  import opened References
  import opened Hierarchy
  import opened HierarchyPaths

  // ---- Ancestors are the chain of parents, with or without circles ----

  ghost predicate OnChain(h: Profiles, d: string, x: string)
    requires d in h
  {
    exists k: nat :: k > 0 && Nth(h, d, k) == Some(x)
  }

  lemma {:induction false} AncestorsAreOnChain(h: Profiles, start: string, d: string, i: nat, seen: set<string>)
    requires start in h && d in h && Nth(h, start, i) == Some(d)
    requires forall x | x in seen :: OnChain(h, start, x)
    ensures forall x | x in AncestorsFrom(h, d, seen) :: OnChain(h, start, x)
    decreases |h.Keys - seen|
  {
    var above := Above(h, h[d]);
    assert Nth(h, start, i + 1) == above;
    hide Above, Nth;
    if above.Some? && above.value !in seen {
      StrictSubsetIsSmaller(h.Keys - (seen + {above.value}), h.Keys - seen, above.value);
      AncestorsAreOnChain(h, start, above.value, i + 1, seen + {above.value});
    }
  }

  /** Going up from any member, but for the one the walk stands at, stays among the members. */
  ghost predicate ClosedBut(h: Profiles, members: set<string>, d: string) {
    forall x | x in members && x in h && x != d && Above(h, h[x]).Some? :: Above(h, h[x]).value in members
  }

  ghost predicate ClosedUpwards(h: Profiles, members: set<string>) {
    forall x | x in members && x in h && Above(h, h[x]).Some? :: Above(h, h[x]).value in members
  }

  lemma {:induction false} AncestorsAreClosed(h: Profiles, d: string, seen: set<string>)
    requires d in h && ClosedBut(h, seen, d)
    ensures seen <= AncestorsFrom(h, d, seen) && ClosedUpwards(h, AncestorsFrom(h, d, seen))
    ensures Above(h, h[d]).Some? ==> Above(h, h[d]).value in AncestorsFrom(h, d, seen)
    decreases |h.Keys - seen|
  {
    var above := Above(h, h[d]);
    if above.Some? && above.value !in seen {
      StrictSubsetIsSmaller(h.Keys - (seen + {above.value}), h.Keys - seen, above.value);
      AncestorsAreClosed(h, above.value, seen + {above.value});
    }
  }

  lemma {:induction false} ChainStaysInClosed(h: Profiles, d: string, members: set<string>, k: nat)
    requires d in h && ClosedUpwards(h, members) && k > 0
    requires Above(h, h[d]).Some? ==> Above(h, h[d]).value in members
    ensures Nth(h, d, k).Some? ==> Nth(h, d, k).value in members
  {
    if k == 1 {
      assert Nth(h, d, 0) == Some(d);
      assert Nth(h, d, 1) == Above(h, h[d]);
    } else {
      ChainStaysInClosed(h, d, members, k - 1);
    }
  }

  /** The walk upwards collects exactly the dimensions on the chain of parents, whatever its shape. */
  lemma AncestorsAreTheChain(h: Profiles, d: string, x: string)
    requires d in h
    ensures x in AncestorsFrom(h, d, {}) <==> OnChain(h, d, x)
  {
    assert Nth(h, d, 0) == Some(d);
    AncestorsAreOnChain(h, d, d, 0, {});
    AncestorsAreClosed(h, d, {});
    if OnChain(h, d, x) {
      var k: nat :| k > 0 && Nth(h, d, k) == Some(x);
      ChainStaysInClosed(h, d, AncestorsFrom(h, d, {}), k);
    }
  }

  // ---- Related dimensions ----

  predicate Related(h: Profiles, d: string, e: string)
    requires d in h && e in h
  {
    e == d || e in AncestorsFrom(h, d, {}) || d in AncestorsFrom(h, e, {})
  }

  predicate Together(paths: seq<Path>, d: string, e: string) { exists q :: q in paths && d in q && e in q }

  lemma TogetherAreRelated(h: Profiles, q: Path, i: nat, j: nat)
    requires EdgePath(h, q) && i <= j < |q|
    ensures Related(h, q[i], q[j]) && Related(h, q[j], q[i])
  {
    if i < j {
      var upTo := q[..j + 1];
      PathIsChain(h, upTo, i);
      assert OnChain(h, q[j], q[i]);
      AncestorsAreTheChain(h, q[j], q[i]);
    }
  }

  /** The way down from the k-th dimension above `d`. */
  function WayDown(h: Profiles, d: string, k: nat): (q: Path)
    requires d in h && Nth(h, d, k).Some?
    ensures |q| == k + 1 && q[0] == Nth(h, d, k).value && q[k] == d
  {
    if k == 0 then [d]
    else
      assert Nth(h, d, k - 1).Some?;
      [Nth(h, d, k).value] + WayDown(h, d, k - 1)
  }

  lemma {:induction false} WayDownAt(h: Profiles, d: string, k: nat, i: nat)
    requires d in h && Nth(h, d, k).Some? && i <= k
    ensures Nth(h, d, k - i).Some? && WayDown(h, d, k)[i] == Nth(h, d, k - i).value
  {
    if i > 0 {
      assert Nth(h, d, k - 1).Some?;
      WayDownAt(h, d, k - 1, i - 1);
    }
  }

  lemma {:induction false} WayDownIsEdgePath(h: Profiles, d: string, k: nat)
    requires d in h && Nth(h, d, k).Some?
    ensures EdgePath(h, WayDown(h, d, k))
  {
    if k > 0 {
      assert Nth(h, d, k - 1).Some?;
      WayDownIsEdgePath(h, d, k - 1);
      var rest := WayDown(h, d, k - 1);
      assert Above(h, h[rest[0]]) == Nth(h, d, k);
    }
  }

  /** The place nearest to `d` at which a dimension lies above it. */
  lemma {:induction false} NearestAbove(h: Profiles, d: string, e: string, k: nat) returns (n: nat)
    requires d in h && Nth(h, d, k) == Some(e)
    ensures n <= k && Nth(h, d, n) == Some(e) && forall j | 0 <= j < n :: Nth(h, d, j) != Some(e)
  {
    hide Nth;
    if j :| 0 <= j < k && Nth(h, d, j) == Some(e) {
      n := NearestAbove(h, d, e, j);
    } else {
      n := k;
    }
  }

  /** The way from one dimension is that from another as soon as they meet. */
  lemma {:induction false} SameFromHere(h: Profiles, d: string, i: nat, j: nat, n: nat)
    requires d in h && Nth(h, d, i) == Nth(h, d, j)
    ensures Nth(h, d, i + n) == Nth(h, d, j + n)
  {
    if n > 0 {
      SameFromHere(h, d, i, j, n - 1);
      assert i + n - 1 == i + (n - 1) && j + n - 1 == j + (n - 1);
    }
  }

  lemma NearestWayRepeatsNothing(h: Profiles, d: string, e: string, n: nat)
    requires d in h && Nth(h, d, n) == Some(e) && forall j | 0 <= j < n :: Nth(h, d, j) != Some(e)
    ensures Distinct(WayDown(h, d, n))
  {
    var q := WayDown(h, d, n);
    hide Nth, WayDown;
    forall i, j | 0 <= i < j < |q| ensures q[i] != q[j] {
      WayDownAt(h, d, n, i);
      WayDownAt(h, d, n, j);
      if q[i] == q[j] {
        SameFromHere(h, d, n - i, n - j, i);
        assert false;
      }
    }
  }

  lemma RelatedAreTogether(h: Profiles, order: seq<string>, children: map<string, seq<string>>, paths: seq<Path>,
                           d: string, e: string)
    requires IsIndex(h, order, children) && forall q :: q in paths <==> IsReported(h, q)
    requires d in h && e in h && (e == d || OnChain(h, d, e))
    ensures Together(paths, d, e)
  {
    hide IsIndex, IsReported, EdgePath, Distinct;
    assert Nth(h, d, 0) == Some(d);
    var k: nat :| Nth(h, d, k) == Some(e);
    var n := NearestAbove(h, d, e, k);
    var walk := WayDown(h, d, n);
    assert d in walk && e in walk;
    WayDownIsEdgePath(h, d, n);
    NearestWayRepeatsNothing(h, d, e, n);
    hide WayDown, Nth;
    var q := ReportedThrough(h, order, children, e, walk);
  }

  /** Whatever the parents, the dimensions read together are those that share a reported path. */
  lemma RelatedMeansOnOnePath(h: Profiles, order: seq<string>, children: map<string, seq<string>>, paths: seq<Path>,
                              d: string, e: string)
    requires IsIndex(h, order, children) && d in h && e in h
    requires forall q :: q in paths <==> IsReported(h, q)
    ensures Related(h, d, e) <==> Together(paths, d, e)
  {
    hide IsIndex, IsPath, IsRooted, IsEndless;
    if Related(h, d, e) {
      RelatedOneWay(h, d, e);
      hide Related, OnChain, IsReported;
      if e == d || OnChain(h, d, e) {
        RelatedAreTogether(h, order, children, paths, d, e);
      } else {
        RelatedAreTogether(h, order, children, paths, e, d);
      }
    }
    if Together(paths, d, e) {
      hide Related;
      var q :| q in paths && d in q && e in q;
      assert IsPath(h, q);
      OnOnePathAreRelated(h, q, d, e);
    }
  }

  lemma RelatedOneWay(h: Profiles, d: string, e: string)
    requires d in h && e in h && Related(h, d, e)
    ensures e == d || OnChain(h, d, e) || OnChain(h, e, d)
  {
    AncestorsAreTheChain(h, d, e);
    AncestorsAreTheChain(h, e, d);
  }

  lemma OnOnePathAreRelated(h: Profiles, q: Path, d: string, e: string)
    requires d in h && e in h && IsPath(h, q) && d in q && e in q
    ensures Related(h, d, e)
  {
    hide Related, EdgePath, IsLeaf;
    var i :| 0 <= i < |q| && q[i] == d;
    var j :| 0 <= j < |q| && q[j] == e;
    if i <= j { TogetherAreRelated(h, q, i, j); } else { TogetherAreRelated(h, q, j, i); }
  }
}
