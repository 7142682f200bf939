/** Dimensions and their parents: how deep a dimension lies and which dimensions are above it
  * (`_annotate_hierarchy_depths`, `_related_hierarchy_readout_profiles`). Nothing in the
  * metadata rules out a chain of parents that runs in a circle. */
module Hierarchy {
  import opened Sets
  import opened Wrappers

  /** What the hierarchy reads of a profile; absent metadata is an empty string. */
  datatype Profile = Profile(dimension: string, parent: string, hierarchyId: string)

  type Profiles = map<string, Profile>

  /** `{profile["dimension"]: profile ...}`: nameless profiles are left out, the last of a name stays. */
  function ByDimension(profiles: seq<Profile>): (h: Profiles)
    ensures Named(h)
    ensures forall d :: d in h <==> d != "" && exists i :: 0 <= i < |profiles| && profiles[i].dimension == d
  {
    if profiles == [] then map[]
    else
      var last := profiles[|profiles| - 1];
      assert forall i | 0 <= i < |profiles| - 1 :: profiles[i] == profiles[..|profiles| - 1][i];
      var before := ByDimension(profiles[..|profiles| - 1]);
      if last.dimension == "" then before else before[last.dimension := last]
  }

  ghost predicate Named(h: Profiles) {
    forall d | d in h :: d != "" && h[d].dimension == d
  }

  /** The dimension above, if it is known and in the same hierarchy. */
  function Above(h: Profiles, p: Profile): (r: Option<string>)
    ensures r.Some? ==> r.value in h
  {
    if p.parent == "" || p.parent !in h || h[p.parent].hierarchyId != p.hierarchyId then None else Some(p.parent)
  }

  // ---- The chain of parents ----

  /** The k-th dimension above `d`, counting `d` as the zeroth. */
  function Nth(h: Profiles, d: string, k: nat): (r: Option<string>)
    requires d in h
    ensures r.Some? ==> r.value in h
  {
    if k == 0 then Some(d)
    else
      var below := Nth(h, d, k - 1);
      if below.None? then None else Above(h, h[below.value])
  }

  lemma {:induction false} NthOfParent(h: Profiles, d: string, k: nat)
    requires d in h && Above(h, h[d]).Some?
    ensures Nth(h, d, k + 1) == Nth(h, Above(h, h[d]).value, k)
  {
    if k > 0 {
      NthOfParent(h, d, k - 1);
    } else {
      assert Nth(h, d, 0) == Some(d);
    }
  }

  lemma {:induction false} NthOfRoot(h: Profiles, d: string, k: nat)
    requires d in h && Above(h, h[d]).None?
    ensures Nth(h, d, k + 1) == None
  {
    if k > 0 {
      NthOfRoot(h, d, k - 1);
    } else {
      assert Nth(h, d, 0) == Some(d);
    }
  }

  /** The chain from `d` stops after `k` steps. */
  ghost predicate EndsAfter(h: Profiles, d: string, k: nat)
    requires d in h
  {
    Nth(h, d, k).Some? && Nth(h, d, k + 1).None?
  }

  ghost predicate Ends(h: Profiles, d: string)
    requires d in h
  {
    exists k: nat :: EndsAfter(h, d, k)
  }

  /** Every chain of parents stops. */
  ghost predicate Acyclic(h: Profiles) {
    Named(h) && forall d | d in h :: Ends(h, d)
  }

  lemma EndsAfterParent(h: Profiles, d: string, k: nat)
    requires d in h && Above(h, h[d]).Some?
    ensures EndsAfter(h, d, k + 1) <==> EndsAfter(h, Above(h, h[d]).value, k)
  {
    NthOfParent(h, d, k);
    NthOfParent(h, d, k + 1);
  }

  lemma EndsAfterRoot(h: Profiles, d: string, k: nat)
    requires d in h
    ensures EndsAfter(h, d, 0) <==> Above(h, h[d]).None?
    ensures Above(h, h[d]).None? && EndsAfter(h, d, k) ==> k == 0
  {
    assert Nth(h, d, 0) == Some(d);
    assert Nth(h, d, 1) == Above(h, h[d]);
    if Above(h, h[d]).None? && k > 0 { NthOfRoot(h, d, k - 1); }
  }

  /** A chain stops at one place only. */
  lemma {:induction false} EndsOnce(h: Profiles, d: string, k: nat, l: nat)
    requires d in h && EndsAfter(h, d, k) && EndsAfter(h, d, l)
    ensures k == l
    decreases k
  {
    EndsAfterRoot(h, d, k);
    EndsAfterRoot(h, d, l);
    if Above(h, h[d]).Some? {
      EndsAfterParent(h, d, k - 1);
      EndsAfterParent(h, d, l - 1);
      EndsOnce(h, Above(h, h[d]).value, k - 1, l - 1);
    }
  }

  /** What lies above a dimension whose chain stops at `k` stops earlier. */
  lemma {:induction false} EndsEarlierAbove(h: Profiles, d: string, k: nat, j: nat)
    requires d in h && EndsAfter(h, d, k) && j <= k
    ensures Nth(h, d, j).Some? && EndsAfter(h, Nth(h, d, j).value, k - j)
    decreases k
  {
    EndsAfterRoot(h, d, k);
    if j > 0 {
      EndsAfterParent(h, d, k - 1);
      EndsEarlierAbove(h, Above(h, h[d]).value, k - 1, j - 1);
      NthOfParent(h, d, j - 1);
    }
  }

  lemma {:induction false} NothingAboveTheEnd(h: Profiles, d: string, k: nat, j: nat)
    requires d in h && EndsAfter(h, d, k) && j > k
    ensures Nth(h, d, j).None?
  {
    if j > k + 1 { NothingAboveTheEnd(h, d, k, j - 1); }
  }

  /** A chain that stops never comes back to where it started. */
  lemma NeverComesBack(h: Profiles, d: string, k: nat, j: nat)
    requires d in h && EndsAfter(h, d, k) && j > 0
    ensures Nth(h, d, j) != Some(d)
  {
    if j <= k {
      EndsEarlierAbove(h, d, k, j);
      if Nth(h, d, j) == Some(d) { EndsOnce(h, d, k, k - j); }
    } else {
      NothingAboveTheEnd(h, d, k, j);
    }
  }

  // ---- Depth ----

  /** `resolve_depth`: the trail stops a chain that meets itself. */
  function Depth(h: Profiles, p: Profile, trail: set<string>): nat
    requires Named(h)
    decreases |h.Keys + {p.dimension} - trail|
  {
    var above := Above(h, p);
    if above.None? || p.dimension in trail then 0
    else
      StrictSubsetIsSmaller(h.Keys + {above.value} - (trail + {p.dimension}), h.Keys + {p.dimension} - trail,
          p.dimension);
      1 + Depth(h, h[above.value], trail + {p.dimension})
  }

  function DepthOf(h: Profiles, d: string): nat
    requires Named(h) && d in h
  {
    Depth(h, h[d], {})
  }

  /** A trail that the rest of the chain does not meet makes no difference. */
  lemma {:induction false} DepthIsChainLength(h: Profiles, d: string, k: nat, trail: set<string>)
    requires Named(h) && d in h && EndsAfter(h, d, k)
    requires forall j: nat :: Nth(h, d, j).Some? ==> Nth(h, d, j).value !in trail
    ensures Depth(h, h[d], trail) == k
    decreases k
  {
    EndsAfterRoot(h, d, k);
    assert Nth(h, d, 0) == Some(d);
    if Above(h, h[d]).Some? {
      var p := Above(h, h[d]).value;
      EndsAfterParent(h, d, k - 1);
      forall j: nat | Nth(h, p, j).Some? ensures Nth(h, p, j).value !in trail + {d} {
        NthOfParent(h, d, j);
        NeverComesBack(h, d, k, j + 1);
      }
      DepthIsChainLength(h, p, k - 1, trail + {d});
    }
  }

  /** Where chains stop, a dimension lies one level below its parent, and a root at level zero. */
  lemma DepthOfParentPlusOne(h: Profiles, d: string)
    requires Acyclic(h) && d in h
    ensures EndsAfter(h, d, DepthOf(h, d))
    ensures DepthOf(h, d) == if Above(h, h[d]).None? then 0 else DepthOf(h, Above(h, h[d]).value) + 1
  {
    hide Depth, Nth, EndsAfter;
    var k: nat :| EndsAfter(h, d, k);
    DepthIsChainLength(h, d, k, {});
    EndsAfterRoot(h, d, k);
    if Above(h, h[d]).Some? {
      EndsAfterParent(h, d, k - 1);
      DepthIsChainLength(h, Above(h, h[d]).value, k - 1, {});
    }
  }

  // ---- Ancestors ----

  /** What the walk upwards adds to `seen` when it stands at `d`. */
  function AncestorsFrom(h: Profiles, d: string, seen: set<string>): set<string>
    requires d in h
    decreases |h.Keys - seen|
  {
    var above := Above(h, h[d]);
    if above.None? || above.value in seen then seen
    else
      StrictSubsetIsSmaller(h.Keys - (seen + {above.value}), h.Keys - seen, above.value);
      AncestorsFrom(h, above.value, seen + {above.value})
  }

  /** `ancestor_dimensions`, asked about a dimension of the hierarchy. */
  method AncestorDimensions(h: Profiles, dimension: string, hierarchyId: string) returns (ancestors: set<string>)
    requires Named(h) && (dimension in h ==> h[dimension].hierarchyId == hierarchyId)
    ensures dimension !in h ==> ancestors == {}
    ensures dimension in h ==> ancestors == AncestorsFrom(h, dimension, {})
  {
    ancestors := {};
    var current := if dimension in h then Some(h[dimension]) else None;
    while current.Some?
      invariant current.Some? ==> current.value.dimension in h && h[current.value.dimension] == current.value
      invariant current.Some? ==> current.value.hierarchyId == hierarchyId
      invariant dimension in h && current.Some? ==>
                  AncestorsFrom(h, dimension, {}) == AncestorsFrom(h, current.value.dimension, ancestors)
      invariant dimension in h && current.None? ==> ancestors == AncestorsFrom(h, dimension, {})
      invariant dimension !in h ==> current.None? && ancestors == {}
      decreases |h.Keys - ancestors|, current.Some?
    {
      var parent := current.value.parent;
      if parent == "" || parent in ancestors {
        current := None;
      } else if parent !in h || h[parent].hierarchyId != hierarchyId {
        current := None;
      } else {
        StrictSubsetIsSmaller(h.Keys - (ancestors + {parent}), h.Keys - ancestors, parent);
        ancestors := ancestors + {parent};
        current := Some(h[parent]);
      }
    }
  }

  /** The dimensions met before the chain stops or meets one of them again. */
  ghost predicate Walked(h: Profiles, start: string, d: string, i: nat, seen: set<string>)
    requires start in h
  {
    && i > 0 && Nth(h, start, i) == Some(d) && d in seen && seen <= h.Keys
    && (forall x | x in seen :: exists j :: 0 < j <= i && Nth(h, start, j) == Some(x))
    && (forall j | 0 < j <= i :: Nth(h, start, j).Some? && Nth(h, start, j).value in seen)
  }

  ghost predicate EndsOrReturns(h: Profiles, d: string)
    requires d in h
  {
    exists k: nat :: k > 0 && (Nth(h, d, k) == None || Nth(h, d, k) == Some(d))
  }

  /** A walk that meets one of its own dimensions goes round without end and without the start. */
  lemma {:induction false} GoesRound(h: Profiles, start: string, d: string, i: nat, seen: set<string>, k: nat)
    requires start in h && Walked(h, start, d, i, seen) && start !in seen
    requires Above(h, h[d]).Some? && Above(h, h[d]).value in seen && k > 0
    ensures Nth(h, start, k).Some? && Nth(h, start, k).value in seen
  {
    if k > i {
      GoesRound(h, start, d, i, seen, k - 1);
      var x := Nth(h, start, k - 1).value;
      var j :| 0 < j <= i && Nth(h, start, j) == Some(x);
      if j < i {
        assert Nth(h, start, j + 1) == Above(h, h[x]);
      } else {
        assert x == d;
      }
    }
  }

  /** Depth and ancestors count the same steps, but for the last one of a walk that goes round
    * without the start. */
  ghost predicate StepsAgree(h: Profiles, start: string, d: string, seen: set<string>)
    requires Named(h) && start in h && d in h
  {
    var depth, added := Depth(h, h[d], seen - {d} + {start}), |AncestorsFrom(h, d, seen)| - |seen|;
    depth == if EndsOrReturns(h, start) then added else added + 1
  }

  lemma WalkStops(h: Profiles, start: string, d: string, i: nat, seen: set<string>)
    requires Named(h) && start in h && d in h && Walked(h, start, d, i, seen) && Above(h, h[d]).None?
    ensures StepsAgree(h, start, d, seen)
  {
    assert Nth(h, start, i + 1) == None;
  }

  lemma WalkMeetsItself(h: Profiles, start: string, d: string, i: nat, seen: set<string>)
    requires Named(h) && start in h && d in h && Walked(h, start, d, i, seen) && start !in seen
    requires Above(h, h[d]).Some? && Above(h, h[d]).value in seen
    ensures StepsAgree(h, start, d, seen)
  {
    forall k: nat | k > 0 ensures Nth(h, start, k) != None && Nth(h, start, k) != Some(start) {
      GoesRound(h, start, d, i, seen, k);
    }
    hide Walked, Nth;
    var p := Above(h, h[d]).value;
    assert p in seen - {d} + {start} + {d};
    assert Depth(h, h[p], seen - {d} + {start} + {d}) == 0;
  }

  lemma {:induction false} DepthAgainstAncestors(h: Profiles, start: string, d: string, i: nat, seen: set<string>)
    requires Named(h) && start in h && d in h && Walked(h, start, d, i, seen) && start !in seen
    ensures StepsAgree(h, start, d, seen)
    decreases |h.Keys - seen|
  {
    hide Walked, EndsOrReturns;
    var above := Above(h, h[d]);
    if above.None? {
      WalkStops(h, start, d, i, seen);
    } else if above.value in seen {
      WalkMeetsItself(h, start, d, i, seen);
    } else if above.value == start {
      BackAtStart(h, start, d, i, seen);
    } else {
      var p := above.value;
      WalkedFurther(h, start, d, i, seen);
      StrictSubsetIsSmaller(h.Keys - (seen + {p}), h.Keys - seen, p);
      DepthAgainstAncestors(h, start, p, i + 1, seen + {p});
      StepOfBoth(h, start, d, i, seen);
    }
  }

  lemma StepOfBoth(h: Profiles, start: string, d: string, i: nat, seen: set<string>)
    requires Named(h) && start in h && d in h && Walked(h, start, d, i, seen) && start !in seen
    requires Above(h, h[d]).Some? && Above(h, h[d]).value !in seen + {start}
    requires StepsAgree(h, start, Above(h, h[d]).value, seen + {Above(h, h[d]).value})
    ensures StepsAgree(h, start, d, seen)
  {
    hide EndsOrReturns, Above, Nth;
    var p := Above(h, h[d]).value;
    assert d in seen && d !in seen - {d} + {start};
    hide Walked;
    DepthUnfold(h, d, seen - {d} + {start});
    AncestorsUnfold(h, d, seen);
    hide Depth, AncestorsFrom;
    assert seen - {d} + {start} + {d} == seen + {p} - {p} + {start};
    assert |seen + {p}| == |seen| + 1;
  }

  lemma DepthUnfold(h: Profiles, d: string, trail: set<string>)
    requires Named(h) && d in h && Above(h, h[d]).Some? && d !in trail
    ensures Depth(h, h[d], trail) == 1 + Depth(h, h[Above(h, h[d]).value], trail + {d})
  {
  }

  lemma AncestorsUnfold(h: Profiles, d: string, seen: set<string>)
    requires Named(h) && d in h && Above(h, h[d]).Some? && Above(h, h[d]).value !in seen
    ensures AncestorsFrom(h, d, seen) == AncestorsFrom(h, Above(h, h[d]).value, seen + {Above(h, h[d]).value})
  {
  }

  lemma WalkedFurther(h: Profiles, start: string, d: string, i: nat, seen: set<string>)
    requires start in h && d in h && Walked(h, start, d, i, seen) && Above(h, h[d]).Some?
    ensures Walked(h, start, Above(h, h[d]).value, i + 1, seen + {Above(h, h[d]).value})
  {
    var p := Above(h, h[d]).value;
    assert Nth(h, start, i + 1) == Some(p);
    forall x | x in seen + {p} ensures exists j :: 0 < j <= i + 1 && Nth(h, start, j) == Some(x) {
      if x in seen {
        var j :| 0 < j <= i && Nth(h, start, j) == Some(x);
      }
    }
  }

  lemma BackAtStart(h: Profiles, start: string, d: string, i: nat, seen: set<string>)
    requires Named(h) && start in h && d in h && Walked(h, start, d, i, seen) && start !in seen
    requires Above(h, h[d]) == Some(start)
    requires start !in seen
    ensures StepsAgree(h, start, d, seen)
  {
    assert Nth(h, start, i + 1) == Some(start);
    assert Nth(h, start, 0) == Some(start);
    assert Nth(h, start, 1) == Above(h, h[start]);
    assert AncestorsFrom(h, start, seen + {start}) == seen + {start};
  }

  lemma SelfParent(h: Profiles, d: string)
    requires Named(h) && d in h && Above(h, h[d]) == Some(d)
    ensures DepthOf(h, d) == |AncestorsFrom(h, d, {})| == 1 && EndsOrReturns(h, d)
  {
    assert Nth(h, d, 0) == Some(d);
    assert Nth(h, d, 1) == Some(d);
    assert AncestorsFrom(h, d, {} + {d}) == {d};
    assert Depth(h, h[d], {} + {d}) == 0;
  }

  /** The depth of a dimension is the number of its ancestors exactly when its chain of parents stops
    * or comes back to the dimension itself; a chain that runs into a circle elsewhere is counted one
    * step too deep. */
  lemma {:induction false} DepthCountsAncestors(h: Profiles, d: string)
    requires Named(h) && d in h
    ensures DepthOf(h, d) == |AncestorsFrom(h, d, {})| <==> EndsOrReturns(h, d)
    ensures DepthOf(h, d) != |AncestorsFrom(h, d, {})| ==> DepthOf(h, d) == |AncestorsFrom(h, d, {})| + 1
  {
    var above := Above(h, h[d]);
    assert Nth(h, d, 0) == Some(d);
    assert Nth(h, d, 1) == above;
    if above.None? {
    } else if above.value == d {
      SelfParent(h, d);
    } else {
      var p := above.value;
      assert {p} - {p} + {d} == {} + {d};
      DepthAgainstAncestors(h, d, p, 1, {p});
      assert AncestorsFrom(h, d, {}) == AncestorsFrom(h, p, {} + {p});
      hide EndsOrReturns, Nth;
    }
  }

  /** Three dimensions are enough: one below a pair that name each other as parents. */
  lemma DepthCanExceedAncestors()
    ensures exists h: Profiles, d: string :: Named(h) && d in h && DepthOf(h, d) != |AncestorsFrom(h, d, {})|
  {
    var h: Profiles := map["a" := Profile("a", "b", "h"), "b" := Profile("b", "a", "h"), "c" := Profile("c", "a", "h")];
    hide Depth, AncestorsFrom;
    forall k: nat | k > 0 ensures Nth(h, "c", k) == Some(if k % 2 == 1 then "a" else "b") { RoundAndRound(h, k); }
    DepthCountsAncestors(h, "c");
    assert Named(h) && "c" in h && DepthOf(h, "c") != |AncestorsFrom(h, "c", {})|;
  }

  lemma {:induction false} RoundAndRound(h: Profiles, k: nat)
    requires h == map["a" := Profile("a", "b", "h"), "b" := Profile("b", "a", "h"), "c" := Profile("c", "a", "h")]
             && k > 0
    ensures Nth(h, "c", k) == Some(if k % 2 == 1 then "a" else "b")
  {
    if k > 1 {
      RoundAndRound(h, k - 1);
    } else {
      assert Nth(h, "c", 0) == Some("c");
    }
  }
}
