/** What closure gives whoever relies on it. */
module ClosureLaws {
  import opened Sets
  import opened CanonicalJson
  import opened References
  import opened ExecutionRecords
  import opened ExecutionClosure

  // ---- Tasks and bundles ----

  /** Each bundle is for its own task; when the plan is exhausted, each task has its bundle. */
  lemma TasksAndBundles(a: Authority)
    requires Closed(a)
    ensures |Items(a.snapshot.outcomeRefs)| == |a.bundles| <= |a.plan.tasks|
    ensures a.stop.reason == Text("plan_exhausted") ==> |a.bundles| == |a.plan.tasks|
    ensures |a.bundles| == |a.plan.tasks| <==> EveryTaskAttempted(a)
  {
    var attempted, planned := AttemptedTaskIds(a.bundles), TaskIds(a.plan.tasks);
    AttemptsAreAtPlannedTasks(a);
    ExhaustedByCounting(a);
    SizeTellsDistinct(attempted);
    SizeTellsDistinct(planned);
    SizeTellsDistinct(OutcomeRefs(a.bundles));
    UniqueTextsAreDistinct(a.snapshot.outcomeRefs);
    SizeTellsDistinct(Items(a.snapshot.outcomeRefs));
    SubsetIsNoLarger(SetOf(attempted), SetOf(planned));
  }

  lemma OneBundlePerTask(a: Authority, t: Task)
    requires Closed(a) && a.stop.reason == Text("plan_exhausted") && t in a.plan.tasks
    ensures exists i :: 0 <= i < |a.bundles| && a.bundles[i].attempt.taskId == t.taskId
                        && forall j | 0 <= j < |a.bundles| && j != i :: a.bundles[j].attempt.taskId != t.taskId
  {
    hide RecordsAgree, PlanOk, BundleOk, SetOf, Items, OutcomeRefs, AllEntryRefs, AllFailureRefs, UsedBudget,
         AttemptIds;
    assert EveryTaskAttempted(a);
    var b :| b in a.bundles && b.attempt.taskId == t.taskId;
    var i :| 0 <= i < |a.bundles| && a.bundles[i] == b;
    var keys := AttemptedTaskIds(a.bundles);
    forall j | 0 <= j < |a.bundles| && j != i ensures a.bundles[j].attempt.taskId != t.taskId {
      assert Distinct(keys) && keys[i] == t.taskId && keys[j] == a.bundles[j].attempt.taskId;
    }
  }

  // ---- Every reference has one home ----

  lemma {:induction false} CollectedBySome<S, T>(xs: seq<S>, refs: S -> seq<T>, r: T)
    ensures r in Collect(xs, refs) <==> exists i :: 0 <= i < |xs| && r in refs(xs[i])
  {
    if xs != [] {
      var n := |xs| - 1;
      CollectedBySome(xs[..n], refs, r);
      if r in refs(xs[n]) { assert 0 <= n < |xs| && r in refs(xs[n]); }
      if i :| 0 <= i < |xs[..n]| && r in refs(xs[..n][i]) { assert xs[i] == xs[..n][i]; }
      if i :| 0 <= i < |xs| && r in refs(xs[i]) {
        if i < n { assert xs[..n][i] == xs[i]; }
      }
    }
  }

  lemma {:induction false} CollectedByOne<S, T>(xs: seq<S>, refs: S -> seq<T>, r: T, i: nat, j: nat)
    requires Distinct(Collect(xs, refs)) && i < j < |xs| && r in refs(xs[i])
    ensures r !in refs(xs[j])
  {
    var n := |xs| - 1;
    DistinctAppend(Collect(xs[..n], refs), refs(xs[n]));
    if j == n {
      assert xs[..n][i] == xs[i];
      CollectedBySome(xs[..n], refs, r);
    } else {
      CollectedByOne(xs[..n], refs, r, i, j);
    }
  }

  lemma ClosedNamesEntries(a: Authority, r: Json)
    requires Closed(a)
    ensures r in Items(a.snapshot.evidenceEntryRefs) <==> r in AllEntryRefs(a.bundles)
    ensures Distinct(AllEntryRefs(a.bundles))
  {
    assert NothingShared(a.bundles);
    assert SetOf(Items(a.snapshot.evidenceEntryRefs)) == SetOf(AllEntryRefs(a.bundles));
    assert r in Items(a.snapshot.evidenceEntryRefs) <==> r in SetOf(Items(a.snapshot.evidenceEntryRefs));
    assert r in AllEntryRefs(a.bundles) <==> r in SetOf(AllEntryRefs(a.bundles));
    hide BundleOk, RecordsAgree, PlanOk, Distinct, SetOf, UsedBudget;
  }

  /** An entry named by the snapshot is held by exactly one bundle; nothing else is. */
  lemma EveryEntryHasOneBundle(a: Authority, r: Json)
    requires Closed(a)
    ensures r in Items(a.snapshot.evidenceEntryRefs)
            <==> exists i :: 0 <= i < |a.bundles| && r in EntryRefs(a.bundles[i].entries)
    ensures forall i, j | 0 <= i < j < |a.bundles| && r in EntryRefs(a.bundles[i].entries) ::
              r !in EntryRefs(a.bundles[j].entries)
  {
    var refs := (b: Bundle) => EntryRefs(b.entries);
    ClosedNamesEntries(a, r);
    hide Closed, EntryRefs;
    assert Collect(a.bundles, refs) == AllEntryRefs(a.bundles) by {
      SameCollect(a.bundles, refs, (b: Bundle) => EntryRefs(b.entries));
    }
    CollectedBySome(a.bundles, refs, r);
    forall i, j | 0 <= i < j < |a.bundles| && r in refs(a.bundles[i]) ensures r !in refs(a.bundles[j]) {
      CollectedByOne(a.bundles, refs, r, i, j);
    }
  }

  lemma {:induction false} SameCollect<S, T>(xs: seq<S>, f: S -> seq<T>, g: S -> seq<T>)
    requires forall x :: f(x) == g(x)
    ensures Collect(xs, f) == Collect(xs, g)
  {
    if xs != [] { SameCollect(xs[..|xs| - 1], f, g); }
  }

  /** The snapshot lists exactly the failures that outcomes name, and each is named by one outcome. */
  lemma FailuresAreThoseNamed(a: Authority, r: Json)
    requires Closed(a) && r != Null
    ensures r in Items(a.snapshot.failureRefs)
            <==> exists i :: 0 <= i < |a.bundles| && a.bundles[i].outcome.failureRef == r
    ensures forall i, j | 0 <= i < j < |a.bundles| && a.bundles[i].outcome.failureRef == r ::
              a.bundles[j].outcome.failureRef != r
  {
    hide RecordsAgree, PlanOk, BundleFieldsOk, AttemptsPlannedTask, EvidenceOk, EveryTaskAttempted, OutcomeRefs,
         AllEntryRefs, UsedBudget, AttemptIds, AttemptedTaskIds;
    var refs := (b: Bundle) => FailureRefs(b.failures);
    assert Collect(a.bundles, refs) == AllFailureRefs(a.bundles) by {
      SameCollect(a.bundles, refs, (b: Bundle) => FailureRefs(b.failures));
    }
    assert r in Items(a.snapshot.failureRefs) <==> r in AllFailureRefs(a.bundles) by {
      assert r in Items(a.snapshot.failureRefs) <==> r in SetOf(Items(a.snapshot.failureRefs));
      assert r in AllFailureRefs(a.bundles) <==> r in SetOf(AllFailureRefs(a.bundles));
    }
    CollectedBySome(a.bundles, refs, r);
    forall i | 0 <= i < |a.bundles| ensures r in refs(a.bundles[i]) <==> a.bundles[i].outcome.failureRef == r {
      assert BundleOk(a, a.bundles[i]);
    }
    forall i, j | 0 <= i < j < |a.bundles| && r in refs(a.bundles[i]) ensures r !in refs(a.bundles[j]) {
      CollectedByOne(a.bundles, refs, r, i, j);
    }
  }
}
