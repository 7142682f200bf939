/** In what order the parts of a result come does not matter for its closure. */
module ClosureOrder {
  import opened CanonicalJson
  import opened Totals
  import opened References
  import opened ExecutionRecords
  import opened ExecutionClosure

  // ---- Bundles, tasks and obligations ----

  ghost predicate Reordered(a: Authority, z: Authority) {
    && multiset(z.bundles) == multiset(a.bundles)
    && multiset(z.plan.tasks) == multiset(a.plan.tasks)
    && multiset(z.plan.obligations) == multiset(a.plan.obligations)
    && z == a.(bundles := z.bundles, plan := a.plan.(tasks := z.plan.tasks, obligations := z.plan.obligations))
  }

  lemma SameMembers<T>(xs: seq<T>, ys: seq<T>)
    requires multiset(xs) == multiset(ys)
    ensures forall x :: x in xs <==> x in ys
  {
    forall x ensures x in xs <==> x in ys {
      assert x in xs <==> x in multiset(xs);
      assert x in ys <==> x in multiset(ys);
    }
  }

  lemma PlanUnderReordering(a: Authority, z: Authority)
    requires Reordered(a, z)
    ensures PlanOk(a) <==> PlanOk(z)
  {
    SameMembers(a.plan.obligations, z.plan.obligations);
    SameMembers(a.plan.tasks, z.plan.tasks);
    MapPermutation(a.plan.obligations, z.plan.obligations, (o: Obligation) => o.obligationId);
    MapPermutation(a.plan.tasks, z.plan.tasks, (t: Task) => t.taskId);
    PlanReadsMembersOnly(a, z);
  }

  lemma PlanReadsMembersOnly(a: Authority, z: Authority)
    requires Reordered(a, z)
    requires forall o :: o in a.plan.obligations <==> o in z.plan.obligations
    requires forall t :: t in a.plan.tasks <==> t in z.plan.tasks
    requires SetOf(ObligationIds(a.plan.obligations)) == SetOf(ObligationIds(z.plan.obligations))
    requires Distinct(ObligationIds(a.plan.obligations)) <==> Distinct(ObligationIds(z.plan.obligations))
    requires Distinct(TaskIds(a.plan.tasks)) <==> Distinct(TaskIds(z.plan.tasks))
    ensures PlanOk(a) <==> PlanOk(z)
  {
    hide Distinct, SetOf, ObligationIds, TaskIds, EdgesOk;
    var ids := SetOf(ObligationIds(a.plan.obligations));
    forall t ensures TaskOk(a, ids, t) <==> TaskOk(z, ids, t) { }
  }

  lemma ReferencesUnderReordering(a: Authority, z: Authority)
    requires Reordered(a, z)
    ensures NothingShared(a.bundles) <==> NothingShared(z.bundles)
    ensures SetOf(OutcomeRefs(a.bundles)) == SetOf(OutcomeRefs(z.bundles))
    ensures SetOf(AllEntryRefs(a.bundles)) == SetOf(AllEntryRefs(z.bundles))
    ensures SetOf(AllFailureRefs(a.bundles)) == SetOf(AllFailureRefs(z.bundles))
    ensures UsedBudget(a.bundles) == UsedBudget(z.bundles)
  {
    MapPermutation(a.bundles, z.bundles, (b: Bundle) => b.attempt.taskId);
    MapPermutation(a.bundles, z.bundles, (b: Bundle) => b.attempt.attemptId);
    MapPermutation(a.bundles, z.bundles, (b: Bundle) => b.outcome.outcomeRef);
    CollectPermutation(a.bundles, z.bundles, (b: Bundle) => EntryRefs(b.entries));
    CollectPermutation(a.bundles, z.bundles, (b: Bundle) => FailureRefs(b.failures));
    SameSetOf(AllEntryRefs(a.bundles), AllEntryRefs(z.bundles));
    SameSetOf(AllFailureRefs(a.bundles), AllFailureRefs(z.bundles));
    TotalPermutation(a.bundles, z.bundles, Units);
  }

  lemma BundleUnderReordering(a: Authority, z: Authority, b: Bundle)
    requires Reordered(a, z)
    ensures BundleOk(a, b) <==> BundleOk(z, b)
  {
    SameMembers(a.plan.tasks, z.plan.tasks);
    hide Distinct, SetOf, Reordered, IsUniqueTextArray;
  }

  /** Bundles, tasks and obligations may come in any order. */
  lemma OrderDoesNotMatter(a: Authority, z: Authority)
    requires Reordered(a, z)
    ensures Closed(a) <==> Closed(z)
  {
    hide SetOf, BundleOk, NothingShared, PlanOk, OutcomeRefs, AllEntryRefs, AllFailureRefs, UsedBudget, Items,
         IsUniqueTextArray, IsCount, Identical;
    PlanUnderReordering(a, z);
    ReferencesUnderReordering(a, z);
    SameMembers(a.bundles, z.bundles);
    SameMembers(a.plan.tasks, z.plan.tasks);
    forall b ensures BundleOk(a, b) <==> BundleOk(z, b) { BundleUnderReordering(a, z, b); }
  }

  // ---- Inside a bundle, a task and a list of references ----

  /** The same value, but for the order of an array. */
  ghost predicate SameReferences(v: Json, w: Json) {
    v == w || (v.Array? && w.Array? && multiset(v.items) == multiset(w.items))
  }

  ghost predicate SameTask(t: Task, u: Task) {
    && multiset(u.edges) == multiset(t.edges)
    && SameReferences(t.supportsObligationIds, u.supportsObligationIds)
    && u == t.(edges := u.edges, supportsObligationIds := u.supportsObligationIds)
  }

  ghost predicate SameOutcome(o: CapabilityOutcome, q: CapabilityOutcome) {
    && SameReferences(o.evidenceRefs, q.evidenceRefs)
    && SameReferences(o.affectedObligationIds, q.affectedObligationIds)
    && SameReferences(o.limitationRefs, q.limitationRefs)
    && q == o.(evidenceRefs := q.evidenceRefs, affectedObligationIds := q.affectedObligationIds,
               limitationRefs := q.limitationRefs)
  }

  ghost predicate SameBundle(b: Bundle, y: Bundle) {
    && multiset(y.entries) == multiset(b.entries) && multiset(y.failures) == multiset(b.failures)
    && SameOutcome(b.outcome, y.outcome)
    && y == b.(entries := y.entries, failures := y.failures, outcome := y.outcome)
  }

  ghost predicate SameLists(a: Authority, z: Authority) {
    && SameReferences(a.snapshot.outcomeRefs, z.snapshot.outcomeRefs)
    && SameReferences(a.snapshot.evidenceEntryRefs, z.snapshot.evidenceEntryRefs)
    && SameReferences(a.snapshot.failureRefs, z.snapshot.failureRefs)
    && SameReferences(a.stop.evaluatedOutcomeRefs, z.stop.evaluatedOutcomeRefs)
    && z.snapshot == a.snapshot.(outcomeRefs := z.snapshot.outcomeRefs, failureRefs := z.snapshot.failureRefs,
                                 evidenceEntryRefs := z.snapshot.evidenceEntryRefs)
    && z.stop == a.stop.(evaluatedOutcomeRefs := z.stop.evaluatedOutcomeRefs)
  }

  /** Entries and failures of each bundle, edges of each task and all lists of references are rearranged. */
  ghost predicate InnerReordered(a: Authority, z: Authority) {
    && |z.bundles| == |a.bundles| && (forall i | 0 <= i < |a.bundles| :: SameBundle(a.bundles[i], z.bundles[i]))
    && |z.plan.tasks| == |a.plan.tasks|
    && (forall i | 0 <= i < |a.plan.tasks| :: SameTask(a.plan.tasks[i], z.plan.tasks[i]))
    && SameLists(a, z)
    && z == a.(bundles := z.bundles, plan := a.plan.(tasks := z.plan.tasks), snapshot := z.snapshot, stop := z.stop)
  }

  lemma SameReferencesFacts(v: Json, w: Json)
    requires SameReferences(v, w)
    ensures SameReferences(w, v)
    ensures IsUniqueTextArray(v) <==> IsUniqueTextArray(w)
    ensures SetOf(Items(v)) == SetOf(Items(w)) && (Items(v) == [] <==> Items(w) == [])
  {
    if v != w {
      SameMembers(v.items, w.items);
      SameSetOf(v.items, w.items);
      hide IsNonEmptyText, Distinct;
    }
  }

  lemma SameTaskOk(a: Authority, z: Authority, ids: set<Json>, t: Task, u: Task)
    requires InnerReordered(a, z) && SameTask(t, u) && TaskOk(a, ids, t)
    ensures TaskOk(z, ids, u) && u.taskId == t.taskId
    ensures SetOf(Items(u.supportsObligationIds)) == SetOf(Items(t.supportsObligationIds))
  {
    SameReferencesFacts(t.supportsObligationIds, u.supportsObligationIds);
    SameMembers(t.edges, u.edges);
    MapPermutation(t.edges, u.edges, (e: Edge) => e.obligationId);
    hide IsUniqueTextArray, IsNonEmptyText, Identical, Distinct, SetOf, SameReferences, EdgeOk;
    SameIdentifiers(a, z);
  }

  lemma SameIdentifiers(a: Authority, z: Authority)
    requires InnerReordered(a, z)
    ensures z.runAttemptId == a.runAttemptId && z.intentRevisionId == a.intentRevisionId
    ensures z.authorityContextRef == a.authorityContextRef && z.planRevisionId == a.planRevisionId
    ensures z.executionSnapshotRef == a.executionSnapshotRef && z.stopRef == a.stopRef
    ensures z.plan.obligations == a.plan.obligations
  {
  }

  lemma SamePlanOk(a: Authority, z: Authority)
    requires InnerReordered(a, z) && PlanOk(a)
    ensures PlanOk(z)
  {
    SameIdentifiers(a, z);
    var ids := SetOf(ObligationIds(a.plan.obligations));
    assert TaskIds(z.plan.tasks) == TaskIds(a.plan.tasks) by {
      forall i | 0 <= i < |a.plan.tasks| ensures z.plan.tasks[i].taskId == a.plan.tasks[i].taskId {
        assert SameTask(a.plan.tasks[i], z.plan.tasks[i]);
      }
    }
    hide TaskOk, Distinct, SetOf, SameTask, TaskIds, ObligationIds, InnerReordered, ObligationOk;
    forall u | u in z.plan.tasks ensures TaskOk(z, ids, u) {
      var i :| 0 <= i < |z.plan.tasks| && z.plan.tasks[i] == u;
      InnerTask(a, z, i);
      SameTaskOk(a, z, ids, a.plan.tasks[i], u);
    }
  }

  lemma InnerTask(a: Authority, z: Authority, i: nat)
    requires InnerReordered(a, z) && i < |z.plan.tasks|
    ensures i < |a.plan.tasks| && SameTask(a.plan.tasks[i], z.plan.tasks[i]) && a.plan.tasks[i] in a.plan.tasks
  {
  }

  lemma SameAttempt(a: Authority, z: Authority, b: Bundle, y: Bundle)
    requires InnerReordered(a, z) && SameBundle(b, y) && AttemptsPlannedTask(a.plan.tasks, b)
    ensures AttemptsPlannedTask(z.plan.tasks, y)
  {
    SameReferencesFacts(b.outcome.affectedObligationIds, y.outcome.affectedObligationIds);
    var t :| t in a.plan.tasks && t.taskId == b.attempt.taskId
             && SetOf(Items(b.outcome.affectedObligationIds)) <= SetOf(Items(t.supportsObligationIds));
    var i :| 0 <= i < |a.plan.tasks| && a.plan.tasks[i] == t;
    var u := z.plan.tasks[i];
    assert SameTask(t, u);
    SameReferencesFacts(t.supportsObligationIds, u.supportsObligationIds);
    assert u in z.plan.tasks && u.taskId == y.attempt.taskId;
  }

  lemma SameEvidence(a: Authority, z: Authority, b: Bundle, y: Bundle)
    requires InnerReordered(a, z) && SameBundle(b, y) && EvidenceOk(a, b)
    ensures EvidenceOk(z, y)
  {
    SameIdentifiers(a, z);
    SameReferencesFacts(b.outcome.evidenceRefs, y.outcome.evidenceRefs);
    SameMembers(b.entries, y.entries);
    MapPermutation(b.entries, y.entries, (e: EvidenceEntry) => e.evidenceRef);
    hide InnerReordered, SameReferences, Distinct, SetOf, IsNonEmptyText, EntryDescribed, Identical, Items;
  }

  lemma {:induction false} AtMostOneInOrder<T>(xs: seq<T>, ys: seq<T>)
    requires multiset(xs) == multiset(ys) && |xs| <= 1
    ensures xs == ys
  {
    assert |multiset(xs)| == |xs| && |multiset(ys)| == |ys|;
    if |xs| == 1 {
      assert xs == [xs[0]] && ys == [ys[0]];
      assert ys[0] in multiset(ys);
    }
  }

  lemma SameFailures(a: Authority, z: Authority, b: Bundle, y: Bundle)
    requires InnerReordered(a, z) && SameBundle(b, y) && FailuresOk(a, b)
    ensures FailuresOk(z, y)
  {
    SameIdentifiers(a, z);
    assert |FailureRefs(b.failures)| == |b.failures|;
    AtMostOneInOrder(b.failures, y.failures);
    hide InnerReordered, SameReferences, IsNonEmptyText, Identical;
  }

  lemma SameFields(a: Authority, z: Authority, b: Bundle, y: Bundle)
    requires InnerReordered(a, z) && SameBundle(b, y) && BundleFieldsOk(a, b)
    ensures BundleFieldsOk(z, y)
  {
    SameIdentifiers(a, z);
    SameReferencesFacts(b.outcome.evidenceRefs, y.outcome.evidenceRefs);
    SameReferencesFacts(b.outcome.affectedObligationIds, y.outcome.affectedObligationIds);
    SameReferencesFacts(b.outcome.limitationRefs, y.outcome.limitationRefs);
    ArrayOfReferences(b.outcome.evidenceRefs);
    ArrayOfReferences(y.outcome.evidenceRefs);
    hide InnerReordered, SameReferences, IsNonEmptyText, Identical, IsUniqueTextArray, Reads, IsCount, SetOf;
  }

  lemma ArrayOfReferences(v: Json)
    ensures IsUniqueTextArray(v) ==> v.Array? && Items(v) == v.items
  {
  }

  lemma SameBundleOk(a: Authority, z: Authority, i: nat)
    requires InnerReordered(a, z) && i < |z.bundles| && BundleOk(a, a.bundles[i])
    ensures BundleOk(z, z.bundles[i])
  {
    var b, y := a.bundles[i], z.bundles[i];
    assert SameBundle(b, y);
    hide InnerReordered, SameBundle, BundleFieldsOk, AttemptsPlannedTask, EvidenceOk, FailuresOk;
    SameFields(a, z, b, y);
    SameAttempt(a, z, b, y);
    SameEvidence(a, z, b, y);
    SameFailures(a, z, b, y);
  }

  lemma {:induction false} CollectPointwise<S, T>(xs: seq<S>, ys: seq<S>, refs: S -> seq<T>)
    requires |xs| == |ys| && forall i | 0 <= i < |xs| :: multiset(refs(xs[i])) == multiset(refs(ys[i]))
    ensures multiset(Collect(xs, refs)) == multiset(Collect(ys, refs))
  {
    if xs != [] {
      var n := |xs| - 1;
      assert multiset(refs(xs[n])) == multiset(refs(ys[n]));
      CollectPointwise(xs[..n], ys[..n], refs);
    }
  }

  lemma SameReferencesOfBundles(a: Authority, z: Authority)
    requires InnerReordered(a, z)
    ensures AttemptedTaskIds(z.bundles) == AttemptedTaskIds(a.bundles)
    ensures AttemptIds(z.bundles) == AttemptIds(a.bundles)
    ensures OutcomeRefs(z.bundles) == OutcomeRefs(a.bundles)
    ensures UsedBudget(z.bundles) == UsedBudget(a.bundles)
  {
    forall i | 0 <= i < |a.bundles|
      ensures z.bundles[i].attempt == a.bundles[i].attempt
              && z.bundles[i].outcome.outcomeRef == a.bundles[i].outcome.outcomeRef
      ensures Units(z.bundles[i]) == Units(a.bundles[i])
    {
      assert SameBundle(a.bundles[i], z.bundles[i]);
    }
    hide InnerReordered;
    TotalAgree(z.bundles, a.bundles, Units, Units);
  }

  lemma SamePiecesOfBundles(a: Authority, z: Authority)
    requires InnerReordered(a, z)
    ensures multiset(AllEntryRefs(z.bundles)) == multiset(AllEntryRefs(a.bundles))
    ensures multiset(AllFailureRefs(z.bundles)) == multiset(AllFailureRefs(a.bundles))
  {
    forall i | 0 <= i < |a.bundles|
      ensures multiset(EntryRefs(a.bundles[i].entries)) == multiset(EntryRefs(z.bundles[i].entries))
      ensures multiset(FailureRefs(a.bundles[i].failures)) == multiset(FailureRefs(z.bundles[i].failures))
    {
      assert SameBundle(a.bundles[i], z.bundles[i]);
      MapMultiset(a.bundles[i].entries, z.bundles[i].entries, (e: EvidenceEntry) => e.entryRef);
      MapMultiset(a.bundles[i].failures, z.bundles[i].failures, (f: FailureRecord) => f.failureRef);
    }
    hide InnerReordered;
    CollectPointwise(a.bundles, z.bundles, (b: Bundle) => EntryRefs(b.entries));
    CollectPointwise(a.bundles, z.bundles, (b: Bundle) => FailureRefs(b.failures));
  }

  lemma SameRecordsAgree(a: Authority, z: Authority)
    requires InnerReordered(a, z) && RecordsAgree(a)
    ensures RecordsAgree(z)
  {
    SameReferencesFacts(a.snapshot.outcomeRefs, z.snapshot.outcomeRefs);
    SameReferencesFacts(a.snapshot.evidenceEntryRefs, z.snapshot.evidenceEntryRefs);
    SameReferencesFacts(a.snapshot.failureRefs, z.snapshot.failureRefs);
    SameReferencesFacts(a.stop.evaluatedOutcomeRefs, z.stop.evaluatedOutcomeRefs);
    hide SameReferences, SameBundle, SameTask, IsUniqueTextArray, Identical, IsCount, SetOf;
  }

  lemma SameAccounts(a: Authority, z: Authority)
    requires InnerReordered(a, z) && AccountsBalance(a)
    ensures AccountsBalance(z)
  {
    SameReferencesFacts(a.snapshot.outcomeRefs, z.snapshot.outcomeRefs);
    SameReferencesFacts(a.snapshot.evidenceEntryRefs, z.snapshot.evidenceEntryRefs);
    SameReferencesFacts(a.snapshot.failureRefs, z.snapshot.failureRefs);
    SameReferencesFacts(a.stop.evaluatedOutcomeRefs, z.stop.evaluatedOutcomeRefs);
    SameReferencesOfBundles(a, z);
    SamePiecesOfBundles(a, z);
    SameSetOf(AllEntryRefs(a.bundles), AllEntryRefs(z.bundles));
    SameSetOf(AllFailureRefs(a.bundles), AllFailureRefs(z.bundles));
    SameTasksOfPlan(a, z);
    EveryTaskAttemptedAsSets(a);
    EveryTaskAttemptedAsSets(z);
    hide SameReferences, SameBundle, SameTask, IsUniqueTextArray, SetOf, EveryTaskAttempted, Items, AllEntryRefs,
         AllFailureRefs, OutcomeRefs, AttemptedTaskIds, TaskIds, UsedBudget;
  }

  lemma SameTasksOfPlan(a: Authority, z: Authority)
    requires InnerReordered(a, z)
    ensures TaskIds(z.plan.tasks) == TaskIds(a.plan.tasks)
  {
    forall i | 0 <= i < |a.plan.tasks| ensures z.plan.tasks[i].taskId == a.plan.tasks[i].taskId {
      assert SameTask(a.plan.tasks[i], z.plan.tasks[i]);
    }
  }

  lemma SameClosure(a: Authority, z: Authority)
    requires InnerReordered(a, z) && Closed(a)
    ensures Closed(z)
  {
    hide InnerReordered, RecordsAgree, PlanOk, AccountsBalance, BundleOk, Distinct, AllEntryRefs, AllFailureRefs,
         OutcomeRefs, AttemptedTaskIds, AttemptIds;
    SameRecordsAgree(a, z);
    SamePlanOk(a, z);
    SameAccounts(a, z);
    SameReferencesOfBundles(a, z);
    SamePiecesOfBundles(a, z);
    SameSetOf(AllEntryRefs(a.bundles), AllEntryRefs(z.bundles));
    SameSetOf(AllFailureRefs(a.bundles), AllFailureRefs(z.bundles));
    forall y | y in z.bundles ensures BundleOk(z, y) {
      var i :| 0 <= i < |z.bundles| && z.bundles[i] == y;
      InnerBundle(a, z, i);
      SameBundleOk(a, z, i);
    }
  }

  lemma InnerBundle(a: Authority, z: Authority, i: nat)
    requires InnerReordered(a, z) && i < |z.bundles|
    ensures i < |a.bundles| && SameBundle(a.bundles[i], z.bundles[i]) && a.bundles[i] in a.bundles
  {
  }

  lemma InnerReorderedBack(a: Authority, z: Authority)
    requires InnerReordered(a, z)
    ensures InnerReordered(z, a)
  {
    hide SameReferences;
    SameListsBack(a, z);
    forall i | 0 <= i < |a.bundles| ensures SameBundle(z.bundles[i], a.bundles[i]) {
      SameBundleBack(a.bundles[i], z.bundles[i]);
    }
    forall i | 0 <= i < |a.plan.tasks| ensures SameTask(z.plan.tasks[i], a.plan.tasks[i]) {
      var t, u := a.plan.tasks[i], z.plan.tasks[i];
      assert SameTask(t, u);
      SameReferencesFacts(t.supportsObligationIds, u.supportsObligationIds);
    }
    hide SameBundle, SameTask, SameLists;
  }

  lemma SameBundleBack(b: Bundle, y: Bundle)
    requires SameBundle(b, y)
    ensures SameBundle(y, b)
  {
    SameReferencesFacts(b.outcome.evidenceRefs, y.outcome.evidenceRefs);
    SameReferencesFacts(b.outcome.affectedObligationIds, y.outcome.affectedObligationIds);
    SameReferencesFacts(b.outcome.limitationRefs, y.outcome.limitationRefs);
    hide SameReferences;
  }

  lemma SameListsBack(a: Authority, z: Authority)
    requires SameLists(a, z)
    ensures SameLists(z, a)
  {
    SameReferencesFacts(a.snapshot.outcomeRefs, z.snapshot.outcomeRefs);
    SameReferencesFacts(a.snapshot.evidenceEntryRefs, z.snapshot.evidenceEntryRefs);
    SameReferencesFacts(a.snapshot.failureRefs, z.snapshot.failureRefs);
    SameReferencesFacts(a.stop.evaluatedOutcomeRefs, z.stop.evaluatedOutcomeRefs);
    hide SameReferences;
  }

  /** Entries, failures, edges and references may come in any order. */
  lemma InnerOrderDoesNotMatter(a: Authority, z: Authority)
    requires InnerReordered(a, z)
    ensures Closed(a) <==> Closed(z)
  {
    InnerReorderedBack(a, z);
    hide InnerReordered, Closed;
    if Closed(a) { SameClosure(a, z); }
    if Closed(z) { SameClosure(z, a); }
  }
}
