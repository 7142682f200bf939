/** When an execution result closes over itself: its plan, attempts, outcomes, evidence, failures,
  * snapshot and stop record refer to one another without a gap or a repetition. This is what the
  * gateway (`hasExecutionProjectionClosure`) and the agent core (`isValidAuthoritativeExecutionResult`)
  * both decide in one pass; the two loops they share word for word are here as well. */
module ExecutionClosure {
  import opened Sets
  import opened CanonicalJson
  import opened Totals
  import opened References
  import opened ExecutionRecords

  function Units(b: Bundle): real {
    if b.outcome.budgetUnits.Number? then b.outcome.budgetUnits.value else 0.0
  }

  // ---- References held by lists of records ----

  function ObligationIds(obligations: seq<Obligation>): seq<Json> {
    Map(obligations, (o: Obligation) => o.obligationId)
  }
  function EdgeIds(edges: seq<Edge>): seq<Json> { Map(edges, (e: Edge) => e.obligationId) }
  function TaskIds(tasks: seq<Task>): seq<Json> { Map(tasks, (t: Task) => t.taskId) }
  function EntryRefs(entries: seq<EvidenceEntry>): seq<Json> { Map(entries, (e: EvidenceEntry) => e.entryRef) }
  function EvidenceRefs(entries: seq<EvidenceEntry>): seq<Json> { Map(entries, (e: EvidenceEntry) => e.evidenceRef) }
  function FailureRefs(failures: seq<FailureRecord>): seq<Json> { Map(failures, (f: FailureRecord) => f.failureRef) }
  function AttemptedTaskIds(bundles: seq<Bundle>): seq<Json> { Map(bundles, (b: Bundle) => b.attempt.taskId) }
  function AttemptIds(bundles: seq<Bundle>): seq<Json> { Map(bundles, (b: Bundle) => b.attempt.attemptId) }
  function OutcomeRefs(bundles: seq<Bundle>): seq<Json> { Map(bundles, (b: Bundle) => b.outcome.outcomeRef) }
  function AllEntryRefs(bundles: seq<Bundle>): seq<Json> { Collect(bundles, (b: Bundle) => EntryRefs(b.entries)) }
  function AllFailureRefs(bundles: seq<Bundle>): seq<Json> { Collect(bundles, (b: Bundle) => FailureRefs(b.failures)) }
  function UsedBudget(bundles: seq<Bundle>): real { Total(bundles, Units) }

  // ---- What closure means ----

  /** The parts are of this result, list their references without repetition, and count in safe integers. */
  predicate RecordsAgree(a: Authority) {
    && Identical(a.plan.runAttemptId, a.runAttemptId)
    && Identical(a.plan.intentRevisionId, a.intentRevisionId)
    && Identical(a.plan.authorityContextRef, a.authorityContextRef)
    && Identical(a.plan.planRevisionId, a.planRevisionId)
    && a.plan.tasksAreArray && a.plan.obligationsAreArray
    && Identical(a.snapshot.executionSnapshotRef, a.executionSnapshotRef)
    && Identical(a.snapshot.runAttemptId, a.runAttemptId)
    && Identical(a.snapshot.authorityContextRef, a.authorityContextRef)
    && Identical(a.snapshot.planRevisionId, a.planRevisionId)
    && Identical(a.snapshot.stopRef, a.stopRef)
    && IsUniqueTextArray(a.snapshot.outcomeRefs)
    && IsUniqueTextArray(a.snapshot.evidenceEntryRefs)
    && IsUniqueTextArray(a.snapshot.failureRefs)
    && Identical(a.stop.stopRef, a.stopRef)
    && Identical(a.stop.runAttemptId, a.runAttemptId)
    && Identical(a.stop.planRevisionId, a.planRevisionId)
    && IsUniqueTextArray(a.stop.evaluatedOutcomeRefs)
    && IsCount(a.stop.usedBudgetUnits)
    && (a.stop.hardBudgetLimit == Null || IsCount(a.stop.hardBudgetLimit))
  }

  predicate ObligationOk(o: Obligation) {
    && o.isRecord && IsNonEmptyText(o.obligationId) && IsNonEmptyText(o.claimKind) && IsNonEmptyText(o.role)
    && o.requirementIsRecord && o.operator == Text("any_of")
    && IsUniqueTextArray(o.evidenceKinds) && o.evidenceKinds.items != []
  }

  predicate ObligationsOk(obligations: seq<Obligation>) {
    && (forall o | o in obligations :: ObligationOk(o))
    && Distinct(ObligationIds(obligations))
  }

  predicate EdgeOk(obligationIds: set<Json>, e: Edge) {
    e.isRecord && IsNonEmptyText(e.obligationId) && e.obligationId in obligationIds && e.required.Bool?
  }

  predicate EdgesOk(obligationIds: set<Json>, edges: seq<Edge>) {
    && (forall e | e in edges :: EdgeOk(obligationIds, e))
    && Distinct(EdgeIds(edges))
  }

  predicate TaskFieldsOk(a: Authority, t: Task) {
    && t.isRecord && IsNonEmptyText(t.taskId)
    && Identical(t.planRevisionId, a.planRevisionId)
    && Identical(t.authorityContextRef, a.authorityContextRef)
    && IsNonEmptyText(t.capabilityId)
    && t.edgesAreArray && IsUniqueTextArray(t.supportsObligationIds)
  }

  predicate TaskOk(a: Authority, obligationIds: set<Json>, t: Task) {
    && TaskFieldsOk(a, t)
    && EdgesOk(obligationIds, t.edges)
    && SetOf(Items(t.supportsObligationIds)) <= SetOf(EdgeIds(t.edges))
  }

  predicate TasksOk(a: Authority, obligationIds: set<Json>, tasks: seq<Task>) {
    && (forall t | t in tasks :: TaskOk(a, obligationIds, t))
    && Distinct(TaskIds(tasks))
  }

  predicate BundleFieldsOk(a: Authority, b: Bundle) {
    && b.isRecord && b.hasItsFourFields && b.attempt.isRecord && b.outcome.isRecord
    && b.entriesAreArray && b.failuresAreArray
    && IsNonEmptyText(b.attempt.taskId) && IsNonEmptyText(b.attempt.attemptId) && IsNonEmptyText(b.outcome.outcomeRef)
    && Identical(b.attempt.runAttemptId, a.runAttemptId)
    && Identical(b.attempt.intentRevisionId, a.intentRevisionId)
    && Identical(b.attempt.planRevisionId, a.planRevisionId)
    && IsCount(b.attempt.executionAttempt) && b.attempt.executionAttempt.value >= 1.0
    && Identical(b.outcome.runAttemptId, a.runAttemptId)
    && Identical(b.outcome.planRevisionId, a.planRevisionId)
    && Identical(b.outcome.taskId, b.attempt.taskId)
    && Identical(b.outcome.attemptId, b.attempt.attemptId)
    && Identical(b.outcome.inputDigest, b.attempt.inputDigest)
    && Reads(b.outcome.status, OUTCOME_STATUSES)
    && IsUniqueTextArray(b.outcome.evidenceRefs)
    && IsUniqueTextArray(b.outcome.affectedObligationIds)
    && IsUniqueTextArray(b.outcome.limitationRefs)
    && IsCount(b.outcome.budgetUnits)
    && (b.outcome.failureRef == Null || IsNonEmptyText(b.outcome.failureRef))
    && (b.outcome.status == Text("succeeded") ==> b.outcome.evidenceRefs.items != [])
    && (b.outcome.status == Text("integrity_failed") || b.outcome.status == Text("technical_failed")
        ==> b.outcome.failureRef != Null)
  }

  /** The attempt is at a task of the plan and affects only what that task supports. */
  predicate AttemptsPlannedTask(tasks: seq<Task>, b: Bundle) {
    exists t :: t in tasks && t.taskId == b.attempt.taskId
                && SetOf(Items(b.outcome.affectedObligationIds)) <= SetOf(Items(t.supportsObligationIds))
  }

  /** An entry for this outcome. Its state and its kind are left to the validators, which differ there. */
  predicate EntryOk(a: Authority, b: Bundle, e: EvidenceEntry) {
    && e.isRecord && IsNonEmptyText(e.entryRef) && IsNonEmptyText(e.evidenceRef)
    && Identical(e.runAttemptId, a.runAttemptId)
    && Identical(e.authorityContextRef, a.authorityContextRef)
    && Identical(e.planRevisionId, a.planRevisionId)
    && Identical(e.taskId, b.attempt.taskId)
    && Identical(e.outcomeRef, b.outcome.outcomeRef)
    && EntryDescribed(e)
  }

  predicate EntryDescribed(e: EvidenceEntry) {
    && IsNonEmptyText(e.dataContractState) && IsNonEmptyText(e.evidenceStrength)
    && IsNonEmptyText(e.maximumClaimStrength) && IsNonEmptyText(e.scope)
    && IsUniqueTextArray(e.supportedClaimKinds) && IsUniqueTextArray(e.windowRefs) && IsUniqueTextArray(e.resultRefs)
    && IsUniqueTextArray(e.completenessReportRefs) && IsUniqueTextArray(e.dimensionPath)
    && e.hierarchyQualified.Bool? && IsUniqueTextArray(e.limitationRefs)
  }

  predicate FailureOk(a: Authority, b: Bundle, f: FailureRecord) {
    && f.isRecord && IsNonEmptyText(f.failureRef)
    && Identical(f.runAttemptId, a.runAttemptId)
    && Identical(f.planRevisionId, a.planRevisionId)
    && Identical(f.taskId, b.attempt.taskId)
    && Identical(f.attemptId, b.attempt.attemptId)
    && IsNonEmptyText(f.scope) && IsNonEmptyText(f.integrityLevel) && IsNonEmptyText(f.retryability)
    && f.userActionable.Bool? && IsNonEmptyText(f.businessBoundary)
  }

  /** The entries are for this outcome, and there is exactly one for each evidence it names. */
  predicate EvidenceOk(a: Authority, b: Bundle) {
    && (forall e | e in b.entries :: EntryOk(a, b, e))
    && Distinct(EvidenceRefs(b.entries))
    && SetOf(EvidenceRefs(b.entries)) == SetOf(Items(b.outcome.evidenceRefs))
  }

  /** The one failure record is the one the outcome names; without a name there is none. */
  predicate FailuresOk(a: Authority, b: Bundle) {
    && (forall f | f in b.failures :: FailureOk(a, b, f))
    && FailureRefs(b.failures) == if b.outcome.failureRef == Null then [] else [b.outcome.failureRef]
  }

  predicate BundleOk(a: Authority, b: Bundle) {
    && BundleFieldsOk(a, b)
    && AttemptsPlannedTask(a.plan.tasks, b)
    && EvidenceOk(a, b)
    && FailuresOk(a, b)
  }

  /** No two bundles share a task, an attempt, an outcome, an evidence entry or a failure. */
  predicate NothingShared(bundles: seq<Bundle>) {
    && Distinct(AttemptedTaskIds(bundles))
    && Distinct(AttemptIds(bundles))
    && Distinct(OutcomeRefs(bundles))
    && Distinct(AllEntryRefs(bundles))
    && Distinct(AllFailureRefs(bundles))
  }

  predicate BundlesOk(a: Authority, bundles: seq<Bundle>) {
    (forall b | b in bundles :: BundleOk(a, b)) && NothingShared(bundles)
  }

  predicate PlanOk(a: Authority) {
    && ObligationsOk(a.plan.obligations)
    && TasksOk(a, SetOf(ObligationIds(a.plan.obligations)), a.plan.tasks)
  }

  predicate EveryTaskAttempted(a: Authority) {
    forall t | t in a.plan.tasks :: exists b :: b in a.bundles && b.attempt.taskId == t.taskId
  }

  /** The snapshot and the stop record name exactly what the bundles hold, and the stop is justified. */
  predicate AccountsBalance(a: Authority) {
    && a.stop.usedBudgetUnits == Number(UsedBudget(a.bundles))
    && (a.stop.reason == Text("plan_exhausted") ==> EveryTaskAttempted(a))
    && (a.stop.reason == Text("hard_budget_reached") ==>
          a.stop.hardBudgetLimit.Number? && UsedBudget(a.bundles) >= a.stop.hardBudgetLimit.value)
    && SetOf(Items(a.snapshot.outcomeRefs)) == SetOf(OutcomeRefs(a.bundles))
    && SetOf(Items(a.stop.evaluatedOutcomeRefs)) == SetOf(OutcomeRefs(a.bundles))
    && SetOf(Items(a.snapshot.evidenceEntryRefs)) == SetOf(AllEntryRefs(a.bundles))
    && SetOf(Items(a.snapshot.failureRefs)) == SetOf(AllFailureRefs(a.bundles))
  }

  predicate Closed(a: Authority) {
    RecordsAgree(a) && PlanOk(a) && BundlesOk(a, a.bundles) && AccountsBalance(a)
  }

  // ---- What the passes rely on ----

  /** What meeting the next reference says about the list, when the ones before it are known. */
  lemma NextReference(keys: seq<Json>, i: nat, seen: set<Json>)
    requires i < |keys| && Distinct(keys[..i]) && seen == SetOf(keys[..i])
    ensures keys[i] in seen ==> !Distinct(keys)
    ensures keys[i] !in seen ==> Distinct(keys[..i + 1]) && SetOf(keys[..i + 1]) == seen + {keys[i]}
  {
    assert keys[..i + 1] == keys[..i] + [keys[i]];
    DistinctSnoc(keys[..i], keys[i]);
    SetOfSnoc(keys[..i], keys[i]);
  }

  lemma NoReferenceYet(keys: seq<Json>)
    ensures Distinct(keys[..0]) && SetOf(keys[..0]) == {}
  {
  }

  method CollectObligations(obligations: seq<Obligation>) returns (ok: bool, ids: set<Json>)
    ensures ok <==> ObligationsOk(obligations)
    ensures ok ==> ids == SetOf(ObligationIds(obligations))
  {
    hide ObligationOk, Distinct, SetOf;
    ids := {};
    ghost var keys := ObligationIds(obligations);
    NoReferenceYet(keys);
    for i := 0 to |obligations|
      invariant forall j | 0 <= j < i :: ObligationOk(obligations[j])
      invariant Distinct(keys[..i]) && ids == SetOf(keys[..i])
    {
      var obligation := obligations[i];
      NextReference(keys, i, ids);
      if !ObligationOk(obligation) || obligation.obligationId in ids {
        return false, {};
      }
      ids := ids + {obligation.obligationId};
    }
    assert keys[..|obligations|] == keys;
    ok := true;
  }

  method CollectEdges(obligationIds: set<Json>, edges: seq<Edge>) returns (ok: bool, ids: set<Json>)
    ensures ok <==> EdgesOk(obligationIds, edges)
    ensures ok ==> ids == SetOf(EdgeIds(edges))
  {
    hide EdgeOk, Distinct, SetOf;
    ids := {};
    ghost var keys := EdgeIds(edges);
    NoReferenceYet(keys);
    for i := 0 to |edges|
      invariant forall j | 0 <= j < i :: EdgeOk(obligationIds, edges[j])
      invariant Distinct(keys[..i]) && ids == SetOf(keys[..i])
    {
      var edge := edges[i];
      NextReference(keys, i, ids);
      if !EdgeOk(obligationIds, edge) || edge.obligationId in ids {
        return false, {};
      }
      ids := ids + {edge.obligationId};
    }
    assert keys[..|edges|] == keys;
    ok := true;
  }

  method CheckTask(a: Authority, obligationIds: set<Json>, t: Task) returns (ok: bool)
    ensures ok <==> TaskOk(a, obligationIds, t)
  {
    if !TaskFieldsOk(a, t) {
      return false;
    }
    var edgesOk, edgeIds := CollectEdges(obligationIds, t.edges);
    ok := edgesOk && forall id | id in t.supportsObligationIds.items :: id in edgeIds;
  }

  ghost predicate IsIndex(index: map<Json, Task>, tasks: seq<Task>) {
    && index.Keys == SetOf(TaskIds(tasks))
    && forall t | t in tasks :: t.taskId in index && index[t.taskId] == t
  }

  method IndexTasks(a: Authority, obligationIds: set<Json>) returns (ok: bool, index: map<Json, Task>)
    ensures ok <==> TasksOk(a, obligationIds, a.plan.tasks)
    ensures ok ==> IsIndex(index, a.plan.tasks)
  {
    hide TaskOk, Distinct, SetOf;
    index := map[];
    var tasks := a.plan.tasks;
    ghost var keys := TaskIds(tasks);
    NoReferenceYet(keys);
    for i := 0 to |tasks|
      invariant forall j | 0 <= j < i :: TaskOk(a, obligationIds, tasks[j])
      invariant Distinct(keys[..i]) && index.Keys == SetOf(keys[..i])
      invariant forall j | 0 <= j < i :: keys[j] in index && index[keys[j]] == tasks[j]
    {
      var task := tasks[i];
      NextReference(keys, i, index.Keys);
      var taskOk := CheckTask(a, obligationIds, task);
      if !taskOk || task.taskId in index {
        return false, map[];
      }
      index := index[task.taskId := task];
    }
    assert keys[..|tasks|] == keys;
    ok := true;
  }

  predicate Untaken(keys: seq<Json>, taken: set<Json>) { forall k | k in keys :: k !in taken }

  lemma OneReference(keys: seq<Json>, k: Json)
    requires Distinct(keys)
    ensures SetOf(keys) == {k} <==> keys == [k]
  {
    SizeTellsDistinct(keys);
    if SetOf(keys) == {k} { assert keys[0] in SetOf(keys); }
  }

  lemma NoReference(keys: seq<Json>)
    ensures SetOf(keys) == {} <==> keys == []
  {
    if keys != [] { assert keys[0] in SetOf(keys); }
  }

  lemma IndexFindsPlannedTask(tasks: seq<Task>, index: map<Json, Task>, b: Bundle)
    requires IsIndex(index, tasks)
    ensures AttemptsPlannedTask(tasks, b)
            <==> && b.attempt.taskId in index
                 && SetOf(Items(b.outcome.affectedObligationIds))
                    <= SetOf(Items(index[b.attempt.taskId].supportsObligationIds))
  {
    if b.attempt.taskId in index {
      var keys := TaskIds(tasks);
      assert b.attempt.taskId in SetOf(keys);
      var i :| 0 <= i < |keys| && keys[i] == b.attempt.taskId;
      assert tasks[i] in tasks;
    }
  }

  lemma NamedFailures(keys: seq<Json>, failureRef: Json, own: set<Json>, expected: set<Json>)
    requires Distinct(keys) && own == SetOf(keys) && expected == if failureRef == Null then {} else {failureRef}
    ensures keys == (if failureRef == Null then [] else [failureRef])
            <==> |own| == |expected| && forall r | r in own :: r in expected
  {
    OneReference(keys, failureRef);
    NoReference(keys);
    if |own| == |expected| && own <= expected { SubsetOfEqualSize(own, expected); }
  }

  // ---- All bundles ----

  /** What one pass over the bundles has gathered. */
  datatype Seen = Seen(
    attemptedTaskIds: set<Json>, attemptIds: set<Json>, outcomeRefs: set<Json>,
    evidenceEntryRefs: set<Json>, failureRefs: set<Json>, usedBudgetUnits: real)

  predicate Gathered(seen: Seen, bundles: seq<Bundle>) {
    && seen.attemptedTaskIds == SetOf(AttemptedTaskIds(bundles))
    && seen.attemptIds == SetOf(AttemptIds(bundles))
    && seen.outcomeRefs == SetOf(OutcomeRefs(bundles))
    && seen.evidenceEntryRefs == SetOf(AllEntryRefs(bundles))
    && seen.failureRefs == SetOf(AllFailureRefs(bundles))
    && seen.usedBudgetUnits == UsedBudget(bundles)
  }

  predicate SharesNothingWith(seen: Seen, b: Bundle) {
    && b.attempt.taskId !in seen.attemptedTaskIds
    && b.attempt.attemptId !in seen.attemptIds
    && b.outcome.outcomeRef !in seen.outcomeRefs
    && Distinct(EntryRefs(b.entries)) && Untaken(EntryRefs(b.entries), seen.evidenceEntryRefs)
    && Untaken(FailureRefs(b.failures), seen.failureRefs)
  }

  function With(seen: Seen, b: Bundle): Seen {
    Seen(seen.attemptedTaskIds + {b.attempt.taskId},
         seen.attemptIds + {b.attempt.attemptId},
         seen.outcomeRefs + {b.outcome.outcomeRef},
         seen.evidenceEntryRefs + SetOf(EntryRefs(b.entries)),
         seen.failureRefs + SetOf(FailureRefs(b.failures)),
         seen.usedBudgetUnits + Units(b))
  }

  /** The references of one bundle more. */
  lemma OneBundleMore(bundles: seq<Bundle>, b: Bundle)
    ensures AttemptedTaskIds(bundles + [b]) == AttemptedTaskIds(bundles) + [b.attempt.taskId]
    ensures AttemptIds(bundles + [b]) == AttemptIds(bundles) + [b.attempt.attemptId]
    ensures OutcomeRefs(bundles + [b]) == OutcomeRefs(bundles) + [b.outcome.outcomeRef]
    ensures AllEntryRefs(bundles + [b]) == AllEntryRefs(bundles) + EntryRefs(b.entries)
    ensures AllFailureRefs(bundles + [b]) == AllFailureRefs(bundles) + FailureRefs(b.failures)
    ensures UsedBudget(bundles + [b]) == UsedBudget(bundles) + Units(b)
  {
    assert (bundles + [b])[..|bundles|] == bundles;
    TotalSnoc(bundles, b, Units);
  }

  lemma GatheredStep(seen: Seen, bundles: seq<Bundle>, b: Bundle)
    requires Gathered(seen, bundles)
    ensures Gathered(With(seen, b), bundles + [b])
  {
    OneBundleMore(bundles, b);
    hide AttemptedTaskIds, AttemptIds, OutcomeRefs, AllEntryRefs, AllFailureRefs, UsedBudget, EntryRefs, FailureRefs;
  }

  lemma NamedFailuresAreDistinct(a: Authority, b: Bundle)
    requires FailuresOk(a, b)
    ensures Distinct(FailureRefs(b.failures))
  {
  }

  lemma NothingSharedStep(seen: Seen, bundles: seq<Bundle>, b: Bundle)
    requires Gathered(seen, bundles) && Distinct(FailureRefs(b.failures))
    ensures NothingShared(bundles + [b]) <==> NothingShared(bundles) && SharesNothingWith(seen, b)
  {
    OneBundleMore(bundles, b);
    DistinctSnoc(AttemptedTaskIds(bundles), b.attempt.taskId);
    DistinctSnoc(AttemptIds(bundles), b.attempt.attemptId);
    DistinctSnoc(OutcomeRefs(bundles), b.outcome.outcomeRef);
    DistinctAppend(AllEntryRefs(bundles), EntryRefs(b.entries));
    DistinctAppend(AllFailureRefs(bundles), FailureRefs(b.failures));
    hide Distinct, AttemptedTaskIds, AttemptIds, OutcomeRefs, AllEntryRefs, AllFailureRefs, EntryRefs, FailureRefs,
         UsedBudget;
  }

  lemma BundlesStep(a: Authority, seen: Seen, bundles: seq<Bundle>, b: Bundle)
    requires Gathered(seen, bundles)
    ensures BundlesOk(a, bundles + [b])
            <==> BundlesOk(a, bundles) && BundleOk(a, b) && SharesNothingWith(seen, b)
  {
    if BundleOk(a, b) {
      NamedFailuresAreDistinct(a, b);
      NothingSharedStep(seen, bundles, b);
    }
    hide Gathered, BundleOk, NothingShared, SharesNothingWith;
    assert b in bundles + [b];
    assert forall x | x in bundles :: x in bundles + [b];
  }

  lemma GatherAll(bundles: seq<Bundle>) returns (seen: Seen)
    ensures Gathered(seen, bundles)
  {
    seen := Seen(SetOf(AttemptedTaskIds(bundles)), SetOf(AttemptIds(bundles)), SetOf(OutcomeRefs(bundles)),
                 SetOf(AllEntryRefs(bundles)), SetOf(AllFailureRefs(bundles)), UsedBudget(bundles));
  }

  lemma {:induction false} BundlesPrefix(a: Authority, bundles: seq<Bundle>, n: nat)
    requires n <= |bundles| && BundlesOk(a, bundles)
    ensures BundlesOk(a, bundles[..n])
    decreases |bundles| - n
  {
    if n < |bundles| {
      BundlesPrefix(a, bundles, n + 1);
      assert bundles[..n + 1] == bundles[..n] + [bundles[n]];
      hide BundlesOk, Gathered;
      var seen := GatherAll(bundles[..n]);
      BundlesStep(a, seen, bundles[..n], bundles[n]);
    } else {
      assert bundles[..n] == bundles;
    }
  }

  lemma NothingGatheredYet(a: Authority)
    ensures Gathered(Seen({}, {}, {}, {}, {}, 0.0), []) && BundlesOk(a, [])
  {
  }

  // ---- The verdict ----

  /** The last comparisons, on what was gathered. */
  predicate Balanced(a: Authority, index: map<Json, Task>, seen: Seen) {
    && a.stop.usedBudgetUnits == Number(seen.usedBudgetUnits)
    && (a.stop.reason != Text("plan_exhausted") || |seen.attemptedTaskIds| == |index|)
    && (a.stop.reason != Text("hard_budget_reached")
        || (a.stop.hardBudgetLimit.Number? && seen.usedBudgetUnits >= a.stop.hardBudgetLimit.value))
    && SameTextSet(Items(a.snapshot.outcomeRefs), seen.outcomeRefs)
    && SameTextSet(Items(a.stop.evaluatedOutcomeRefs), seen.outcomeRefs)
    && SameTextSet(Items(a.snapshot.evidenceEntryRefs), seen.evidenceEntryRefs)
    && SameTextSet(Items(a.snapshot.failureRefs), seen.failureRefs)
  }

  lemma AttemptsAreAtPlannedTasks(a: Authority)
    requires BundlesOk(a, a.bundles)
    ensures SetOf(AttemptedTaskIds(a.bundles)) <= SetOf(TaskIds(a.plan.tasks))
  {
    hide BundleFieldsOk, EvidenceOk, FailuresOk, NothingShared;
    forall k | k in SetOf(AttemptedTaskIds(a.bundles)) ensures k in SetOf(TaskIds(a.plan.tasks)) {
      var i :| 0 <= i < |a.bundles| && AttemptedTaskIds(a.bundles)[i] == k;
      assert BundleOk(a, a.bundles[i]);
      var t :| t in a.plan.tasks && t.taskId == k;
      var j :| 0 <= j < |a.plan.tasks| && a.plan.tasks[j] == t;
      assert TaskIds(a.plan.tasks)[j] == k;
    }
  }

  lemma EveryTaskAttemptedAsSets(a: Authority)
    ensures EveryTaskAttempted(a) <==> SetOf(TaskIds(a.plan.tasks)) <= SetOf(AttemptedTaskIds(a.bundles))
  {
    var tasks, attempted := TaskIds(a.plan.tasks), AttemptedTaskIds(a.bundles);
    if EveryTaskAttempted(a) {
      forall k | k in tasks ensures k in attempted {
        var i :| 0 <= i < |tasks| && tasks[i] == k;
        assert a.plan.tasks[i] in a.plan.tasks;
        var b :| b in a.bundles && b.attempt.taskId == k;
        var j :| 0 <= j < |a.bundles| && a.bundles[j] == b;
        assert attempted[j] == k;
      }
    }
    if SetOf(tasks) <= SetOf(attempted) {
      forall t | t in a.plan.tasks ensures exists b :: b in a.bundles && b.attempt.taskId == t.taskId {
        var i :| 0 <= i < |a.plan.tasks| && a.plan.tasks[i] == t;
        assert tasks[i] in SetOf(tasks);
        var j :| 0 <= j < |attempted| && attempted[j] == tasks[i];
        assert a.bundles[j] in a.bundles;
      }
    }
  }

  /** Counting the attempted tasks decides whether the plan is exhausted. */
  lemma ExhaustedByCounting(a: Authority)
    requires BundlesOk(a, a.bundles)
    ensures |SetOf(AttemptedTaskIds(a.bundles))| == |SetOf(TaskIds(a.plan.tasks))| <==> EveryTaskAttempted(a)
  {
    AttemptsAreAtPlannedTasks(a);
    EveryTaskAttemptedAsSets(a);
    var attempted, planned := SetOf(AttemptedTaskIds(a.bundles)), SetOf(TaskIds(a.plan.tasks));
    if |attempted| == |planned| { SubsetOfEqualSize(attempted, planned); }
    if planned <= attempted { assert attempted == planned; }
  }

  lemma SameListedSet(v: Json, expected: set<Json>)
    requires IsUniqueTextArray(v)
    ensures SameTextSet(Items(v), expected) <==> SetOf(Items(v)) == expected
  {
    UniqueTextsAreDistinct(v);
    SameTextSetIsEquality(v.items, expected);
  }

  lemma BalancedMeansAccountsBalance(a: Authority, index: map<Json, Task>, seen: Seen)
    requires RecordsAgree(a) && IsIndex(index, a.plan.tasks)
    requires BundlesOk(a, a.bundles) && Gathered(seen, a.bundles)
    ensures Balanced(a, index, seen) <==> AccountsBalance(a)
  {
    ExhaustedByCounting(a);
    assert |index| == |index.Keys|;
    SameListedSet(a.snapshot.outcomeRefs, seen.outcomeRefs);
    SameListedSet(a.stop.evaluatedOutcomeRefs, seen.outcomeRefs);
    SameListedSet(a.snapshot.evidenceEntryRefs, seen.evidenceEntryRefs);
    SameListedSet(a.snapshot.failureRefs, seen.failureRefs);
    hide SetOf, SameTextSet, BundlesOk, AttemptedTaskIds, TaskIds, OutcomeRefs, AllEntryRefs, AllFailureRefs,
         UsedBudget, EveryTaskAttempted, IsUniqueTextArray, Identical, Items;
  }
}
