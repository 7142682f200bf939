/** The gateway's validation of an execution result (`isExecutionProjectionAuthority`,
  * `hasExecutionProjectionClosure`). */
module GatewayResult {
  import opened CanonicalJson
  import opened References
  import opened ExecutionRecords
  import opened ExecutionClosure

  /** The gateway knows the states and the kinds of evidence. */
  predicate IsWorded(e: EvidenceEntry) {
    Reads(e.executionState, EVIDENCE_STATES) && Reads(e.evidenceKind, EVIDENCE_KINDS)
  }

  predicate IsWordedBundle(b: Bundle) { forall e | e in b.entries :: IsWorded(e) }

  /** A closed result in the gateway's words. */
  predicate GatewayAccepts(a: Authority) {
    Closed(a) && Reads(a.stop.reason, STOP_REASONS) && forall b | b in a.bundles :: IsWordedBundle(b)
  }

  method CheckEntries(a: Authority, b: Bundle, taken: set<Json>)
    returns (ok: bool, entryRefs: set<Json>, evidenceRefs: set<Json>)
    ensures ok <==> && (forall e | e in b.entries :: EntryOk(a, b, e) && IsWorded(e))
                    && Distinct(EvidenceRefs(b.entries))
                    && Distinct(EntryRefs(b.entries)) && Untaken(EntryRefs(b.entries), taken)
    ensures ok ==> entryRefs == taken + SetOf(EntryRefs(b.entries)) && evidenceRefs == SetOf(EvidenceRefs(b.entries))
  {
    hide EntryOk, IsWorded, Distinct, SetOf;
    entryRefs, evidenceRefs := taken, {};
    ghost var keys, evidence := EntryRefs(b.entries), EvidenceRefs(b.entries);
    NoReferenceYet(keys);
    NoReferenceYet(evidence);
    for i := 0 to |b.entries|
      invariant forall j | 0 <= j < i :: EntryOk(a, b, b.entries[j]) && IsWorded(b.entries[j]) && keys[j] !in taken
      invariant Distinct(keys[..i]) && entryRefs == taken + SetOf(keys[..i])
      invariant Distinct(evidence[..i]) && evidenceRefs == SetOf(evidence[..i])
    {
      var entry := b.entries[i];
      NextReference(keys, i, SetOf(keys[..i]));
      NextReference(evidence, i, evidenceRefs);
      if !EntryOk(a, b, entry) || !IsWorded(entry) || entry.entryRef in entryRefs || entry.evidenceRef in evidenceRefs {
        assert keys[i] in taken ==> !Untaken(keys, taken);
        return false, {}, {};
      }
      entryRefs, evidenceRefs := entryRefs + {entry.entryRef}, evidenceRefs + {entry.evidenceRef};
    }
    assert keys[..|b.entries|] == keys && evidence[..|b.entries|] == evidence;
    ok := true;
  }

  method CheckFailures(a: Authority, b: Bundle, taken: set<Json>)
    returns (ok: bool, failureRefs: set<Json>, own: set<Json>)
    ensures ok <==> && (forall f | f in b.failures :: FailureOk(a, b, f))
                    && Distinct(FailureRefs(b.failures)) && Untaken(FailureRefs(b.failures), taken)
    ensures ok ==> failureRefs == taken + SetOf(FailureRefs(b.failures)) && own == SetOf(FailureRefs(b.failures))
  {
    hide FailureOk, Distinct, SetOf;
    failureRefs, own := taken, {};
    ghost var keys := FailureRefs(b.failures);
    NoReferenceYet(keys);
    for i := 0 to |b.failures|
      invariant forall j | 0 <= j < i :: FailureOk(a, b, b.failures[j]) && keys[j] !in taken
      invariant Distinct(keys[..i]) && failureRefs == taken + own && own == SetOf(keys[..i])
    {
      var failure := b.failures[i];
      NextReference(keys, i, own);
      if !FailureOk(a, b, failure) || failure.failureRef in failureRefs || failure.failureRef in own {
        assert keys[i] in taken ==> !Untaken(keys, taken);
        return false, {}, {};
      }
      failureRefs, own := failureRefs + {failure.failureRef}, own + {failure.failureRef};
    }
    assert keys[..|b.failures|] == keys;
    ok := true;
  }

  method CheckEvidence(a: Authority, b: Bundle, taken: set<Json>) returns (ok: bool, entryRefs: set<Json>)
    requires IsUniqueTextArray(b.outcome.evidenceRefs)
    ensures ok
       <==> && EvidenceOk(a, b) && IsWordedBundle(b) && Distinct(EntryRefs(b.entries))
            && Untaken(EntryRefs(b.entries), taken)
    ensures ok ==> entryRefs == taken + SetOf(EntryRefs(b.entries))
  {
    UniqueTextsAreDistinct(b.outcome.evidenceRefs);
    hide EntryOk, IsWorded, Distinct, Untaken, IsUniqueTextArray;
    var evidenceRefs;
    ok, entryRefs, evidenceRefs := CheckEntries(a, b, taken);
    SameTextSetIsEquality(b.outcome.evidenceRefs.items, evidenceRefs);
    ok := ok && SameTextSet(b.outcome.evidenceRefs.items, evidenceRefs);
  }

  method CheckNamedFailures(a: Authority, b: Bundle, taken: set<Json>) returns (ok: bool, failureRefs: set<Json>)
    ensures ok <==> FailuresOk(a, b) && Untaken(FailureRefs(b.failures), taken)
    ensures ok ==> failureRefs == taken + SetOf(FailureRefs(b.failures))
  {
    hide FailureOk, Untaken;
    var own;
    ok, failureRefs, own := CheckFailures(a, b, taken);
    var expected := if b.outcome.failureRef == Null then {} else {b.outcome.failureRef};
    if ok {
      NamedFailures(FailureRefs(b.failures), b.outcome.failureRef, own, expected);
    }
    ok := ok && |own| == |expected| && forall r | r in own :: r in expected;
  }

  /** A bundle by itself, and that its entries and failures are not those of an earlier one. */
  method CheckBundle(a: Authority, index: map<Json, Task>, b: Bundle, entriesBefore: set<Json>,
                     failuresBefore: set<Json>)
    returns (ok: bool, entryRefs: set<Json>, failureRefs: set<Json>)
    requires IsIndex(index, a.plan.tasks) && BundleFieldsOk(a, b)
    ensures ok <==> && BundleOk(a, b) && IsWordedBundle(b)
                    && Distinct(EntryRefs(b.entries)) && Untaken(EntryRefs(b.entries), entriesBefore)
                    && Untaken(FailureRefs(b.failures), failuresBefore)
    ensures ok ==> && entryRefs == entriesBefore + SetOf(EntryRefs(b.entries))
                   && failureRefs == failuresBefore + SetOf(FailureRefs(b.failures))
  {
    IndexFindsPlannedTask(a.plan.tasks, index, b);
    hide AttemptsPlannedTask, IsWordedBundle, EvidenceOk, FailuresOk, IsIndex, Untaken, Distinct, EntryRefs,
         FailureRefs;
    var outcome := b.outcome;
    if b.attempt.taskId !in index {
      return false, {}, {};
    }
    var supported := SetOf(Items(index[b.attempt.taskId].supportsObligationIds));
    if exists id :: id in outcome.affectedObligationIds.items && id !in supported {
      return false, {}, {};
    }
    ok, entryRefs := CheckEvidence(a, b, entriesBefore);
    if !ok {
      return false, {}, {};
    }
    ok, failureRefs := CheckNamedFailures(a, b, failuresBefore);
  }

  method CheckBundles(a: Authority, index: map<Json, Task>) returns (ok: bool, seen: Seen)
    requires IsIndex(index, a.plan.tasks)
    ensures ok <==> BundlesOk(a, a.bundles) && forall b | b in a.bundles :: IsWordedBundle(b)
    ensures ok ==> Gathered(seen, a.bundles)
  {
    hide IsWordedBundle, IsIndex, BundleFieldsOk, Gathered, Untaken, Distinct, SetOf, BundlesOk, EntryRefs, FailureRefs;
    seen := Seen({}, {}, {}, {}, {}, 0.0);
    NothingGatheredYet(a);
    for i := 0 to |a.bundles|
      invariant BundlesOk(a, a.bundles[..i]) && Gathered(seen, a.bundles[..i])
      invariant forall b | b in a.bundles[..i] :: IsWordedBundle(b)
    {
      var b := a.bundles[i];
      var next, entryRefs, failureRefs := false, {}, {};
      if BundleFieldsOk(a, b) && b.attempt.taskId !in seen.attemptedTaskIds
         && b.attempt.attemptId !in seen.attemptIds && b.outcome.outcomeRef !in seen.outcomeRefs {
        next, entryRefs, failureRefs := CheckBundle(a, index, b, seen.evidenceEntryRefs, seen.failureRefs);
      }
      assert next <==> BundleOk(a, b) && IsWordedBundle(b) && SharesNothingWith(seen, b);
      BundlesStep(a, seen, a.bundles[..i], b);
      GatheredStep(seen, a.bundles[..i], b);
      assert a.bundles[..i + 1] == a.bundles[..i] + [b];
      if !next {
        if BundlesOk(a, a.bundles) { BundlesPrefix(a, a.bundles, i + 1); }
        return false, seen;
      }
      seen := Seen(seen.attemptedTaskIds + {b.attempt.taskId}, seen.attemptIds + {b.attempt.attemptId},
                   seen.outcomeRefs + {b.outcome.outcomeRef}, entryRefs, failureRefs,
                   seen.usedBudgetUnits + Units(b));
    }
    assert a.bundles[..|a.bundles|] == a.bundles;
    ok := true;
  }

  /** One pass decides closure, and that the words are known. */
  method HasExecutionProjectionClosure(a: Authority) returns (closed: bool)
    ensures closed <==> GatewayAccepts(a)
  {
    hide IsWordedBundle, Reads, RecordsAgree, ObligationsOk, TasksOk, BundlesOk, AccountsBalance, Balanced, IsIndex,
         Gathered;
    if !RecordsAgree(a) || !Reads(a.stop.reason, STOP_REASONS) {
      return false;
    }
    var obligationsOk, obligationIds := CollectObligations(a.plan.obligations);
    if !obligationsOk {
      return false;
    }
    var tasksOk, index := IndexTasks(a, obligationIds);
    if !tasksOk {
      return false;
    }
    var bundlesOk, seen := CheckBundles(a, index);
    if !bundlesOk {
      return false;
    }
    BalancedMeansAccountsBalance(a, index, seen);
    closed := Balanced(a, index, seen);
  }

  /** What the gateway looks at first: the parts are of this result and hold records. */
  predicate HoldsRecords(a: Authority) {
    && Identical(a.plan.runAttemptId, a.runAttemptId)
    && Identical(a.plan.intentRevisionId, a.intentRevisionId)
    && Identical(a.plan.authorityContextRef, a.authorityContextRef)
    && Identical(a.plan.planRevisionId, a.planRevisionId)
    && a.plan.tasksAreArray && (forall t | t in a.plan.tasks :: t.isRecord)
    && a.plan.obligationsAreArray && (forall o | o in a.plan.obligations :: o.isRecord)
    && Identical(a.snapshot.executionSnapshotRef, a.executionSnapshotRef)
    && Identical(a.snapshot.runAttemptId, a.runAttemptId)
    && Identical(a.snapshot.authorityContextRef, a.authorityContextRef)
    && Identical(a.snapshot.planRevisionId, a.planRevisionId)
    && Identical(a.snapshot.stopRef, a.stopRef)
    && Identical(a.stop.stopRef, a.stopRef)
    && Identical(a.stop.runAttemptId, a.runAttemptId)
    && Identical(a.stop.planRevisionId, a.planRevisionId)
    && a.stop.evaluatedOutcomeRefs.Array?
    && forall b | b in a.bundles :: BundleHoldsRecords(b)
  }

  predicate BundleHoldsRecords(b: Bundle) {
    && b.isRecord && b.hasItsFourFields && b.attempt.isRecord && b.outcome.isRecord
    && b.entriesAreArray && (forall e | e in b.entries :: e.isRecord)
    && b.failuresAreArray && (forall f | f in b.failures :: f.isRecord)
  }

  lemma ClosedPlanHoldsRecords(a: Authority)
    requires PlanOk(a)
    ensures (forall t | t in a.plan.tasks :: t.isRecord) && (forall o | o in a.plan.obligations :: o.isRecord)
  {
    hide EdgesOk, Distinct, IsUniqueTextArray, IsNonEmptyText, Identical, SetOf;
    forall o | o in a.plan.obligations ensures o.isRecord { assert ObligationOk(o); }
  }

  lemma ClosedBundleHoldsRecords(a: Authority, b: Bundle)
    requires BundleOk(a, b)
    ensures BundleHoldsRecords(b)
  {
    hide Distinct, IsUniqueTextArray, IsNonEmptyText, Identical, SetOf, EntryDescribed, AttemptsPlannedTask, Reads,
         IsCount;
  }

  /** The first look asks for nothing that closure does not ask for. */
  lemma ClosedHoldsRecords(a: Authority)
    requires Closed(a)
    ensures HoldsRecords(a)
  {
    ClosedPlanHoldsRecords(a);
    forall b | b in a.bundles ensures BundleHoldsRecords(b) { ClosedBundleHoldsRecords(a, b); }
    hide PlanOk, BundleOk, NothingShared, AccountsBalance, BundleHoldsRecords, IsUniqueTextArray, Identical, IsCount;
    UniqueArrayIsArray(a.stop.evaluatedOutcomeRefs);
  }

  lemma UniqueArrayIsArray(v: Json)
    ensures IsUniqueTextArray(v) ==> v.Array?
  {
  }

  /** The whole validation. */
  method IsExecutionProjectionAuthority(v: ExecutionResult) returns (valid: bool)
    ensures valid <==> IsFramed(v) && GatewayAccepts(v.authority)
  {
    hide Closed, HoldsRecords, IsFramed;
    if Closed(v.authority) { ClosedHoldsRecords(v.authority); }
    if !IsFramed(v) || !HoldsRecords(v.authority) {
      return false;
    }
    valid := HasExecutionProjectionClosure(v.authority);
  }
}
