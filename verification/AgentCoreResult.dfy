/** The agent core's validation of an execution result when it arrives
  * (`isValidAuthoritativeExecutionResult`). */
module AgentCoreResult {
  import opened CanonicalJson
  import opened References
  import opened ExecutionRecords
  import opened ExecutionClosure

  const NO_TEXT: Json := String([])

  /** `stringValue`: anything but a string that is not blank reads as the empty string. */
  function StringValue(v: Json): Json { if IsNonEmptyText(v) then v else NO_TEXT }

  // ---- What is asked besides closure ----

  /** The agent core asks for text, in no particular words. */
  predicate IsStated(e: EvidenceEntry) { IsNonEmptyText(e.executionState) && IsNonEmptyText(e.evidenceKind) }

  predicate IsDigested(b: Bundle) { IsDigest(b.attempt.inputDigest) && IsDigest(b.outcome.outputDigest) }

  predicate IsStatedBundle(b: Bundle) { IsDigested(b) && forall e | e in b.entries :: IsStated(e) }

  /** A framed result of this run that is closed, gives a reason, states its evidence and carries its digests. */
  predicate AgentCoreAccepts(v: ExecutionResult, runId: Json) {
    && IsFramed(v) && IsNonEmptyText(runId) && Identical(v.authority.runAttemptId, runId)
    && Closed(v.authority) && IsNonEmptyText(v.authority.stop.reason)
    && forall b | b in v.authority.bundles :: IsStatedBundle(b)
  }

  // ---- The pass ----

  predicate EntryFits(a: Authority, taskId: Json, outcomeRef: Json, e: EvidenceEntry) {
    && Identical(e.runAttemptId, a.runAttemptId)
    && Identical(e.authorityContextRef, a.authorityContextRef)
    && Identical(e.planRevisionId, a.planRevisionId)
    && Identical(e.taskId, taskId) && Identical(e.outcomeRef, outcomeRef)
    && IsStated(e) && EntryDescribed(e)
  }

  lemma EntryIsOk(a: Authority, b: Bundle, e: EvidenceEntry)
    ensures EntryOk(a, b, e) && IsStated(e)
       <==> e.isRecord && StringValue(e.entryRef) != NO_TEXT && StringValue(e.evidenceRef) != NO_TEXT
            && EntryFits(a, b.attempt.taskId, b.outcome.outcomeRef, e)
    ensures EntryOk(a, b, e) ==> StringValue(e.entryRef) == e.entryRef && StringValue(e.evidenceRef) == e.evidenceRef
  {
    TextIsNotEmpty(e.entryRef);
    TextIsNotEmpty(e.evidenceRef);
    hide IsNonEmptyText, IsUniqueTextArray, Identical;
  }

  lemma TextIsNotEmpty(v: Json)
    ensures StringValue(v) != NO_TEXT <==> IsNonEmptyText(v)
    ensures IsNonEmptyText(v) ==> StringValue(v) == v
    ensures !IsNonEmptyText(NO_TEXT)
  {
  }

  method CheckEntries(a: Authority, b: Bundle, taskId: Json, outcomeRef: Json, taken: set<Json>)
    returns (ok: bool, entryRefs: set<Json>, evidenceRefs: set<Json>)
    requires taskId == b.attempt.taskId && outcomeRef == b.outcome.outcomeRef
    ensures ok <==> && (forall e | e in b.entries :: EntryOk(a, b, e) && IsStated(e))
                    && Distinct(EvidenceRefs(b.entries))
                    && Distinct(EntryRefs(b.entries)) && Untaken(EntryRefs(b.entries), taken)
    ensures ok ==> entryRefs == taken + SetOf(EntryRefs(b.entries)) && evidenceRefs == SetOf(EvidenceRefs(b.entries))
  {
    hide EntryOk, EntryFits, IsStated, StringValue, Distinct, SetOf;
    entryRefs, evidenceRefs := taken, {};
    ghost var keys, evidence := EntryRefs(b.entries), EvidenceRefs(b.entries);
    NoReferenceYet(keys);
    NoReferenceYet(evidence);
    for i := 0 to |b.entries|
      invariant forall j | 0 <= j < i :: EntryOk(a, b, b.entries[j]) && IsStated(b.entries[j]) && keys[j] !in taken
      invariant Distinct(keys[..i]) && entryRefs == taken + SetOf(keys[..i])
      invariant Distinct(evidence[..i]) && evidenceRefs == SetOf(evidence[..i])
    {
      var rawEntry := b.entries[i];
      EntryIsOk(a, b, rawEntry);
      NextReference(keys, i, SetOf(keys[..i]));
      NextReference(evidence, i, evidenceRefs);
      if !rawEntry.isRecord {
        return false, {}, {};
      }
      var entryRef, evidenceRef := StringValue(rawEntry.entryRef), StringValue(rawEntry.evidenceRef);
      if entryRef == NO_TEXT || evidenceRef == NO_TEXT || entryRef in entryRefs || evidenceRef in evidenceRefs
         || !EntryFits(a, taskId, outcomeRef, rawEntry) {
        assert keys[i] in taken ==> !Untaken(keys, taken);
        return false, {}, {};
      }
      entryRefs, evidenceRefs := entryRefs + {entryRef}, evidenceRefs + {evidenceRef};
    }
    assert keys[..|b.entries|] == keys && evidence[..|b.entries|] == evidence;
    ok := true;
  }

  predicate FailureFits(a: Authority, taskId: Json, attemptId: Json, f: FailureRecord) {
    && Identical(f.runAttemptId, a.runAttemptId)
    && Identical(f.planRevisionId, a.planRevisionId)
    && Identical(f.taskId, taskId) && Identical(f.attemptId, attemptId)
    && IsNonEmptyText(f.scope) && IsNonEmptyText(f.integrityLevel) && IsNonEmptyText(f.retryability)
    && f.userActionable.Bool? && IsNonEmptyText(f.businessBoundary)
  }

  lemma FailureIsOk(a: Authority, b: Bundle, f: FailureRecord)
    ensures FailureOk(a, b, f)
       <==> && f.isRecord && StringValue(f.failureRef) != NO_TEXT
            && FailureFits(a, b.attempt.taskId, b.attempt.attemptId, f)
    ensures FailureOk(a, b, f) ==> StringValue(f.failureRef) == f.failureRef
  {
    TextIsNotEmpty(f.failureRef);
    hide IsNonEmptyText, Identical;
  }

  method CheckFailures(a: Authority, b: Bundle, taskId: Json, attemptId: Json, taken: set<Json>)
    returns (ok: bool, failureRefs: set<Json>, own: set<Json>)
    requires taskId == b.attempt.taskId && attemptId == b.attempt.attemptId
    ensures ok <==> && (forall f | f in b.failures :: FailureOk(a, b, f))
                    && Distinct(FailureRefs(b.failures)) && Untaken(FailureRefs(b.failures), taken)
    ensures ok ==> failureRefs == taken + SetOf(FailureRefs(b.failures)) && own == SetOf(FailureRefs(b.failures))
  {
    hide FailureOk, FailureFits, StringValue, Distinct, SetOf;
    failureRefs, own := taken, {};
    ghost var keys := FailureRefs(b.failures);
    NoReferenceYet(keys);
    for i := 0 to |b.failures|
      invariant forall j | 0 <= j < i :: FailureOk(a, b, b.failures[j]) && keys[j] !in taken
      invariant Distinct(keys[..i]) && failureRefs == taken + own && own == SetOf(keys[..i])
    {
      var rawFailure := b.failures[i];
      FailureIsOk(a, b, rawFailure);
      NextReference(keys, i, own);
      if !rawFailure.isRecord {
        return false, {}, {};
      }
      var failureRef := StringValue(rawFailure.failureRef);
      if failureRef == NO_TEXT || failureRef in failureRefs || failureRef in own
         || !FailureFits(a, taskId, attemptId, rawFailure) {
        assert keys[i] in taken ==> !Untaken(keys, taken);
        return false, {}, {};
      }
      failureRefs, own := failureRefs + {failureRef}, own + {failureRef};
    }
    assert keys[..|b.failures|] == keys;
    ok := true;
  }

  /** The fields of attempt and outcome that refer to nothing before the bundle. */
  predicate HeadFits(a: Authority, b: Bundle, taskId: Json, attemptId: Json) {
    && Identical(b.attempt.runAttemptId, a.runAttemptId)
    && Identical(b.attempt.intentRevisionId, a.intentRevisionId)
    && Identical(b.attempt.planRevisionId, a.planRevisionId)
    && IsCount(b.attempt.executionAttempt) && b.attempt.executionAttempt.value > 0.0
    && IsDigest(b.attempt.inputDigest)
    && Identical(b.outcome.runAttemptId, a.runAttemptId)
    && Identical(b.outcome.planRevisionId, a.planRevisionId)
    && Identical(b.outcome.taskId, taskId) && Identical(b.outcome.attemptId, attemptId)
    && Identical(b.outcome.inputDigest, b.attempt.inputDigest)
    && Reads(b.outcome.status, OUTCOME_STATUSES)
    && IsUniqueTextArray(b.outcome.evidenceRefs)
    && IsUniqueTextArray(b.outcome.affectedObligationIds)
    && IsUniqueTextArray(b.outcome.limitationRefs)
    && IsDigest(b.outcome.outputDigest)
    && IsCount(b.outcome.budgetUnits)
    && (b.outcome.failureRef == Null || IsNonEmptyText(b.outcome.failureRef))
    && (b.outcome.status == Text("succeeded") ==> b.outcome.evidenceRefs.items != [])
    && (b.outcome.status == Text("integrity_failed") || b.outcome.status == Text("technical_failed")
        ==> b.outcome.failureRef != Null)
  }

  predicate IsShaped(b: Bundle) {
    && b.isRecord && b.hasItsFourFields && b.attempt.isRecord && b.outcome.isRecord
    && b.entriesAreArray && b.failuresAreArray
  }

  lemma PositiveCount(v: Json)
    requires IsCount(v)
    ensures v.value > 0.0 <==> v.value >= 1.0
  {
  }

  lemma HeadIsOk(a: Authority, b: Bundle)
    ensures var taskId, attemptId := StringValue(b.attempt.taskId), StringValue(b.attempt.attemptId);
            IsShaped(b) && taskId != NO_TEXT && attemptId != NO_TEXT && StringValue(b.outcome.outcomeRef) != NO_TEXT
            && HeadFits(a, b, taskId, attemptId)
            <==> BundleFieldsOk(a, b) && IsDigested(b)
  {
    TextIsNotEmpty(b.attempt.taskId);
    TextIsNotEmpty(b.attempt.attemptId);
    TextIsNotEmpty(b.outcome.outcomeRef);
    if IsCount(b.attempt.executionAttempt) { PositiveCount(b.attempt.executionAttempt); }
    hide IsNonEmptyText, IsUniqueTextArray, Identical, IsCount, IsDigest, Reads, StringValue;
  }

  /** Entries and failures of a bundle whose head fits. */
  method CheckParts(a: Authority, b: Bundle, taskId: Json, attemptId: Json, outcomeRef: Json, entriesBefore: set<Json>,
                    failuresBefore: set<Json>)
    returns (ok: bool, entryRefs: set<Json>, failureRefs: set<Json>)
    requires BundleFieldsOk(a, b) && taskId == b.attempt.taskId && attemptId == b.attempt.attemptId
    requires outcomeRef == b.outcome.outcomeRef
    ensures ok <==> && EvidenceOk(a, b) && FailuresOk(a, b) && (forall e | e in b.entries :: IsStated(e))
                    && Distinct(EntryRefs(b.entries)) && Untaken(EntryRefs(b.entries), entriesBefore)
                    && Untaken(FailureRefs(b.failures), failuresBefore)
    ensures ok ==> && entryRefs == entriesBefore + SetOf(EntryRefs(b.entries))
                   && failureRefs == failuresBefore + SetOf(FailureRefs(b.failures))
  {
    UniqueTextsAreDistinct(b.outcome.evidenceRefs);
    hide EntryOk, FailureOk, IsStated, Distinct, Untaken, IsUniqueTextArray, Identical, IsNonEmptyText, IsCount, Reads,
         SetOf;
    var evidenceRefs, own;
    ok, entryRefs, evidenceRefs := CheckEntries(a, b, taskId, outcomeRef, entriesBefore);
    SameTextSetIsEquality(b.outcome.evidenceRefs.items, evidenceRefs);
    if !ok || !SameTextSet(b.outcome.evidenceRefs.items, evidenceRefs) {
      return false, {}, {};
    }
    ok, failureRefs, own := CheckFailures(a, b, taskId, attemptId, failuresBefore);
    var expected := if b.outcome.failureRef == Null then {} else {b.outcome.failureRef};
    if ok {
      NamedFailures(FailureRefs(b.failures), b.outcome.failureRef, own, expected);
    } else {
      NamedAreDistinct(b);
    }
    ok := ok && |own| == |expected| && forall r | r in own :: r in expected;
  }

  lemma NamedAreDistinct(b: Bundle)
    ensures FailureRefs(b.failures) == (if b.outcome.failureRef == Null then [] else [b.outcome.failureRef])
            ==> Distinct(FailureRefs(b.failures))
  {
  }

  method CheckBundles(a: Authority, taskById: map<Json, Task>) returns (ok: bool, seen: Seen)
    requires IsIndex(taskById, a.plan.tasks) && NO_TEXT !in taskById
    ensures ok <==> BundlesOk(a, a.bundles) && forall b | b in a.bundles :: IsStatedBundle(b)
    ensures ok ==> Gathered(seen, a.bundles)
  {
    hide IsStatedBundle, BundleFieldsOk, Gathered, Untaken, Distinct, SetOf, BundlesOk, EntryRefs, FailureRefs,
         BundleOk, SharesNothingWith, IsIndex;
    seen := Seen({}, {}, {}, {}, {}, 0.0);
    NothingGatheredYet(a);
    for i := 0 to |a.bundles|
      invariant BundlesOk(a, a.bundles[..i]) && Gathered(seen, a.bundles[..i])
      invariant forall b | b in a.bundles[..i] :: IsStatedBundle(b)
    {
      var b := a.bundles[i];
      var next, after := CheckBundle(a, taskById, seen, b);
      BundlesStep(a, seen, a.bundles[..i], b);
      GatheredStep(seen, a.bundles[..i], b);
      assert a.bundles[..i + 1] == a.bundles[..i] + [b];
      if !next {
        if BundlesOk(a, a.bundles) { BundlesPrefix(a, a.bundles, i + 1); }
        return false, seen;
      }
      seen := after;
    }
    assert a.bundles[..|a.bundles|] == a.bundles;
    ok := true;
  }

  /** One bundle against what the bundles before it have taken. */
  method CheckBundle(a: Authority, taskById: map<Json, Task>, seen: Seen, b: Bundle) returns (ok: bool, after: Seen)
    requires IsIndex(taskById, a.plan.tasks) && NO_TEXT !in taskById
    ensures ok <==> BundleOk(a, b) && IsStatedBundle(b) && SharesNothingWith(seen, b)
    ensures ok ==> after == With(seen, b)
  {
    hide BundleFieldsOk, HeadFits, AttemptsPlannedTask, EvidenceOk, FailuresOk, IsIndex, Untaken, Distinct, EntryRefs,
         FailureRefs, IsStated, IsDigested, StringValue;
    after := seen;
    HeadIsOk(a, b);
    IndexFindsPlannedTask(a.plan.tasks, taskById, b);
    if !IsShaped(b) {
      return false, seen;
    }
    var taskId, attemptId := StringValue(b.attempt.taskId), StringValue(b.attempt.attemptId);
    var outcomeRef := StringValue(b.outcome.outcomeRef);
    StringValuesOfHead(b);
    if taskId !in taskById || attemptId == NO_TEXT || outcomeRef == NO_TEXT
       || taskId in seen.attemptedTaskIds || attemptId in seen.attemptIds || outcomeRef in seen.outcomeRefs
       || !HeadFits(a, b, taskId, attemptId) {
      return false, seen;
    }
    var supportedObligations := SetOf(Items(taskById[taskId].supportsObligationIds));
    if exists id :: id in Items(b.outcome.affectedObligationIds) && id !in supportedObligations {
      return false, seen;
    }
    var entryRefs, failureRefs;
    ok, entryRefs, failureRefs :=
      CheckParts(a, b, taskId, attemptId, outcomeRef, seen.evidenceEntryRefs, seen.failureRefs);
    after := Seen(seen.attemptedTaskIds + {taskId}, seen.attemptIds + {attemptId}, seen.outcomeRefs + {outcomeRef},
                  entryRefs, failureRefs, seen.usedBudgetUnits + Units(b));
  }

  lemma StringValuesOfHead(b: Bundle)
    ensures StringValue(b.attempt.taskId) == NO_TEXT || StringValue(b.attempt.taskId) == b.attempt.taskId
    ensures StringValue(b.attempt.attemptId) == NO_TEXT || StringValue(b.attempt.attemptId) == b.attempt.attemptId
    ensures StringValue(b.outcome.outcomeRef) == NO_TEXT || StringValue(b.outcome.outcomeRef) == b.outcome.outcomeRef
  {
  }

  /** `taskById.get("")` finds nothing, as every indexed task has a name. */
  lemma {:induction false} NoTaskWithoutName(a: Authority, obligationIds: set<Json>, taskById: map<Json, Task>)
    requires TasksOk(a, obligationIds, a.plan.tasks) && IsIndex(taskById, a.plan.tasks)
    ensures NO_TEXT !in taskById
  {
    TextIsNotEmpty(NO_TEXT);
    hide EdgesOk, IsNonEmptyText, Distinct;
    var keys := TaskIds(a.plan.tasks);
    forall i | 0 <= i < |keys| ensures keys[i] != NO_TEXT {
      assert a.plan.tasks[i] in a.plan.tasks;
      assert TaskOk(a, obligationIds, a.plan.tasks[i]);
    }
  }

  /** The whole validation. */
  method IsValidAuthoritativeExecutionResult(v: ExecutionResult, runId: Json) returns (valid: bool)
    ensures valid <==> AgentCoreAccepts(v, runId)
  {
    hide IsFramed, IsStatedBundle, RecordsAgree, ObligationsOk, TasksOk, BundlesOk, AccountsBalance, Balanced, IsIndex,
         Gathered, IsNonEmptyText;
    var a := v.authority;
    if !IsFramed(v) || !IsNonEmptyText(runId) || !Identical(a.runAttemptId, runId) {
      return false;
    }
    if !RecordsAgree(a) || !IsNonEmptyText(a.stop.reason) {
      return false;
    }
    var obligationsOk, obligationIds := CollectObligations(a.plan.obligations);
    if !obligationsOk {
      return false;
    }
    var tasksOk, taskById := IndexTasks(a, obligationIds);
    if !tasksOk {
      return false;
    }
    NoTaskWithoutName(a, obligationIds, taskById);
    var bundlesOk, seen := CheckBundles(a, taskById);
    if !bundlesOk {
      return false;
    }
    BalancedMeansAccountsBalance(a, taskById, seen);
    valid := Balanced(a, taskById, seen);
  }
}
