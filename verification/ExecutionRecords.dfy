/** The records of an execution result as they arrive: every field is a JSON value that may be
  * anything, and a flag says where something that should be an object or an array is not. */
module ExecutionRecords {
  import opened CodePoints
  import opened CanonicalJson
  import opened References

  datatype Obligation = Obligation(isRecord: bool, obligationId: Json, claimKind: Json, role: Json,
                                   requirementIsRecord: bool, operator: Json, evidenceKinds: Json)

  datatype Edge = Edge(isRecord: bool, obligationId: Json, required: Json)

  datatype Task = Task(isRecord: bool, taskId: Json, planRevisionId: Json, authorityContextRef: Json,
                       capabilityId: Json, edgesAreArray: bool, edges: seq<Edge>, supportsObligationIds: Json)

  datatype Plan = Plan(runAttemptId: Json, intentRevisionId: Json, authorityContextRef: Json, planRevisionId: Json,
                       tasksAreArray: bool, tasks: seq<Task>, obligationsAreArray: bool, obligations: seq<Obligation>)

  datatype Snapshot = Snapshot(executionSnapshotRef: Json, runAttemptId: Json, authorityContextRef: Json,
                               planRevisionId: Json, stopRef: Json, outcomeRefs: Json, evidenceEntryRefs: Json,
                               failureRefs: Json)

  datatype Stop = Stop(stopRef: Json, runAttemptId: Json, planRevisionId: Json, evaluatedOutcomeRefs: Json,
                       reason: Json, usedBudgetUnits: Json, hardBudgetLimit: Json)

  datatype Attempt = Attempt(isRecord: bool, taskId: Json, attemptId: Json, runAttemptId: Json, intentRevisionId: Json,
                             planRevisionId: Json, inputDigest: Json, executionAttempt: Json)

  datatype CapabilityOutcome = CapabilityOutcome(
    isRecord: bool, outcomeRef: Json, runAttemptId: Json, planRevisionId: Json, taskId: Json, attemptId: Json,
    inputDigest: Json, outputDigest: Json, status: Json, evidenceRefs: Json, affectedObligationIds: Json,
    limitationRefs: Json, budgetUnits: Json, failureRef: Json)

  datatype EvidenceEntry = EvidenceEntry(
    isRecord: bool, entryRef: Json, evidenceRef: Json, runAttemptId: Json, authorityContextRef: Json,
    planRevisionId: Json, taskId: Json, outcomeRef: Json, executionState: Json, evidenceKind: Json,
    dataContractState: Json, evidenceStrength: Json, maximumClaimStrength: Json, scope: Json,
    supportedClaimKinds: Json, windowRefs: Json, resultRefs: Json, completenessReportRefs: Json,
    dimensionPath: Json, hierarchyQualified: Json, limitationRefs: Json)

  datatype FailureRecord = FailureRecord(
    isRecord: bool, failureRef: Json, runAttemptId: Json, planRevisionId: Json, taskId: Json, attemptId: Json,
    scope: Json, integrityLevel: Json, retryability: Json, userActionable: Json, businessBoundary: Json)

  datatype Bundle = Bundle(isRecord: bool, hasItsFourFields: bool, attempt: Attempt, outcome: CapabilityOutcome,
                           entriesAreArray: bool, entries: seq<EvidenceEntry>, failuresAreArray: bool,
                           failures: seq<FailureRecord>)

  /** What both validators look into: the identifiers of the result and its four parts. */
  datatype Authority = Authority(
    resultRef: Json, runAttemptId: Json, intentRevisionId: Json, authorityContextRef: Json, planRevisionId: Json,
    executionSnapshotRef: Json, stopRef: Json,
    plan: Plan, snapshot: Snapshot, stop: Stop, bundles: seq<Bundle>)

  datatype Transition = Transition(transitionId: Json, runAttemptId: Json, intentRevisionId: Json, nodeName: Json,
                                   status: Json, acceptanceState: Json, nextTransition: Json, inputDigest: Json,
                                   outputDigest: Json)

  /** A whole result; `partsAreRecords` is false unless plan, snapshot, stop record and transition are objects. */
  datatype ExecutionResult = ExecutionResult(
    isRecord: bool, hasExactFields: bool, schemaVersion: Json, status: Json, transitionId: Json,
    bundleSetDigest: Json, contentDigest: Json, partsAreRecords: bool, bundlesAreArray: bool,
    transition: Transition, authority: Authority)

  // ---- Values ----

  /** The code units of a word of the vocabulary. */
  function Word(s: string): (w: JsString)
    ensures |w| == |s|
  {
    seq(|s|, i requires 0 <= i < |s| => s[i] as int % 0x1_0000)
  }

  function Text(s: string): Json { String(Word(s)) }

  /** `===` on values parsed from JSON: two objects, or two arrays, are never the same. */
  predicate Identical(v: Json, w: Json) { v == w && !v.Object? && !v.Array? }

  predicate IsCount(v: Json) { v.Number? && IsSafeInteger(v.value) && v.value >= 0.0 }

  function Items(v: Json): seq<Json> { if v.Array? then v.items else [] }

  /** `/^[0-9a-f]{64}$/`. */
  predicate IsDigest(v: Json) {
    v.String? && |v.text| == 64 && forall u | u in v.text :: 48 <= u <= 57 || 97 <= u <= 102
  }

  /** `words.has(String(value ?? ""))`. None of the words is empty, holds a comma, or is how a number, a
    * boolean or an object reads; so only a word, or an array whose one item reads as a word, is found. */
  predicate Reads(v: Json, words: set<JsString>) {
    (v.String? && v.text in words) || (v.Array? && |v.items| == 1 && Reads(v.items[0], words))
  }

  const OUTCOME_STATUSES: set<JsString> :=
    {Word("succeeded"), Word("unavailable"), Word("integrity_failed"), Word("technical_failed"), Word("skipped"),
     Word("superseded")}

  const STOP_REASONS: set<JsString> :=
    {Word("plan_exhausted"), Word("hard_budget_reached"), Word("no_ready_tasks"), Word("shared_authority_failure")}

  const EVIDENCE_STATES: set<JsString> :=
    {Word("available"), Word("unavailable"), Word("integrity_failed"), Word("technical_failed")}

  const EVIDENCE_KINDS: set<JsString> :=
    {Word("boundary"), Word("observed"), Word("derived"), Word("scenario"), Word("statistical_association")}

  /** The frame of a result: its own identifiers, digests and transition. */
  predicate IsFramed(v: ExecutionResult) {
    var a := v.authority;
    && v.isRecord && v.hasExactFields
    && v.schemaVersion == Text("single-authority-phase03.v1") && v.status == Text("evidence_ready")
    && IsNonEmptyText(a.runAttemptId) && IsNonEmptyText(a.intentRevisionId) && IsNonEmptyText(a.authorityContextRef)
    && IsNonEmptyText(a.planRevisionId) && IsNonEmptyText(a.executionSnapshotRef) && IsNonEmptyText(a.stopRef)
    && IsNonEmptyText(v.transitionId) && IsDigest(v.bundleSetDigest) && IsDigest(v.contentDigest)
    && a.resultRef == String(Word("authoritative-execution-result:sha256:") + v.contentDigest.text)
    && v.partsAreRecords && v.bundlesAreArray
    && IsAccepted(v, v.transition)
  }

  predicate IsAccepted(v: ExecutionResult, t: Transition) {
    && Identical(t.transitionId, v.transitionId)
    && Identical(t.runAttemptId, v.authority.runAttemptId)
    && Identical(t.intentRevisionId, v.authority.intentRevisionId)
    && t.nodeName == Text("execute_capability_dag") && t.status == Text("succeeded")
    && t.acceptanceState == Text("accepted") && t.nextTransition == Text("phase03_evidence_bound")
    && IsDigest(t.inputDigest) && IsDigest(t.outputDigest)
  }
}
