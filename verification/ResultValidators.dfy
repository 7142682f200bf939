/** The two validators of an execution result side by side. Each decides closure in a pass of its own;
  * they differ in the words, the texts and the digests they ask for. */
module ResultValidators {
  import opened CodePoints
  import opened CanonicalJson
  import opened DispatchInput
  import opened References
  import opened ExecutionRecords
  import opened ExecutionClosure
  import opened ClosureOrder
  import opened GatewayResult
  import opened AgentCoreResult

  /** What `IsExecutionProjectionAuthority` decides. */
  predicate GatewayTakes(v: ExecutionResult) { IsFramed(v) && GatewayAccepts(v.authority) }

  predicate EntryInVocabulary(e: EvidenceEntry) {
    && e.executionState.String? && e.executionState.text in EVIDENCE_STATES
    && e.evidenceKind.String? && e.evidenceKind.text in EVIDENCE_KINDS
  }

  /** The reason and every state and kind are words the gateway knows. */
  predicate InVocabulary(a: Authority) {
    && a.stop.reason.String? && a.stop.reason.text in STOP_REASONS
    && forall b | b in a.bundles :: forall e | e in b.entries :: EntryInVocabulary(e)
  }

  lemma TextReads(v: Json, words: set<JsString>)
    requires v.String?
    ensures Reads(v, words) <==> v.text in words
  {
  }

  lemma TextIsString(v: Json)
    ensures IsNonEmptyText(v) ==> v.String?
  {
  }

  lemma StatedEntryReads(e: EvidenceEntry)
    requires IsStated(e)
    ensures IsWorded(e) <==> EntryInVocabulary(e)
  {
    TextIsString(e.executionState);
    TextIsString(e.evidenceKind);
    TextReads(e.executionState, EVIDENCE_STATES);
    TextReads(e.evidenceKind, EVIDENCE_KINDS);
  }

  /** The gateway takes a result that the agent core has accepted exactly when the reason for stopping and
    * the state and the kind of every entry are among the words it knows. */
  lemma WhatTheGatewayTakes(v: ExecutionResult, runId: Json)
    requires AgentCoreAccepts(v, runId)
    ensures GatewayTakes(v) <==> InVocabulary(v.authority)
  {
    hide Closed, IsFramed, IsStated, IsWorded, EntryInVocabulary, Reads, IsNonEmptyText, IsDigested;
    var a := v.authority;
    TextIsString(a.stop.reason);
    TextReads(a.stop.reason, STOP_REASONS);
    forall b | b in a.bundles
      ensures IsWordedBundle(b) <==> forall e | e in b.entries :: EntryInVocabulary(e)
    {
      assert IsStatedBundle(b);
      forall e | e in b.entries ensures IsWorded(e) <==> EntryInVocabulary(e) { StatedEntryReads(e); }
    }
  }

  // ---- The other way ----

  /** Reason, states and kinds are strings, not arrays that read as one, and the digests are digests. */
  predicate InTexts(a: Authority) {
    && a.stop.reason.String?
    && forall b | b in a.bundles ::
         IsDigested(b) && forall e | e in b.entries :: e.executionState.String? && e.evidenceKind.String?
  }

  lemma {:induction false} TrimEndKeeps(s: JsString)
    requires s != [] && !IsSpace(s[0])
    ensures TrimEnd(s) != []
  {
    if |s| > 1 && IsSpace(s[|s| - 1]) { TrimEndKeeps(s[..|s| - 1]); }
  }

  lemma LetterFirstIsNotBlank(s: JsString)
    requires s != [] && !IsSpace(s[0])
    ensures !IsBlank(s)
  {
    TrimEndKeeps(s);
    assert TrimStart(s) == s;
  }

  lemma WordIsNotBlank(s: string)
    requires s != "" && 'a' <= s[0] <= 'z'
    ensures !IsBlank(Word(s))
  {
    assert Word(s)[0] == s[0] as int;
    LetterFirstIsNotBlank(Word(s));
  }

  lemma ReasonsAreNotBlank()
    ensures forall w | w in STOP_REASONS :: !IsBlank(w)
  {
    hide IsBlank, Word;
    WordIsNotBlank("plan_exhausted");
    WordIsNotBlank("hard_budget_reached");
    WordIsNotBlank("no_ready_tasks");
    WordIsNotBlank("shared_authority_failure");
  }

  lemma StatesAreNotBlank()
    ensures forall w | w in EVIDENCE_STATES :: !IsBlank(w)
  {
    hide IsBlank, Word;
    WordIsNotBlank("available");
    WordIsNotBlank("unavailable");
    WordIsNotBlank("integrity_failed");
    WordIsNotBlank("technical_failed");
  }

  lemma KindsAreNotBlank()
    ensures forall w | w in EVIDENCE_KINDS :: !IsBlank(w)
  {
    hide IsBlank, Word;
    WordIsNotBlank("boundary");
    WordIsNotBlank("observed");
    WordIsNotBlank("derived");
    WordIsNotBlank("scenario");
    WordIsNotBlank("statistical_association");
  }

  lemma ReadTextIsNotEmpty(v: Json, words: set<JsString>)
    requires Reads(v, words) && forall w | w in words :: !IsBlank(w)
    ensures IsNonEmptyText(v) <==> v.String?
  {
  }

  lemma WordedEntryIsStated(e: EvidenceEntry)
    requires IsWorded(e)
    ensures IsStated(e) <==> e.executionState.String? && e.evidenceKind.String?
  {
    hide Reads, IsNonEmptyText, IsBlank;
    StatesAreNotBlank();
    KindsAreNotBlank();
    ReadTextIsNotEmpty(e.executionState, EVIDENCE_STATES);
    ReadTextIsNotEmpty(e.evidenceKind, EVIDENCE_KINDS);
  }

  lemma FramedRunIsNamed(v: ExecutionResult, runId: Json)
    requires IsFramed(v)
    ensures IsNonEmptyText(runId) && Identical(v.authority.runAttemptId, runId) <==> runId == v.authority.runAttemptId
  {
    hide IsBlank, IsDigest, IsAccepted;
  }

  /** The agent core accepts for a run a result that the gateway takes exactly when it is of that run, its
    * reason, states and kinds are strings, and its digests are digests. */
  lemma WhatTheAgentCoreAccepts(v: ExecutionResult, runId: Json)
    requires GatewayTakes(v)
    ensures AgentCoreAccepts(v, runId) <==> runId == v.authority.runAttemptId && InTexts(v.authority)
  {
    FramedRunIsNamed(v, runId);
    hide Closed, IsFramed, IsStated, IsWorded, Reads, IsNonEmptyText, IsDigested, IsBlank;
    var a := v.authority;
    ReasonsAreNotBlank();
    ReadTextIsNotEmpty(a.stop.reason, STOP_REASONS);
    forall b | b in a.bundles
      ensures IsStatedBundle(b)
         <==> IsDigested(b) && forall e | e in b.entries :: e.executionState.String? && e.evidenceKind.String?
    {
      assert IsWordedBundle(b);
      forall e | e in b.entries ensures IsStated(e) <==> e.executionState.String? && e.evidenceKind.String? {
        WordedEntryIsStated(e);
      }
    }
  }

  // ---- Neither looks at the order ----

  /** What the bundles state, as far as the validators ask: the words, texts and digests in them. */
  ghost predicate SaysTheSame(a: Authority, z: Authority) {
    && z.stop.reason == a.stop.reason
    && ((forall b | b in z.bundles :: IsWordedBundle(b)) <==> (forall b | b in a.bundles :: IsWordedBundle(b)))
    && ((forall b | b in z.bundles :: IsStatedBundle(b)) <==> (forall b | b in a.bundles :: IsStatedBundle(b)))
  }

  lemma SameBundleSaysTheSame(b: Bundle, y: Bundle)
    requires SameBundle(b, y)
    ensures IsWordedBundle(b) <==> IsWordedBundle(y)
    ensures IsStatedBundle(b) <==> IsStatedBundle(y)
  {
    SameMembers(b.entries, y.entries);
    hide SameReferences, IsWorded, IsStated, IsDigest;
  }

  lemma ReorderedSaysTheSame(a: Authority, z: Authority)
    requires Reordered(a, z) || InnerReordered(a, z)
    ensures SaysTheSame(a, z)
  {
    hide IsWordedBundle, IsStatedBundle, SameBundle, SameTask, SameReferences;
    if Reordered(a, z) {
      SameMembers(a.bundles, z.bundles);
    } else {
      forall i | 0 <= i < |a.bundles|
        ensures IsWordedBundle(a.bundles[i]) <==> IsWordedBundle(z.bundles[i])
        ensures IsStatedBundle(a.bundles[i]) <==> IsStatedBundle(z.bundles[i])
      {
        SameBundleSaysTheSame(a.bundles[i], z.bundles[i]);
      }
    }
  }

  lemma ReorderedKeepsIdentifiers(a: Authority, z: Authority)
    requires Reordered(a, z) || InnerReordered(a, z)
    ensures z.runAttemptId == a.runAttemptId && z.intentRevisionId == a.intentRevisionId
    ensures z.authorityContextRef == a.authorityContextRef && z.planRevisionId == a.planRevisionId
    ensures z.executionSnapshotRef == a.executionSnapshotRef && z.stopRef == a.stopRef && z.resultRef == a.resultRef
  {
  }

  /** Both verdicts are the same whatever order bundles, tasks, obligations, entries, failures, edges and
    * references come in. */
  lemma VerdictsForgetOrder(v: ExecutionResult, z: Authority, runId: Json)
    requires Reordered(v.authority, z) || InnerReordered(v.authority, z)
    ensures GatewayTakes(v.(authority := z)) <==> GatewayTakes(v)
    ensures AgentCoreAccepts(v.(authority := z), runId) <==> AgentCoreAccepts(v, runId)
  {
    hide Closed, Reordered, InnerReordered, IsWordedBundle, IsStatedBundle, IsNonEmptyText, IsFramed, Reads;
    ReorderedSaysTheSame(v.authority, z);
    ReorderedKeepsIdentifiers(v.authority, z);
    FrameForgetsOrder(v, z);
    ClosureForgetsOrder(v.authority, z);
  }

  lemma ClosureForgetsOrder(a: Authority, z: Authority)
    requires Reordered(a, z) || InnerReordered(a, z)
    ensures Closed(a) <==> Closed(z)
  {
    hide Closed, Reordered, InnerReordered;
    if Reordered(a, z) { OrderDoesNotMatter(a, z); } else { InnerOrderDoesNotMatter(a, z); }
  }

  lemma FrameForgetsOrder(v: ExecutionResult, z: Authority)
    requires Reordered(v.authority, z) || InnerReordered(v.authority, z)
    ensures IsFramed(v.(authority := z)) <==> IsFramed(v)
  {
    hide Reordered, InnerReordered, IsNonEmptyText, IsDigest, Word;
    ReorderedKeepsIdentifiers(v.authority, z);
  }

  // ---- They do differ ----

  const ID: Json := String([49])

  function Zeros(n: nat): (r: JsString)
    ensures |r| == n && forall u | u in r :: u == 48
  {
    if n == 0 then [] else Zeros(n - 1) + [48]
  }

  const DIGEST: Json := String(Zeros(64))

  const EMPTY: Json := Array([])

  /** A result of an empty plan that stopped for this reason. */
  function EmptyResult(reason: Json): ExecutionResult {
    ExecutionResult(
      true, true, Text("single-authority-phase03.v1"), Text("evidence_ready"), ID, DIGEST, DIGEST, true, true,
      Transition(ID, ID, ID, Text("execute_capability_dag"), Text("succeeded"), Text("accepted"),
                 Text("phase03_evidence_bound"), DIGEST, DIGEST),
      Authority(String(Word("authoritative-execution-result:sha256:") + DIGEST.text), ID, ID, ID, ID, ID, ID,
                Plan(ID, ID, ID, ID, true, [], true, []),
                Snapshot(ID, ID, ID, ID, ID, EMPTY, EMPTY, EMPTY),
                Stop(ID, ID, ID, EMPTY, reason, Number(0.0), Null),
                []))
  }

  lemma IdIsText()
    ensures IsNonEmptyText(ID)
  {
    LetterFirstIsNotBlank([49]);
  }

  lemma EmptyResultIsFramed(reason: Json)
    ensures IsFramed(EmptyResult(reason))
  {
    IdIsText();
    assert IsDigest(DIGEST);
    hide IsNonEmptyText, Word, IsDigest;
  }

  lemma EmptyResultIsClosed(reason: Json)
    requires reason != Text("hard_budget_reached")
    ensures Closed(EmptyResult(reason).authority)
  {
    var a := EmptyResult(reason).authority;
    assert IsUniqueTextArray(EMPTY) && IsCount(Number(0.0));
    assert RecordsAgree(a) by { hide IsUniqueTextArray, IsCount; }
    assert AccountsBalance(a) by { assert AllEntryRefs([]) == [] && AllFailureRefs([]) == [] && OutcomeRefs([]) == []; }
  }

  /** A reason the gateway does not know. */
  lemma AgentCoreTakesOtherReasons()
    ensures var v := EmptyResult(Text("user_paused")); AgentCoreAccepts(v, ID) && !GatewayTakes(v)
  {
    hide Closed, IsFramed, IsNonEmptyText, IsBlank, Word, Reads;
    var v := EmptyResult(Text("user_paused"));
    IdIsText();
    OtherReasonIsText();
    EmptyResultIsFramed(Text("user_paused"));
    EmptyResultIsClosed(Text("user_paused"));
    OtherReasonIsUnknown();
    assert AgentCoreAccepts(v, ID);
    WhatTheGatewayTakes(v, ID);
  }

  lemma OtherReasonIsText()
    ensures IsNonEmptyText(Text("user_paused")) && Text("user_paused") != Text("hard_budget_reached")
  {
    WordIsNotBlank("user_paused");
    assert |Word("user_paused")| == 11 && |Word("hard_budget_reached")| == 19;
  }

  lemma OtherReasonIsUnknown()
    ensures Word("user_paused") !in STOP_REASONS
  {
    assert |Word("user_paused")| == 11 && |Word("plan_exhausted")| == 14 && |Word("hard_budget_reached")| == 19
        && |Word("no_ready_tasks")| == 14 && |Word("shared_authority_failure")| == 24;
    hide Word;
  }

  /** A reason in an array, which the gateway reads as the word in it. */
  lemma GatewayTakesAReasonInAnArray()
    ensures var v := EmptyResult(Array([Text("no_ready_tasks")])); GatewayTakes(v) && !AgentCoreAccepts(v, ID)
  {
    var reason := Array([Text("no_ready_tasks")]);
    hide Closed, IsFramed, IsNonEmptyText, IsBlank, Word;
    EmptyResultIsFramed(reason);
    EmptyResultIsClosed(reason);
    assert Reads(Text("no_ready_tasks"), STOP_REASONS);
    assert Reads(reason, STOP_REASONS);
    WhatTheAgentCoreAccepts(EmptyResult(reason), ID);
  }
}
