/** The two verdicts on an execution result told by its properties: what each validator takes, to the word. */
module VerdictsByProperty {
  import opened CodePoints
  import opened CanonicalJson
  import opened DispatchInput
  import opened References
  import opened ExecutionRecords
  import opened ExecutionClosure
  import opened ClosureByProperty
  import opened GatewayResult
  import opened AgentCoreResult
  import opened ResultValidators

  // ---- Texts ----

  lemma {:induction false} TrimStartOfSpace(s: JsString)
    ensures TrimStart(s) == [] <==> forall u | u in s :: IsSpace(u)
  {
    if s != [] {
      assert s == [s[0]] + s[1..];
      if IsSpace(s[0]) { TrimStartOfSpace(s[1..]); }
    }
  }

  lemma {:induction false} TrimEndOfSpace(s: JsString)
    ensures TrimEnd(s) == [] <==> forall u | u in s :: IsSpace(u)
  {
    if s != [] {
      var n := |s| - 1;
      assert s == s[..n] + [s[n]];
      if IsSpace(s[n]) { TrimEndOfSpace(s[..n]); }
    }
  }

  const SPACES: seq<CodeUnit> :=
    [0x0009, 0x000A, 0x000B, 0x000C, 0x000D, 0x0020, 0x00A0, 0x1680, 0x2000, 0x2001, 0x2002, 0x2003, 0x2004, 0x2005,
     0x2006, 0x2007, 0x2008, 0x2009, 0x200A, 0x2028, 0x2029, 0x202F, 0x205F, 0x3000, 0xFEFF]

  lemma SpacesAreThese(u: CodeUnit)
    ensures IsSpace(u) <==> u in SPACES
  {
  }

  /** A text counts when some character of it is no white space. */
  lemma TextHasInk(v: Json)
    ensures IsNonEmptyText(v) <==> v.String? && exists i :: 0 <= i < |v.text| && v.text[i] !in SPACES
  {
    if v.String? {
      BlankIsAllSpace(v.text);
      hide Trim, IsSpace;
      forall i | 0 <= i < |v.text| ensures IsSpace(v.text[i]) <==> v.text[i] in SPACES { SpacesAreThese(v.text[i]); }
      if i :| 0 <= i < |v.text| && v.text[i] !in SPACES { assert v.text[i] in v.text; }
    }
  }

  lemma BlankIsAllSpace(s: JsString)
    ensures IsBlank(s) <==> forall u | u in s :: IsSpace(u)
  {
    TrimStartOfSpace(s);
    var t := TrimStart(s);
    TrimEndOfSpace(t);
    hide IsSpace, TrimEnd, TrimStart;
    if t != [] { assert t[0] in t; }
  }

  lemma DigestIsHexadecimal(v: Json)
    ensures IsDigest(v)
       <==> v.String? && |v.text| == 64 && forall u | u in v.text :: u in Word("0123456789abcdef")
  {
    forall u: CodeUnit ensures u in Word("0123456789abcdef") <==> 48 <= u <= 57 || 97 <= u <= 102 {
      HexadecimalDigits(u);
    }
    hide Word;
  }

  lemma HexadecimalDigits(u: CodeUnit)
    ensures u in Word("0123456789abcdef") <==> 48 <= u <= 57 || 97 <= u <= 102
  {
    var digits := "0123456789abcdef";
    var w := Word(digits);
    assert w == [48, 49, 50, 51, 52, 53, 54, 55, 56, 57, 97, 98, 99, 100, 101, 102];
  }

  // ---- The frame ----

  /** The result says what it is, carries its identifiers and digests, is named after its content, and its
    * transition is the accepted one of the same run. */
  predicate FramedByProperty(v: ExecutionResult) {
    var a, t := v.authority, v.transition;
    && v.isRecord && v.hasExactFields && v.partsAreRecords && v.bundlesAreArray
    && v.schemaVersion == Text("single-authority-phase03.v1") && v.status == Text("evidence_ready")
    && (forall id | id in [a.runAttemptId, a.intentRevisionId, a.authorityContextRef, a.planRevisionId,
                           a.executionSnapshotRef, a.stopRef, v.transitionId] :: IsNonEmptyText(id))
    && (forall d | d in [v.bundleSetDigest, v.contentDigest, t.inputDigest, t.outputDigest] :: IsDigest(d))
    && v.contentDigest.String?
    && a.resultRef == String(Word("authoritative-execution-result:sha256:") + v.contentDigest.text)
    && t.transitionId == v.transitionId && t.runAttemptId == a.runAttemptId && t.intentRevisionId == a.intentRevisionId
    && t.nodeName == Text("execute_capability_dag") && t.status == Text("succeeded")
    && t.acceptanceState == Text("accepted") && t.nextTransition == Text("phase03_evidence_bound")
  }

  lemma DigestIsString(v: Json)
    ensures IsDigest(v) ==> v.String?
  {
  }

  lemma IdentifiersByProperty(v: ExecutionResult)
    ensures var a := v.authority;
      (forall id | id in [a.runAttemptId, a.intentRevisionId, a.authorityContextRef, a.planRevisionId,
                          a.executionSnapshotRef, a.stopRef, v.transitionId] :: IsNonEmptyText(id))
      <==> && IsNonEmptyText(a.runAttemptId) && IsNonEmptyText(a.intentRevisionId)
           && IsNonEmptyText(a.authorityContextRef) && IsNonEmptyText(a.planRevisionId)
           && IsNonEmptyText(a.executionSnapshotRef) && IsNonEmptyText(a.stopRef) && IsNonEmptyText(v.transitionId)
  {
    hide IsNonEmptyText;
  }

  lemma DigestsByProperty(v: ExecutionResult)
    ensures var t := v.transition;
      (forall d | d in [v.bundleSetDigest, v.contentDigest, t.inputDigest, t.outputDigest] :: IsDigest(d))
      <==> IsDigest(v.bundleSetDigest) && IsDigest(v.contentDigest) && IsDigest(t.inputDigest)
           && IsDigest(t.outputDigest)
  {
    hide IsDigest;
  }

  lemma FrameByProperty(v: ExecutionResult)
    ensures IsFramed(v) <==> FramedByProperty(v)
  {
    hide IsNonEmptyText, IsDigest, Word, IsScalar;
    IdentifiersByProperty(v);
    DigestsByProperty(v);
    DigestIsString(v.contentDigest);
    TextIsScalar(v.transitionId);
    TextIsScalar(v.authority.runAttemptId);
    TextIsScalar(v.authority.intentRevisionId);
    if IsScalar(v.transitionId) && IsScalar(v.authority.runAttemptId) && IsScalar(v.authority.intentRevisionId) {
      AcceptedByProperty(v);
    }
    hide IsAccepted;
  }

  lemma AcceptedByProperty(v: ExecutionResult)
    requires IsScalar(v.transitionId) && IsScalar(v.authority.runAttemptId) && IsScalar(v.authority.intentRevisionId)
    ensures var t := v.transition;
      IsAccepted(v, t)
      <==> && t.transitionId == v.transitionId && t.runAttemptId == v.authority.runAttemptId
           && t.intentRevisionId == v.authority.intentRevisionId
           && t.nodeName == Text("execute_capability_dag") && t.status == Text("succeeded")
           && t.acceptanceState == Text("accepted") && t.nextTransition == Text("phase03_evidence_bound")
           && IsDigest(t.inputDigest) && IsDigest(t.outputDigest)
  {
    hide IsDigest, Word;
  }

  // ---- The verdicts ----

  predicate ReasonKnown(v: Json) {
    Reading(v) in [Text("plan_exhausted"), Text("hard_budget_reached"), Text("no_ready_tasks"),
                   Text("shared_authority_failure")]
  }

  predicate EntryKnown(e: EvidenceEntry) {
    && Reading(e.executionState)
       in [Text("available"), Text("unavailable"), Text("integrity_failed"), Text("technical_failed")]
    && Reading(e.evidenceKind)
       in [Text("boundary"), Text("observed"), Text("derived"), Text("scenario"), Text("statistical_association")]
  }

  lemma {:induction false} ReasonByProperty(v: Json)
    ensures Reads(v, STOP_REASONS) <==> ReasonKnown(v)
  {
    ReadsAsReading(v, STOP_REASONS);
    hide Reads, Reading, Word;
  }

  lemma WordedByProperty(e: EvidenceEntry)
    ensures IsWorded(e) <==> EntryKnown(e)
  {
    ReadsAsReading(e.executionState, EVIDENCE_STATES);
    ReadsAsReading(e.evidenceKind, EVIDENCE_KINDS);
    hide Reads, Reading, Word;
  }

  /** The gateway takes exactly the framed results that close and use its words. */
  lemma GatewayByProperty(v: ExecutionResult)
    ensures GatewayTakes(v)
       <==> && FramedByProperty(v) && ClosesByProperty(v.authority) && ReasonKnown(v.authority.stop.reason)
            && forall b | b in v.authority.bundles :: forall e | e in b.entries :: EntryKnown(e)
  {
    FrameByProperty(v);
    ClosedByProperty(v.authority);
    ReasonByProperty(v.authority.stop.reason);
    hide IsFramed, FramedByProperty, Closed, ClosesByProperty, Reads, ReasonKnown, IsWorded, EntryKnown;
    forall b | b in v.authority.bundles
      ensures IsWordedBundle(b) <==> forall e | e in b.entries :: EntryKnown(e)
    {
      forall e | e in b.entries ensures IsWorded(e) <==> EntryKnown(e) { WordedByProperty(e); }
    }
  }

  /** The agent core accepts for a run exactly the framed results of it that close, whose digests are digests,
    * and whose reason, states and kinds are texts. */
  lemma AgentCoreByProperty(v: ExecutionResult, runId: Json)
    ensures AgentCoreAccepts(v, runId)
       <==> && FramedByProperty(v) && runId == v.authority.runAttemptId && ClosesByProperty(v.authority)
            && IsNonEmptyText(v.authority.stop.reason)
            && forall b | b in v.authority.bundles ::
                 && IsDigest(b.attempt.inputDigest) && IsDigest(b.outcome.outputDigest)
                 && forall e | e in b.entries :: IsNonEmptyText(e.executionState) && IsNonEmptyText(e.evidenceKind)
  {
    hide IsFramed, FramedByProperty, Closed, ClosesByProperty, IsNonEmptyText, IsDigest, IsStatedBundle;
    FrameByProperty(v);
    ClosedByProperty(v.authority);
    if IsFramed(v) { FramedRunIsNamed(v, runId); }
    forall b | b in v.authority.bundles
      ensures IsStatedBundle(b)
         <==> && IsDigest(b.attempt.inputDigest) && IsDigest(b.outcome.outputDigest)
              && forall e | e in b.entries :: IsNonEmptyText(e.executionState) && IsNonEmptyText(e.evidenceKind)
    {
      StatedByProperty(b);
    }
  }

  lemma StatedByProperty(b: Bundle)
    ensures IsStatedBundle(b)
       <==> && IsDigest(b.attempt.inputDigest) && IsDigest(b.outcome.outputDigest)
            && forall e | e in b.entries :: IsNonEmptyText(e.executionState) && IsNonEmptyText(e.evidenceKind)
  {
    hide IsNonEmptyText, IsDigest;
  }

  // ---- The budget ----

  lemma ClosedCountsUnits(a: Authority)
    requires Closed(a)
    ensures forall b | b in a.bundles :: b.outcome.budgetUnits.Number?
    ensures a.stop.usedBudgetUnits == Number(SumOfUnits(a.bundles))
    ensures a.stop.reason == Text("hard_budget_reached")
            ==> a.stop.hardBudgetLimit.Number? && SumOfUnits(a.bundles) >= a.stop.hardBudgetLimit.value
  {
    hide Closed, Belongs, WellFormed, Supported, OccursOnce, OutcomeAccounts, ReferencesAccount, SumOfUnits, Text;
    ClosedByProperty(a);
  }

  lemma TakenIsClosed(v: ExecutionResult, runId: Json)
    requires GatewayTakes(v) || AgentCoreAccepts(v, runId)
    ensures Closed(v.authority)
  {
    hide Closed;
  }

  /** What either validator takes states the sum of its outcomes' units as the budget used; a hard budget that
    * was reached is no more than that sum. */
  lemma TakenCountsUnits(v: ExecutionResult, runId: Json)
    requires GatewayTakes(v) || AgentCoreAccepts(v, runId)
    ensures var a := v.authority;
      && (forall b | b in a.bundles :: b.outcome.budgetUnits.Number?)
      && a.stop.usedBudgetUnits == Number(SumOfUnits(a.bundles))
      && (a.stop.reason == Text("hard_budget_reached")
          ==> a.stop.hardBudgetLimit.Number? && SumOfUnits(a.bundles) >= a.stop.hardBudgetLimit.value)
  {
    TakenIsClosed(v, runId);
    ClosedCountsUnits(v.authority);
    hide *;
  }

  lemma {:induction false} SumOfOneMore(bundles: seq<Bundle>, b: Bundle)
    requires forall c | c in bundles + [b] :: c.outcome.budgetUnits.Number?
    ensures (forall c | c in bundles :: c.outcome.budgetUnits.Number?) && b.outcome.budgetUnits.Number?
    ensures SumOfUnits(bundles + [b]) == SumOfUnits(bundles) + b.outcome.budgetUnits.value
  {
    assert (bundles + [b])[|bundles|] == b;
    forall c | c in bundles ensures c.outcome.budgetUnits.Number? { assert c in bundles + [b]; }
    if bundles != [] {
      assert (bundles + [b])[1..] == bundles[1..] + [b];
      SumOfOneMore(bundles[1..], b);
    } else {
      assert [] + [b] == [b];
    }
  }

  /** One bundle more raises the budget that has to be stated by exactly its own units. */
  lemma OneBundleMoreCostsItsUnits(v: ExecutionResult, w: ExecutionResult, b: Bundle, runId: Json)
    requires GatewayTakes(v) || AgentCoreAccepts(v, runId)
    requires GatewayTakes(w) || AgentCoreAccepts(w, runId)
    requires w.authority.bundles == v.authority.bundles + [b]
    ensures b.outcome.budgetUnits.Number? && v.authority.stop.usedBudgetUnits.Number?
    ensures w.authority.stop.usedBudgetUnits
            == Number(v.authority.stop.usedBudgetUnits.value + b.outcome.budgetUnits.value)
  {
    hide *;
    TakenCountsUnits(v, runId);
    TakenCountsUnits(w, runId);
    SumOfOneMore(v.authority.bundles, b);
  }

  /** A closed result stays closed with no other number for its budget. */
  lemma NoOtherBudgetCloses(a: Authority, used: Json)
    requires Closed(a)
    ensures (forall b | b in a.bundles :: b.outcome.budgetUnits.Number?)
    ensures Closed(a.(stop := a.stop.(usedBudgetUnits := used))) <==> used == Number(SumOfUnits(a.bundles))
  {
    hide Closed;
    ClosedCountsUnits(a);
    if Closed(a.(stop := a.stop.(usedBudgetUnits := used))) {
      ClosedCountsUnits(a.(stop := a.stop.(usedBudgetUnits := used)));
    }
    assert used == a.stop.usedBudgetUnits ==> a.(stop := a.stop.(usedBudgetUnits := used)) == a;
  }
}
