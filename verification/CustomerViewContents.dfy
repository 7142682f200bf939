/** What the customer's view of a result contains: every task, obligation, outcome, entry and failure of the
  * result and nothing else, as its record states it, and every limitation once, in order. */
module CustomerViewContents {
  import opened CodePoints
  import opened CanonicalJson
  import opened Sorting
  import opened Totals
  import opened References
  import opened ExecutionRecords
  import opened ExecutionClosure
  import opened ClosureLaws
  import opened ClosureByProperty
  import opened GatewayResult
  import opened ResultValidators
  import opened CustomerView

  // ---- What a record shows as ----

  ghost predicate ShowsTask(v: TaskView, t: Task) {
    && t.taskId == String(v.taskId) && t.capabilityId == String(v.capabilityId)
    && |v.obligations| == |t.edges|
    && forall i | 0 <= i < |t.edges| ::
         && t.edges[i].obligationId == String(v.obligations[i].obligationId)
         && t.edges[i].required == Bool(v.obligations[i].required)
  }

  ghost predicate ShowsObligation(v: ObligationView, o: Obligation) {
    && o.obligationId == String(v.obligationId) && o.claimKind == String(v.claimKind) && o.role == String(v.role)
    && o.operator == String(v.operator) && o.evidenceKinds == Array(v.evidenceKinds)
  }

  ghost predicate ShowsOutcome(v: OutcomeView, b: Bundle) {
    && b.outcome.outcomeRef == String(v.outcomeRef) && b.outcome.taskId == String(v.taskId)
    && Reading(b.outcome.status) == String(v.status)
    && b.outcome.evidenceRefs == Array(v.evidenceRefs)
    && b.outcome.affectedObligationIds == Array(v.affectedObligationIds)
    && b.outcome.limitationRefs == Array(v.limitationRefs)
  }

  ghost predicate ShowsEntry(v: EvidenceView, e: EvidenceEntry) {
    && e.entryRef == String(v.entryRef) && e.evidenceRef == String(v.evidenceRef)
    && e.taskId == String(v.taskId) && e.outcomeRef == String(v.outcomeRef)
    && Reading(e.executionState) == String(v.status) && Reading(e.evidenceKind) == String(v.evidenceKind)
    && e.dataContractState == String(v.dataContractState) && e.evidenceStrength == String(v.evidenceStrength)
    && e.maximumClaimStrength == String(v.maximumClaimStrength) && e.scope == String(v.scope)
    && e.supportedClaimKinds == Array(v.supportedClaimKinds) && e.windowRefs == Array(v.windowRefs)
    && e.resultRefs == Array(v.resultRefs) && e.completenessReportRefs == Array(v.completenessReportRefs)
    && e.dimensionPath == Array(v.dimensionPath) && e.hierarchyQualified == Bool(v.hierarchyQualified)
    && e.limitationRefs == Array(v.limitationRefs)
  }

  ghost predicate ShowsFailure(v: FailureView, f: FailureRecord) {
    && f.failureRef == String(v.failureRef) && f.taskId == String(v.taskId) && f.scope == String(v.scope)
    && f.integrityLevel == String(v.integrityLevel) && f.retryability == String(v.retryability)
    && f.userActionable == Bool(v.userActionable) && f.businessBoundary == String(v.businessBoundary)
  }

  lemma {:induction false} TextOfReading(v: Json)
    requires Reading(v).String?
    ensures Reading(v) == String(TextOf(v))
  {
    if v.Array? && |v.items| == 1 { TextOfReading(v.items[0]); }
  }

  lemma TextOfText(v: Json)
    ensures IsNonEmptyText(v) ==> v == String(TextOf(v))
  {
  }

  lemma ItemsOfArray(v: Json)
    ensures IsUniqueTextArray(v) ==> v == Array(Items(v))
  {
  }

  lemma TaskIsShown(t: Task)
    requires TaskWellFormed(t)
    ensures ShowsTask(ViewTask(t), t)
  {
    TextOfText(t.taskId);
    TextOfText(t.capabilityId);
    forall i | 0 <= i < |t.edges|
      ensures t.edges[i].obligationId == String(TextOf(t.edges[i].obligationId))
      ensures t.edges[i].required == Bool(t.edges[i].required == Bool(true))
    {
      assert t.edges[i] in t.edges;
      TextOfText(t.edges[i].obligationId);
      BoolOrNot(t.edges[i].required);
    }
    hide TextOf, IsNonEmptyText, IsUniqueTextArray;
  }

  lemma BoolOrNot(v: Json)
    ensures v.Bool? ==> v == Bool(v == Bool(true))
  {
  }

  lemma ObligationIsShown(o: Obligation)
    requires ObligationWellFormed(o)
    ensures ShowsObligation(ViewObligation(o), o)
  {
    TextOfText(o.obligationId);
    TextOfText(o.claimKind);
    TextOfText(o.role);
    ItemsOfArray(o.evidenceKinds);
    hide IsNonEmptyText, IsUniqueTextArray, Word;
  }

  lemma OutcomeIsShown(a: Authority, b: Bundle)
    requires BundleBelongs(a, b) && BundleWellFormed(b)
    ensures ShowsOutcome(ViewOutcome(b), b)
  {
    TextOfText(b.outcome.outcomeRef);
    TextOfText(b.outcome.taskId);
    StatusIsText(b.outcome.status);
    ItemsOfArray(b.outcome.evidenceRefs);
    ItemsOfArray(b.outcome.affectedObligationIds);
    ItemsOfArray(b.outcome.limitationRefs);
    hide IsNonEmptyText, IsUniqueTextArray, TextOf, Reading, StatusKnown, EntryBelongs, EntryWellFormed, FailureBelongs,
         FailureWellFormed;
  }

  lemma StatusIsText(v: Json)
    requires StatusKnown(v)
    ensures Reading(v) == String(TextOf(v))
  {
    TextOfReading(v);
  }

  lemma EntryIsShown(a: Authority, b: Bundle, e: EvidenceEntry)
    requires BundleWellFormed(b) && EntryBelongs(a, b, e) && EntryWellFormed(e) && IsWorded(e)
    ensures ShowsEntry(ViewEntry(e), e)
  {
    EntryTexts(e);
    TextOfText(b.attempt.taskId);
    TextOfText(b.outcome.outcomeRef);
    ReadIsText(e.executionState, EVIDENCE_STATES);
    ReadIsText(e.evidenceKind, EVIDENCE_KINDS);
    BoolOrNot(e.hierarchyQualified);
    hide IsNonEmptyText, IsUniqueTextArray, TextOf, Reading, Reads, StatusKnown, FailureWellFormed, Items,
         EntryWellFormed;
  }

  lemma ReadIsText(v: Json, words: set<JsString>)
    requires Reads(v, words)
    ensures Reading(v) == String(TextOf(v))
  {
    ReadsAsReading(v, words);
    TextOfReading(v);
  }

  /** Every text and every list of an entry is what its view holds of it. */
  lemma EntryTexts(e: EvidenceEntry)
    requires EntryWellFormed(e)
    ensures e.hierarchyQualified.Bool?
    ensures e.entryRef == String(TextOf(e.entryRef)) && e.evidenceRef == String(TextOf(e.evidenceRef))
    ensures e.dataContractState == String(TextOf(e.dataContractState))
    ensures e.evidenceStrength == String(TextOf(e.evidenceStrength))
    ensures e.maximumClaimStrength == String(TextOf(e.maximumClaimStrength)) && e.scope == String(TextOf(e.scope))
    ensures e.supportedClaimKinds == Array(Items(e.supportedClaimKinds)) && e.windowRefs == Array(Items(e.windowRefs))
    ensures e.resultRefs == Array(Items(e.resultRefs)) && e.dimensionPath == Array(Items(e.dimensionPath))
    ensures e.completenessReportRefs == Array(Items(e.completenessReportRefs))
    ensures e.limitationRefs == Array(Items(e.limitationRefs))
  {
    hide IsNonEmptyText, IsUniqueTextArray, TextOf, Items;
    forall v | v in [e.entryRef, e.evidenceRef, e.dataContractState, e.evidenceStrength, e.maximumClaimStrength,
                     e.scope]
      ensures v == String(TextOf(v))
    {
      TextOfText(v);
    }
    forall v | v in [e.supportedClaimKinds, e.windowRefs, e.resultRefs, e.completenessReportRefs, e.dimensionPath,
                     e.limitationRefs]
      ensures v == Array(Items(v))
    {
      ItemsOfArray(v);
    }
  }

  lemma FailureIsShown(a: Authority, b: Bundle, f: FailureRecord)
    requires BundleWellFormed(b) && FailureBelongs(a, b, f) && FailureWellFormed(f)
    ensures ShowsFailure(ViewFailure(f), f)
  {
    hide IsNonEmptyText, IsUniqueTextArray, TextOf, StatusKnown, EntryWellFormed;
    forall v | v in [f.failureRef, f.scope, f.integrityLevel, f.retryability, f.businessBoundary]
      ensures v == String(TextOf(v))
    {
      TextOfText(v);
    }
    TextOfText(b.attempt.taskId);
    BoolOrNot(f.userActionable);
  }

  // ---- What the lists hold ----

  lemma ArrangeKeeps<T(!new)>(xs: seq<T>, key: T -> JsString, atMost: Collation)
    requires IsCollation(atMost)
    ensures var s := Arrange(xs, key, atMost);
      && |s| == |xs| && (forall x :: x in s <==> x in xs)
      && (forall i, j | 0 <= i < j < |s| :: atMost(key(s[i]), key(s[j])))
  {
    var le := InOrderOf(key, atMost);
    var s := Arrange(xs, key, atMost);
    InOrderIsPreorder(key, atMost);
    SortSorted(xs, le);
    forall x ensures x in s <==> x in xs { assert x in multiset(s) <==> x in multiset(xs); }
    hide Sort, TotalPreorder;
    forall i, j | 0 <= i < j < |s| ensures atMost(key(s[i]), key(s[j])) { assert le(s[i], s[j]); }
  }

  lemma MapHolds<S, T>(xs: seq<S>, f: S -> T, y: T)
    ensures y in Map(xs, f) <==> exists x :: x in xs && f(x) == y
  {
    if y in Map(xs, f) {
      var i :| 0 <= i < |xs| && Map(xs, f)[i] == y;
      assert xs[i] in xs;
    }
    if x :| x in xs && f(x) == y {
      var i :| 0 <= i < |xs| && xs[i] == x;
      assert Map(xs, f)[i] == y;
    }
  }

  lemma CollectHolds<S, T>(xs: seq<S>, f: S -> seq<T>, y: T)
    ensures y in Collect(xs, f) <==> exists x :: x in xs && y in f(x)
  {
    CollectedBySome(xs, f, y);
    if x :| x in xs && y in f(x) {
      var i :| 0 <= i < |xs| && xs[i] == x;
      assert y in f(xs[i]);
    }
  }

  /** What the gateway takes, as the view is only taken of that. */
  ghost predicate IsShowable(a: Authority) {
    Closed(a) && forall b | b in a.bundles :: IsWordedBundle(b)
  }

  lemma BundleOfShowable(a: Authority, b: Bundle)
    requires IsShowable(a) && b in a.bundles
    ensures BundleBelongs(a, b) && BundleWellFormed(b) && IsWordedBundle(b)
  {
    hide Closed, BundleBelongs, BundleWellFormed, IsWordedBundle, AccountsBelong, AccountsWellFormed, Supported,
         OccursOnce, StopAccounts, ReferencesAccount, OutcomeAccounts;
    ClosedByProperty(a);
  }

  lemma PlanOfShowable(a: Authority)
    requires IsShowable(a)
    ensures forall t | t in a.plan.tasks :: TaskWellFormed(t)
    ensures forall o | o in a.plan.obligations :: ObligationWellFormed(o)
  {
    hide Closed, TaskWellFormed, ObligationWellFormed, AccountsBelong, AccountsWellFormed, Supported,
         OccursOnce, StopAccounts, ReferencesAccount, OutcomeAccounts;
    ClosedByProperty(a);
  }

  /** The outcomes of the view, in the order of their references, are those of the bundles. */
  lemma ViewShowsOutcomes(a: Authority, atMost: Collation)
    requires IsShowable(a) && IsCollation(atMost)
    ensures var shown := Project(a, atMost).outcomes;
      && |shown| == |a.bundles|
      && (forall b | b in a.bundles :: exists v :: v in shown && ShowsOutcome(v, b))
      && (forall v | v in shown :: exists b :: b in a.bundles && ShowsOutcome(v, b))
      && (forall i, j | 0 <= i < j < |shown| :: atMost(shown[i].outcomeRef, shown[j].outcomeRef))
  {
    hide Arrange, IsCollation, IsShowable, ViewOutcome, ShowsOutcome, BundleBelongs, BundleWellFormed, IsWordedBundle,
         Limitations;
    ArrangeKeeps(Outcomes(a), OutcomeKey, atMost);
    forall b | b in a.bundles ensures ShowsOutcome(ViewOutcome(b), b) && ViewOutcome(b) in Outcomes(a) {
      BundleOfShowable(a, b);
      OutcomeIsShown(a, b);
      MapHolds(a.bundles, ViewOutcome, ViewOutcome(b));
    }
    forall v | v in Outcomes(a) ensures exists b :: b in a.bundles && ShowsOutcome(v, b) {
      MapHolds(a.bundles, ViewOutcome, v);
    }
  }

  lemma ViewShowsTasks(a: Authority, atMost: Collation)
    requires IsShowable(a) && IsCollation(atMost)
    ensures var shown := Project(a, atMost).tasks;
      && |shown| == |a.plan.tasks|
      && (forall t | t in a.plan.tasks :: exists v :: v in shown && ShowsTask(v, t))
      && (forall v | v in shown :: exists t :: t in a.plan.tasks && ShowsTask(v, t))
      && (forall i, j | 0 <= i < j < |shown| :: atMost(shown[i].taskId, shown[j].taskId))
  {
    PlanOfShowable(a);
    hide Arrange, IsCollation, IsShowable, ViewTask, ShowsTask, TaskWellFormed, ObligationWellFormed, Limitations;
    ArrangeKeeps(Tasks(a), TaskKey, atMost);
    forall t | t in a.plan.tasks ensures ShowsTask(ViewTask(t), t) && ViewTask(t) in Tasks(a) {
      TaskIsShown(t);
      MapHolds(a.plan.tasks, ViewTask, ViewTask(t));
    }
    forall v | v in Tasks(a) ensures exists t :: t in a.plan.tasks && ShowsTask(v, t) {
      MapHolds(a.plan.tasks, ViewTask, v);
    }
  }

  lemma ViewShowsObligations(a: Authority, atMost: Collation)
    requires IsShowable(a) && IsCollation(atMost)
    ensures var shown := Project(a, atMost).obligations;
      && |shown| == |a.plan.obligations|
      && (forall o | o in a.plan.obligations :: exists v :: v in shown && ShowsObligation(v, o))
      && (forall v | v in shown :: exists o :: o in a.plan.obligations && ShowsObligation(v, o))
      && (forall i, j | 0 <= i < j < |shown| :: atMost(shown[i].obligationId, shown[j].obligationId))
  {
    PlanOfShowable(a);
    hide Arrange, IsCollation, IsShowable, ViewObligation, ShowsObligation, TaskWellFormed, ObligationWellFormed,
         Limitations;
    ArrangeKeeps(Obligations(a), ObligationKey, atMost);
    forall o | o in a.plan.obligations
      ensures ShowsObligation(ViewObligation(o), o) && ViewObligation(o) in Obligations(a)
    {
      ObligationIsShown(o);
      MapHolds(a.plan.obligations, ViewObligation, ViewObligation(o));
    }
    forall v | v in Obligations(a) ensures exists o :: o in a.plan.obligations && ShowsObligation(v, o) {
      MapHolds(a.plan.obligations, ViewObligation, v);
    }
  }

  lemma EvidenceHolds(a: Authority, v: EvidenceView)
    ensures v in Evidence(a) <==> exists b, e :: b in a.bundles && e in b.entries && ViewEntry(e) == v
  {
    CollectHolds(a.bundles, ViewEntries, v);
    forall b | b in a.bundles ensures v in ViewEntries(b) <==> exists e :: e in b.entries && ViewEntry(e) == v {
      MapHolds(b.entries, ViewEntry, v);
    }
    hide ViewEntries, ViewEntry, Collect, Evidence;
  }

  lemma SizesOfPieces(a: Authority)
    ensures |Evidence(a)| == |AllEntryRefs(a.bundles)| && |Failures(a)| == |AllFailureRefs(a.bundles)|
  {
    hide Evidence, Failures, AllEntryRefs, AllFailureRefs, TextOf;
    KeysOfPieces(a);
    assert |Map(Evidence(a), EntryKey)| == |Evidence(a)| && |Map(Failures(a), FailureKey)| == |Failures(a)|;
  }

  /** The evidence of the view, in the order of its references, is that of all bundles. */
  lemma ViewShowsEvidence(a: Authority, atMost: Collation)
    requires IsShowable(a) && IsCollation(atMost)
    ensures var shown := Project(a, atMost).evidence;
      && |shown| == |AllEntryRefs(a.bundles)|
      && (forall b, e | b in a.bundles && e in b.entries :: exists v :: v in shown && ShowsEntry(v, e))
      && (forall v | v in shown :: exists b, e :: b in a.bundles && e in b.entries && ShowsEntry(v, e))
      && (forall i, j | 0 <= i < j < |shown| :: atMost(shown[i].entryRef, shown[j].entryRef))
  {
    hide Arrange, IsCollation, IsShowable, ViewEntry, ShowsEntry, Evidence, Limitations, AllEntryRefs;
    SizesOfPieces(a);
    ArrangeKeeps(Evidence(a), EntryKey, atMost);
    var shown := Arrange(Evidence(a), EntryKey, atMost);
    forall b, e | b in a.bundles && e in b.entries ensures exists v :: v in shown && ShowsEntry(v, e) {
      EntryOfShowable(a, b, e);
      EvidenceHolds(a, ViewEntry(e));
      assert ViewEntry(e) in shown;
    }
    forall v | v in Evidence(a) ensures exists b, e :: b in a.bundles && e in b.entries && ShowsEntry(v, e) {
      EvidenceHolds(a, v);
      var b, e :| b in a.bundles && e in b.entries && ViewEntry(e) == v;
      EntryOfShowable(a, b, e);
    }
  }

  lemma EntryOfShowable(a: Authority, b: Bundle, e: EvidenceEntry)
    requires IsShowable(a) && b in a.bundles && e in b.entries
    ensures ShowsEntry(ViewEntry(e), e)
  {
    hide IsShowable, ShowsEntry, ViewEntry, EntryBelongs, EntryWellFormed, IsWorded, AttemptBelongs, AttemptWellFormed;
    BundleOfShowable(a, b);
    EntryIsShown(a, b, e);
  }

  lemma FailuresHold(a: Authority, v: FailureView)
    ensures v in Failures(a) <==> exists b, f :: b in a.bundles && f in b.failures && ViewFailure(f) == v
  {
    CollectHolds(a.bundles, ViewFailures, v);
    forall b | b in a.bundles ensures v in ViewFailures(b) <==> exists f :: f in b.failures && ViewFailure(f) == v {
      MapHolds(b.failures, ViewFailure, v);
    }
    hide ViewFailures, ViewFailure, Collect, Failures;
  }

  lemma FailureOfShowable(a: Authority, b: Bundle, f: FailureRecord)
    requires IsShowable(a) && b in a.bundles && f in b.failures
    ensures ShowsFailure(ViewFailure(f), f)
  {
    hide IsShowable, ShowsFailure, ViewFailure, FailureBelongs, FailureWellFormed, AttemptBelongs, AttemptWellFormed;
    BundleOfShowable(a, b);
    FailureIsShown(a, b, f);
  }

  /** The failures of the view, in the order of their references, are those of all bundles. */
  lemma ViewShowsFailures(a: Authority, atMost: Collation)
    requires IsShowable(a) && IsCollation(atMost)
    ensures var shown := Project(a, atMost).failures;
      && |shown| == |AllFailureRefs(a.bundles)|
      && (forall b, f | b in a.bundles && f in b.failures :: exists v :: v in shown && ShowsFailure(v, f))
      && (forall v | v in shown :: exists b, f :: b in a.bundles && f in b.failures && ShowsFailure(v, f))
      && (forall i, j | 0 <= i < j < |shown| :: atMost(shown[i].failureRef, shown[j].failureRef))
  {
    hide Arrange, IsCollation, IsShowable, ViewFailure, ShowsFailure, Failures, Limitations, AllFailureRefs;
    SizesOfPieces(a);
    ArrangeKeeps(Failures(a), FailureKey, atMost);
    var shown := Arrange(Failures(a), FailureKey, atMost);
    forall b, f | b in a.bundles && f in b.failures ensures exists v :: v in shown && ShowsFailure(v, f) {
      FailureOfShowable(a, b, f);
      FailuresHold(a, ViewFailure(f));
      assert ViewFailure(f) in shown;
    }
    forall v | v in Failures(a) ensures exists b, f :: b in a.bundles && f in b.failures && ShowsFailure(v, f) {
      FailuresHold(a, v);
      var b, f :| b in a.bundles && f in b.failures && ViewFailure(f) == v;
      FailureOfShowable(a, b, f);
    }
  }

  /** The stop is shown as the stop record states it, with the budget and its limit. */
  lemma ViewShowsStop(a: Authority, atMost: Collation)
    requires IsShowable(a) && IsNonEmptyText(a.stopRef) && Reads(a.stop.reason, STOP_REASONS)
    ensures var stop := Project(a, atMost).stop;
      && a.stopRef == String(stop.stopRef) && Reading(a.stop.reason) == String(stop.reason)
      && a.stop.evaluatedOutcomeRefs == Array(stop.evaluatedOutcomeRefs)
      && stop.usedBudgetUnits == a.stop.usedBudgetUnits && stop.hardBudgetLimit == a.stop.hardBudgetLimit
  {
    assert Identical(a.stop.stopRef, a.stopRef) && IsUniqueTextArray(a.stop.evaluatedOutcomeRefs);
    TextOfText(a.stopRef);
    ReadIsText(a.stop.reason, STOP_REASONS);
    ItemsOfArray(a.stop.evaluatedOutcomeRefs);
    hide IsShowable, IsNonEmptyText, IsUniqueTextArray, Reads, Reading, Limitations, Arrange;
  }

  /** Whatever the gateway takes can be shown, and its view names it: its result, plan revision and snapshot. */
  lemma TakenIsShowable(v: ExecutionResult, atMost: Collation)
    requires GatewayTakes(v)
    ensures var a, view := v.authority, Project(v.authority, atMost);
      && IsShowable(a) && IsNonEmptyText(a.stopRef) && Reads(a.stop.reason, STOP_REASONS)
      && a.resultRef == String(view.resultRef) && a.planRevisionId == String(view.planRevisionId)
      && a.executionSnapshotRef == String(view.executionSnapshotRef)
  {
    FramedTexts(v);
    TextOfText(v.authority.planRevisionId);
    TextOfText(v.authority.executionSnapshotRef);
    hide Closed, IsWordedBundle, Reads, IsNonEmptyText, IsFramed, Limitations, Arrange;
  }

  lemma FramedTexts(v: ExecutionResult)
    requires IsFramed(v)
    ensures v.authority.resultRef.String? && IsNonEmptyText(v.authority.planRevisionId)
    ensures IsNonEmptyText(v.authority.executionSnapshotRef) && IsNonEmptyText(v.authority.stopRef)
  {
    hide IsNonEmptyText, IsDigest, Word;
  }

  // ---- Limitations ----

  /** The lesser code unit at the first difference decides, and a text comes after its beginnings. */
  ghost predicate UnitsBefore(s: JsString, t: JsString) {
    exists k :: 0 <= k < |t| && k <= |s| && s[..k] == t[..k] && (k == |s| || s[k] < t[k])
  }

  lemma UnitsDecide(s: JsString, t: JsString)
    requires UnitsAtMost(s, t) && s != t
    ensures UnitsBefore(s, t)
  {
    FirstDifferenceDecides(s, t, UnitBefore);
  }

  lemma UnitsAreOrdered()
    ensures TotalPreorder(UnitsAtMost)
  {
    hide WordAtMost;
    assert Alphabet(UnitBefore);
    forall s, t ensures UnitsAtMost(s, t) || UnitsAtMost(t, s) { WordsAreTotal(s, t, UnitBefore); }
    forall s, t, u | UnitsAtMost(s, t) && UnitsAtMost(t, u) ensures UnitsAtMost(s, u) {
      WordsAreTransitive(s, t, u, UnitBefore);
    }
  }

  lemma SortHolds<T(!new)>(xs: seq<T>, le: (T, T) -> bool)
    requires TotalPreorder(le) && Distinct(xs)
    ensures forall x :: x in Sort(xs, le) <==> x in xs
    ensures forall i, j | 0 <= i < j < |Sort(xs, le)| :: le(Sort(xs, le)[i], Sort(xs, le)[j])
    ensures Distinct(Sort(xs, le))
  {
    var s := Sort(xs, le);
    SortSorted(xs, le);
    forall x ensures x in s <==> x in xs { assert x in multiset(s) <==> x in multiset(xs); }
    assert SetOf(s) == SetOf(xs);
    SizeTellsDistinct(s);
    SizeTellsDistinct(xs);
  }

  ghost predicate Limits(a: Authority, limitation: JsString) {
    || (exists b :: b in a.bundles && String(limitation) in Items(b.outcome.limitationRefs))
    || (exists b, e :: b in a.bundles && e in b.entries && String(limitation) in Items(e.limitationRefs))
  }

  lemma LimitationIn(refs: seq<Json>, limitation: JsString)
    requires forall r | r in refs :: r.String?
    ensures limitation in Map(refs, TextOf) <==> String(limitation) in refs
  {
    MapHolds(refs, TextOf, limitation);
    if r :| r in refs && TextOf(r) == limitation { assert r == String(limitation); }
    if String(limitation) in refs { assert TextOf(String(limitation)) == limitation; }
  }

  lemma UniqueTextsAreStrings(v: Json)
    requires IsUniqueTextArray(v)
    ensures forall r | r in Items(v) :: r.String?
  {
  }

  function RefsOfOutcome(o: OutcomeView): seq<Json> { o.limitationRefs }

  function RefsOfEntry(e: EvidenceView): seq<Json> { e.limitationRefs }

  /** The limitations before they are sorted. */
  function Gathered(outcomes: seq<OutcomeView>, evidence: seq<EvidenceView>): seq<JsString> {
    Deduplicated(Map(Collect(outcomes, RefsOfOutcome) + Collect(evidence, RefsOfEntry), TextOf))
  }

  lemma LimitationsAreSorted(outcomes: seq<OutcomeView>, evidence: seq<EvidenceView>)
    ensures Limitations(outcomes, evidence) == Sort(Gathered(outcomes, evidence), UnitsAtMost)
  {
    hide Sort, Deduplicated, Collect, TextOf;
    SameCollect(outcomes, RefsOfOutcome, (o: OutcomeView) => o.limitationRefs);
    SameCollect(evidence, RefsOfEntry, (e: EvidenceView) => e.limitationRefs);
  }

  lemma GatheredHolds(outcomes: seq<OutcomeView>, evidence: seq<EvidenceView>, limitation: JsString)
    requires forall o | o in outcomes :: forall r | r in o.limitationRefs :: r.String?
    requires forall e | e in evidence :: forall r | r in e.limitationRefs :: r.String?
    ensures limitation in Gathered(outcomes, evidence)
       <==> || (exists o :: o in outcomes && String(limitation) in o.limitationRefs)
            || (exists e :: e in evidence && String(limitation) in e.limitationRefs)
    ensures Distinct(Gathered(outcomes, evidence))
  {
    var ofOutcomes, ofEntries := Collect(outcomes, RefsOfOutcome), Collect(evidence, RefsOfEntry);
    hide Collect, TextOf, Distinct;
    forall r: Json
      ensures r in ofOutcomes <==> exists o :: o in outcomes && r in RefsOfOutcome(o)
      ensures r in ofEntries <==> exists e :: e in evidence && r in RefsOfEntry(e)
    {
      CollectHolds(outcomes, RefsOfOutcome, r);
      CollectHolds(evidence, RefsOfEntry, r);
    }
    LimitationIn(ofOutcomes + ofEntries, limitation);
  }

  lemma LimitationsOfLists(outcomes: seq<OutcomeView>, evidence: seq<EvidenceView>)
    requires Distinct(Gathered(outcomes, evidence))
    ensures forall l :: l in Limitations(outcomes, evidence) <==> l in Gathered(outcomes, evidence)
    ensures Distinct(Limitations(outcomes, evidence))
    ensures forall i, j | 0 <= i < j < |Limitations(outcomes, evidence)| ::
              UnitsBefore(Limitations(outcomes, evidence)[i], Limitations(outcomes, evidence)[j])
  {
    hide Limitations, UnitsAtMost, Sort, Gathered, TotalPreorder, UnitsBefore;
    UnitsAreOrdered();
    LimitationsAreSorted(outcomes, evidence);
    SortHolds(Gathered(outcomes, evidence), UnitsAtMost);
    var sorted := Limitations(outcomes, evidence);
    forall i, j | 0 <= i < j < |sorted| ensures UnitsBefore(sorted[i], sorted[j]) { UnitsDecide(sorted[i], sorted[j]); }
  }

  lemma StringsOfShowable(a: Authority)
    requires IsShowable(a)
    ensures forall b | b in a.bundles :: forall r | r in Items(b.outcome.limitationRefs) :: r.String?
    ensures forall b, e | b in a.bundles && e in b.entries :: forall r | r in Items(e.limitationRefs) :: r.String?
  {
    hide IsShowable, IsUniqueTextArray, IsNonEmptyText, Items, BundleBelongs, StatusKnown;
    forall b | b in a.bundles ensures forall r | r in Items(b.outcome.limitationRefs) :: r.String? {
      BundleOfShowable(a, b);
      UniqueTextsAreStrings(b.outcome.limitationRefs);
    }
    forall b, e | b in a.bundles && e in b.entries ensures forall r | r in Items(e.limitationRefs) :: r.String? {
      BundleOfShowable(a, b);
      assert EntryWellFormed(e);
      EntryTexts(e);
      assert e.limitationRefs in [e.supportedClaimKinds, e.windowRefs, e.resultRefs, e.completenessReportRefs,
                                  e.dimensionPath, e.limitationRefs];
      UniqueTextsAreStrings(e.limitationRefs);
    }
  }

  lemma OutcomeLimits(a: Authority, atMost: Collation, r: Json)
    requires IsCollation(atMost)
    ensures (exists o :: o in Project(a, atMost).outcomes && r in o.limitationRefs)
       <==> exists b :: b in a.bundles && r in Items(b.outcome.limitationRefs)
  {
    hide Arrange, IsCollation, Limitations, Items;
    ArrangeKeeps(Outcomes(a), OutcomeKey, atMost);
    var shown := Project(a, atMost).outcomes;
    if o :| o in shown && r in o.limitationRefs {
      MapHolds(a.bundles, ViewOutcome, o);
    }
    if b :| b in a.bundles && r in Items(b.outcome.limitationRefs) {
      MapHolds(a.bundles, ViewOutcome, ViewOutcome(b));
      assert ViewOutcome(b) in shown && r in ViewOutcome(b).limitationRefs;
    }
  }

  lemma EntryLimits(a: Authority, atMost: Collation, r: Json)
    requires IsCollation(atMost)
    ensures (exists v :: v in Project(a, atMost).evidence && r in v.limitationRefs)
       <==> exists b, e :: b in a.bundles && e in b.entries && r in Items(e.limitationRefs)
  {
    hide Arrange, IsCollation, Limitations, Items, TextOf;
    ArrangeKeeps(Evidence(a), EntryKey, atMost);
    var shown := Project(a, atMost).evidence;
    if v :| v in shown && r in v.limitationRefs {
      EvidenceHolds(a, v);
      var b, e :| b in a.bundles && e in b.entries && ViewEntry(e) == v;
      assert r in Items(e.limitationRefs);
    }
    if b, e :| b in a.bundles && e in b.entries && r in Items(e.limitationRefs) {
      EvidenceHolds(a, ViewEntry(e));
      assert ViewEntry(e) in shown && r in ViewEntry(e).limitationRefs;
    }
  }

  /** The limitations of the view are exactly those that an outcome or an entry of the result names, each once,
    * in the order of their code units. */
  lemma ViewShowsLimitations(a: Authority, atMost: Collation, limitation: JsString)
    requires IsShowable(a) && IsCollation(atMost)
    ensures var shown := Project(a, atMost).limitations;
      && (limitation in shown <==> Limits(a, limitation))
      && Distinct(shown) && forall i, j | 0 <= i < j < |shown| :: UnitsBefore(shown[i], shown[j])
  {
    hide Arrange, IsCollation, Limitations, IsShowable, ShowsOutcome, ShowsEntry, Distinct, UnitsBefore;
    var outcomes, evidence := Project(a, atMost).outcomes, Project(a, atMost).evidence;
    ShownLimitationsAreStrings(a, atMost);
    ShownAreLimitations(a, atMost);
    hide Project, Gathered;
    GatheredHolds(outcomes, evidence, limitation);
    LimitationsOfLists(outcomes, evidence);
    OutcomeLimits(a, atMost, String(limitation));
    EntryLimits(a, atMost, String(limitation));
  }

  lemma ShownAreLimitations(a: Authority, atMost: Collation)
    ensures Project(a, atMost).limitations == Limitations(Project(a, atMost).outcomes, Project(a, atMost).evidence)
  {
    hide Arrange, Limitations;
  }

  lemma ShownLimitationsAreStrings(a: Authority, atMost: Collation)
    requires IsShowable(a) && IsCollation(atMost)
    ensures forall o | o in Project(a, atMost).outcomes :: forall r | r in o.limitationRefs :: r.String?
    ensures forall e | e in Project(a, atMost).evidence :: forall r | r in e.limitationRefs :: r.String?
  {
    hide IsShowable, IsCollation, Project, Items;
    StringsOfShowable(a);
    forall o, r | o in Project(a, atMost).outcomes && r in o.limitationRefs ensures r.String? {
      OutcomeLimits(a, atMost, r);
    }
    forall e, r | e in Project(a, atMost).evidence && r in e.limitationRefs ensures r.String? {
      EntryLimits(a, atMost, r);
    }
  }
}
