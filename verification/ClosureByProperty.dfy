/** Closure told by property instead of by record: everything belongs to one result, is well formed, is
  * supported by the plan, occurs once, and is named by what accounts for it. A result is closed exactly
  * when it has these properties. */
module ClosureByProperty {
  import opened Totals
  import opened CodePoints
  import opened CanonicalJson
  import opened References
  import opened ExecutionRecords
  import opened ExecutionClosure
  import opened ClosureLaws

  // ---- It all belongs to one result ----

  predicate TaskBelongs(a: Authority, t: Task) {
    t.planRevisionId == a.planRevisionId && t.authorityContextRef == a.authorityContextRef
  }

  predicate EntryBelongs(a: Authority, b: Bundle, e: EvidenceEntry) {
    && e.runAttemptId == a.runAttemptId && e.planRevisionId == a.planRevisionId
    && e.authorityContextRef == a.authorityContextRef
    && e.taskId == b.attempt.taskId && e.outcomeRef == b.outcome.outcomeRef
  }

  predicate FailureBelongs(a: Authority, b: Bundle, f: FailureRecord) {
    && f.runAttemptId == a.runAttemptId && f.planRevisionId == a.planRevisionId
    && f.taskId == b.attempt.taskId && f.attemptId == b.attempt.attemptId
  }

  predicate AttemptBelongs(a: Authority, b: Bundle) {
    && b.attempt.runAttemptId == b.outcome.runAttemptId == a.runAttemptId
    && b.attempt.planRevisionId == b.outcome.planRevisionId == a.planRevisionId
    && b.attempt.intentRevisionId == a.intentRevisionId
    && b.outcome.taskId == b.attempt.taskId && b.outcome.attemptId == b.attempt.attemptId
    && b.outcome.inputDigest == b.attempt.inputDigest
  }

  predicate BundleBelongs(a: Authority, b: Bundle) {
    && AttemptBelongs(a, b)
    && (forall e | e in b.entries :: EntryBelongs(a, b, e))
    && (forall f | f in b.failures :: FailureBelongs(a, b, f))
  }

  predicate AccountsBelong(a: Authority) {
    && a.plan.runAttemptId == a.snapshot.runAttemptId == a.stop.runAttemptId == a.runAttemptId
    && a.snapshot.planRevisionId == a.stop.planRevisionId == a.plan.planRevisionId == a.planRevisionId
    && a.plan.authorityContextRef == a.snapshot.authorityContextRef == a.authorityContextRef
    && a.plan.intentRevisionId == a.intentRevisionId
    && a.snapshot.executionSnapshotRef == a.executionSnapshotRef
    && a.snapshot.stopRef == a.stop.stopRef == a.stopRef
  }

  /** Every record carries the identifiers of the result, of its task, its attempt and its outcome. */
  predicate Belongs(a: Authority) {
    && AccountsBelong(a)
    && (forall t | t in a.plan.tasks :: TaskBelongs(a, t))
    && (forall b | b in a.bundles :: BundleBelongs(a, b))
  }

  // ---- It is well formed ----

  predicate IsScalar(v: Json) { !v.Object? && !v.Array? }

  /** A whole number from 0 to 2^53 - 1. */
  predicate IsNaturalNumber(v: Json) {
    v.Number? && 0.0 <= v.value <= 9007199254740991.0 && v.value.Floor as real == v.value
  }

  lemma CountIsNatural(v: Json)
    ensures IsCount(v) <==> IsNaturalNumber(v)
  {
  }

  predicate ObligationWellFormed(o: Obligation) {
    && o.isRecord && o.requirementIsRecord
    && IsNonEmptyText(o.obligationId) && IsNonEmptyText(o.claimKind) && IsNonEmptyText(o.role)
    && o.operator == String(Word("any_of")) && IsUniqueTextArray(o.evidenceKinds) && |o.evidenceKinds.items| > 0
  }

  predicate TaskWellFormed(t: Task) {
    && t.isRecord && t.edgesAreArray && IsNonEmptyText(t.taskId) && IsNonEmptyText(t.capabilityId)
    && IsUniqueTextArray(t.supportsObligationIds)
    && forall e | e in t.edges :: e.isRecord && IsNonEmptyText(e.obligationId) && e.required.Bool?
  }

  predicate EntryWellFormed(e: EvidenceEntry) {
    && e.isRecord && e.hierarchyQualified.Bool?
    && (forall v | v in [e.entryRef, e.evidenceRef, e.dataContractState, e.evidenceStrength, e.maximumClaimStrength,
                         e.scope] :: IsNonEmptyText(v))
    && (forall v | v in [e.supportedClaimKinds, e.windowRefs, e.resultRefs, e.completenessReportRefs, e.dimensionPath,
                         e.limitationRefs] :: IsUniqueTextArray(v))
  }

  predicate FailureWellFormed(f: FailureRecord) {
    && f.isRecord && f.userActionable.Bool?
    && forall v | v in [f.failureRef, f.scope, f.integrityLevel, f.retryability, f.businessBoundary] ::
         IsNonEmptyText(v)
  }

  /** What a value reads as: a string as itself, an array of one item as that item does. */
  function Reading(v: Json): Json {
    if v.Array? && |v.items| == 1 then Reading(v.items[0]) else v
  }

  predicate StatusKnown(v: Json) {
    Reading(v) in [Text("succeeded"), Text("unavailable"), Text("integrity_failed"), Text("technical_failed"),
                   Text("skipped"), Text("superseded")]
  }

  predicate AttemptWellFormed(b: Bundle) {
    && b.isRecord && b.hasItsFourFields && b.attempt.isRecord && b.outcome.isRecord
    && b.entriesAreArray && b.failuresAreArray
    && IsNonEmptyText(b.attempt.taskId) && IsNonEmptyText(b.attempt.attemptId) && IsNonEmptyText(b.outcome.outcomeRef)
    && IsScalar(b.attempt.inputDigest)
    && IsNaturalNumber(b.attempt.executionAttempt) && b.attempt.executionAttempt.value > 0.0
    && IsNaturalNumber(b.outcome.budgetUnits) && StatusKnown(b.outcome.status)
    && IsUniqueTextArray(b.outcome.evidenceRefs) && IsUniqueTextArray(b.outcome.affectedObligationIds)
    && IsUniqueTextArray(b.outcome.limitationRefs)
    && (b.outcome.failureRef.Null? || IsNonEmptyText(b.outcome.failureRef))
  }

  predicate BundleWellFormed(b: Bundle) {
    && AttemptWellFormed(b)
    && (forall e | e in b.entries :: EntryWellFormed(e)) && (forall f | f in b.failures :: FailureWellFormed(f))
  }

  predicate AccountsWellFormed(a: Authority) {
    && a.plan.tasksAreArray && a.plan.obligationsAreArray
    && (forall v | v in [a.runAttemptId, a.intentRevisionId, a.authorityContextRef, a.planRevisionId,
                         a.executionSnapshotRef, a.stopRef] :: IsScalar(v))
    && (forall v | v in [a.snapshot.outcomeRefs, a.snapshot.evidenceEntryRefs, a.snapshot.failureRefs,
                         a.stop.evaluatedOutcomeRefs] :: IsUniqueTextArray(v))
    && IsNaturalNumber(a.stop.usedBudgetUnits)
    && (a.stop.hardBudgetLimit.Null? || IsNaturalNumber(a.stop.hardBudgetLimit))
  }

  predicate WellFormed(a: Authority) {
    && AccountsWellFormed(a)
    && (forall o | o in a.plan.obligations :: ObligationWellFormed(o))
    && (forall t | t in a.plan.tasks :: TaskWellFormed(t))
    && (forall b | b in a.bundles :: BundleWellFormed(b))
  }

  // ---- The plan supports it ----

  /** The edges of a task lead to obligations of the plan, and it supports only where an edge leads. */
  predicate TaskSupported(a: Authority, t: Task) {
    && (forall e | e in t.edges :: exists o :: o in a.plan.obligations && o.obligationId == e.obligationId)
    && (forall id | id in Items(t.supportsObligationIds) :: exists e :: e in t.edges && e.obligationId == id)
  }

  /** The attempt is at a task of the plan that supports every obligation the outcome affects. */
  predicate BundleSupported(a: Authority, b: Bundle) {
    exists t :: t in a.plan.tasks && t.taskId == b.attempt.taskId
                && forall id | id in Items(b.outcome.affectedObligationIds) :: id in Items(t.supportsObligationIds)
  }

  predicate Supported(a: Authority) {
    && (forall t | t in a.plan.tasks :: TaskSupported(a, t))
    && (forall b | b in a.bundles :: BundleSupported(a, b))
  }

  // ---- It occurs once ----

  /** No obligation, task, edge of a task, attempt, outcome, entry or failure has the reference of another, and
    * no task is attempted twice. */
  ghost predicate OccursOnce(a: Authority) {
    && (forall i, j | 0 <= i < j < |a.plan.obligations| ::
          a.plan.obligations[i].obligationId != a.plan.obligations[j].obligationId)
    && (forall i, j | 0 <= i < j < |a.plan.tasks| :: a.plan.tasks[i].taskId != a.plan.tasks[j].taskId)
    && (forall t | t in a.plan.tasks :: forall i, j | 0 <= i < j < |t.edges| ::
          t.edges[i].obligationId != t.edges[j].obligationId)
    && (forall i, j | 0 <= i < j < |a.bundles| :: Apart(a.bundles[i], a.bundles[j]))
    && (forall b | b in a.bundles :: OwnOccurOnce(b))
  }

  ghost predicate Apart(b: Bundle, c: Bundle) {
    && b.attempt.taskId != c.attempt.taskId && b.attempt.attemptId != c.attempt.attemptId
    && b.outcome.outcomeRef != c.outcome.outcomeRef
    && (forall e, d | e in b.entries && d in c.entries :: e.entryRef != d.entryRef)
    && (forall f, g | f in b.failures && g in c.failures :: f.failureRef != g.failureRef)
  }

  ghost predicate OwnOccurOnce(b: Bundle) {
    forall i, j | 0 <= i < j < |b.entries| ::
      b.entries[i].entryRef != b.entries[j].entryRef && b.entries[i].evidenceRef != b.entries[j].evidenceRef
  }

  // ---- It is accounted for ----

  /** The outcome names the evidence of its entries and the one failure record there is, and it says enough
    * for its status. */
  ghost predicate OutcomeAccounts(b: Bundle) {
    && (forall r :: r in Items(b.outcome.evidenceRefs) <==> exists e :: e in b.entries && e.evidenceRef == r)
    && (if b.outcome.failureRef.Null? then b.failures == []
        else |b.failures| == 1 && b.failures[0].failureRef == b.outcome.failureRef)
    && (b.outcome.status == Text("succeeded") ==> b.entries != [])
    && (b.outcome.status in [Text("integrity_failed"), Text("technical_failed")] ==> b.failures != [])
  }

  /** The sum of the units of the outcomes. */
  function SumOfUnits(bundles: seq<Bundle>): real
    requires forall b | b in bundles :: b.outcome.budgetUnits.Number?
  {
    if bundles == [] then 0.0 else bundles[0].outcome.budgetUnits.value + SumOfUnits(bundles[1..])
  }

  /** The stop record states the sum of the units; a plan is exhausted only when each task was attempted, and
    * the hard budget is reached only when the sum reaches it. */
  ghost predicate StopAccounts(a: Authority)
    requires forall b | b in a.bundles :: b.outcome.budgetUnits.Number?
  {
    && a.stop.usedBudgetUnits == Number(SumOfUnits(a.bundles))
    && (a.stop.reason == Text("plan_exhausted") ==>
          forall t | t in a.plan.tasks :: exists b :: b in a.bundles && b.attempt.taskId == t.taskId)
    && (a.stop.reason == Text("hard_budget_reached") ==>
          a.stop.hardBudgetLimit.Number? && a.stop.hardBudgetLimit.value <= SumOfUnits(a.bundles))
  }

  ghost predicate HoldsOutcome(a: Authority, r: Json) {
    exists b :: b in a.bundles && b.outcome.outcomeRef == r
  }

  ghost predicate HoldsEntry(a: Authority, r: Json) {
    exists b, e :: b in a.bundles && e in b.entries && e.entryRef == r
  }

  ghost predicate HoldsFailure(a: Authority, r: Json) {
    exists b, f :: b in a.bundles && f in b.failures && f.failureRef == r
  }

  /** Snapshot and stop record name what the bundles hold and nothing else. */
  ghost predicate ReferencesAccount(a: Authority) {
    forall r ::
      && (r in Items(a.snapshot.outcomeRefs) <==> HoldsOutcome(a, r))
      && (r in Items(a.stop.evaluatedOutcomeRefs) <==> HoldsOutcome(a, r))
      && (r in Items(a.snapshot.evidenceEntryRefs) <==> HoldsEntry(a, r))
      && (r in Items(a.snapshot.failureRefs) <==> HoldsFailure(a, r))
  }

  ghost predicate AccountedFor(a: Authority)
    requires forall b | b in a.bundles :: b.outcome.budgetUnits.Number?
  {
    (forall b | b in a.bundles :: OutcomeAccounts(b)) && StopAccounts(a) && ReferencesAccount(a)
  }

  /** The properties together. */
  ghost predicate ClosesByProperty(a: Authority) {
    && Belongs(a) && WellFormed(a) && Supported(a) && OccursOnce(a)
    && (forall b | b in a.bundles :: b.outcome.budgetUnits.Number?) && AccountedFor(a)
  }

  // ---- Tasks ----

  lemma MembersAsSets(xs: seq<Json>, ys: seq<Json>)
    ensures SetOf(xs) == SetOf(ys) <==> forall r :: r in xs <==> r in ys
    ensures SetOf(xs) <= SetOf(ys) <==> forall r | r in xs :: r in ys
  {
    assert forall r :: r in SetOf(xs) <==> r in xs;
    assert forall r :: r in SetOf(ys) <==> r in ys;
  }

  lemma MappedMember<S>(xs: seq<S>, f: S -> Json, r: Json)
    ensures r in Map(xs, f) <==> exists x :: x in xs && f(x) == r
  {
    if r in Map(xs, f) {
      var i :| 0 <= i < |xs| && Map(xs, f)[i] == r;
      assert xs[i] in xs;
    }
    if x :| x in xs && f(x) == r {
      var i :| 0 <= i < |xs| && xs[i] == x;
      assert Map(xs, f)[i] == r;
    }
  }

  lemma DistinctMapped<S>(xs: seq<S>, f: S -> Json)
    ensures Distinct(Map(xs, f)) <==> forall i, j | 0 <= i < j < |xs| :: f(xs[i]) != f(xs[j])
  {
    var ys := Map(xs, f);
    if Distinct(ys) {
      forall i, j | 0 <= i < j < |xs| ensures f(xs[i]) != f(xs[j]) { assert ys[i] != ys[j]; }
    } else {
      var i, j :| 0 <= i < j < |ys| && ys[i] == ys[j];
      assert f(xs[i]) == f(xs[j]);
    }
  }

  lemma ObligationByProperty(o: Obligation)
    ensures ObligationOk(o) <==> ObligationWellFormed(o)
  {
    hide IsNonEmptyText, IsUniqueTextArray, Word;
  }

  lemma ObligationsByProperty(a: Authority)
    ensures ObligationsOk(a.plan.obligations)
       <==> && (forall o | o in a.plan.obligations :: ObligationWellFormed(o))
            && (forall i, j | 0 <= i < j < |a.plan.obligations| ::
                  a.plan.obligations[i].obligationId != a.plan.obligations[j].obligationId)
  {
    hide ObligationOk, ObligationWellFormed, Distinct;
    DistinctMapped(a.plan.obligations, (o: Obligation) => o.obligationId);
    forall o | o in a.plan.obligations ensures ObligationOk(o) <==> ObligationWellFormed(o) { ObligationByProperty(o); }
  }

  ghost predicate EdgesOccurOnce(t: Task) {
    forall i, j | 0 <= i < j < |t.edges| :: t.edges[i].obligationId != t.edges[j].obligationId
  }

  lemma EdgeByProperty(a: Authority, e: Edge)
    ensures EdgeOk(SetOf(ObligationIds(a.plan.obligations)), e)
       <==> && e.isRecord && IsNonEmptyText(e.obligationId) && e.required.Bool?
            && exists o :: o in a.plan.obligations && o.obligationId == e.obligationId
  {
    hide IsNonEmptyText;
    MappedMember(a.plan.obligations, (o: Obligation) => o.obligationId, e.obligationId);
  }

  lemma SupportsByEdges(t: Task)
    ensures SetOf(Items(t.supportsObligationIds)) <= SetOf(EdgeIds(t.edges))
       <==> forall id | id in Items(t.supportsObligationIds) :: exists e :: e in t.edges && e.obligationId == id
  {
    MembersAsSets(Items(t.supportsObligationIds), EdgeIds(t.edges));
    forall id ensures id in EdgeIds(t.edges) <==> exists e :: e in t.edges && e.obligationId == id {
      MappedMember(t.edges, (e: Edge) => e.obligationId, id);
    }
    hide Items, EdgeIds, SetOf;
  }

  lemma TaskByProperty(a: Authority, t: Task)
    requires IsScalar(a.planRevisionId) && IsScalar(a.authorityContextRef)
    ensures TaskOk(a, SetOf(ObligationIds(a.plan.obligations)), t)
       <==> TaskBelongs(a, t) && TaskWellFormed(t) && TaskSupported(a, t) && EdgesOccurOnce(t)
  {
    hide IsNonEmptyText, IsUniqueTextArray, Distinct, EdgeOk, SetOf, Items, ObligationIds;
    DistinctMapped(t.edges, (e: Edge) => e.obligationId);
    SupportsByEdges(t);
    forall e | e in t.edges
      ensures EdgeOk(SetOf(ObligationIds(a.plan.obligations)), e)
         <==> && e.isRecord && IsNonEmptyText(e.obligationId) && e.required.Bool?
              && exists o :: o in a.plan.obligations && o.obligationId == e.obligationId
    {
      EdgeByProperty(a, e);
    }
  }

  lemma TasksByProperty(a: Authority)
    requires IsScalar(a.planRevisionId) && IsScalar(a.authorityContextRef)
    ensures TasksOk(a, SetOf(ObligationIds(a.plan.obligations)), a.plan.tasks)
       <==> && (forall t | t in a.plan.tasks ::
                  TaskBelongs(a, t) && TaskWellFormed(t) && TaskSupported(a, t) && EdgesOccurOnce(t))
            && (forall i, j | 0 <= i < j < |a.plan.tasks| :: a.plan.tasks[i].taskId != a.plan.tasks[j].taskId)
  {
    hide TaskOk, TaskBelongs, TaskWellFormed, TaskSupported, EdgesOccurOnce, Distinct;
    DistinctMapped(a.plan.tasks, (t: Task) => t.taskId);
    forall t | t in a.plan.tasks
      ensures TaskOk(a, SetOf(ObligationIds(a.plan.obligations)), t)
         <==> TaskBelongs(a, t) && TaskWellFormed(t) && TaskSupported(a, t) && EdgesOccurOnce(t)
    {
      TaskByProperty(a, t);
    }
  }

  // ---- Bundles ----

  ghost predicate ScalarIds(a: Authority) {
    IsScalar(a.runAttemptId) && IsScalar(a.intentRevisionId) && IsScalar(a.authorityContextRef)
    && IsScalar(a.planRevisionId)
  }

  lemma TextIsScalar(v: Json)
    ensures IsNonEmptyText(v) ==> IsScalar(v)
  {
  }

  lemma EntryByProperty(a: Authority, b: Bundle, e: EvidenceEntry)
    requires ScalarIds(a) && IsScalar(b.attempt.taskId) && IsScalar(b.outcome.outcomeRef)
    ensures EntryOk(a, b, e) <==> EntryBelongs(a, b, e) && EntryWellFormed(e)
  {
    hide IsNonEmptyText, IsUniqueTextArray;
    assert EntryWellFormed(e) <==>
      && e.isRecord && e.hierarchyQualified.Bool?
      && IsNonEmptyText(e.entryRef) && IsNonEmptyText(e.evidenceRef) && IsNonEmptyText(e.dataContractState)
      && IsNonEmptyText(e.evidenceStrength) && IsNonEmptyText(e.maximumClaimStrength) && IsNonEmptyText(e.scope)
      && IsUniqueTextArray(e.supportedClaimKinds) && IsUniqueTextArray(e.windowRefs)
      && IsUniqueTextArray(e.resultRefs) && IsUniqueTextArray(e.completenessReportRefs)
      && IsUniqueTextArray(e.dimensionPath) && IsUniqueTextArray(e.limitationRefs);
  }

  lemma FailureByProperty(a: Authority, b: Bundle, f: FailureRecord)
    requires ScalarIds(a) && IsScalar(b.attempt.taskId) && IsScalar(b.attempt.attemptId)
    ensures FailureOk(a, b, f) <==> FailureBelongs(a, b, f) && FailureWellFormed(f)
  {
    hide IsNonEmptyText;
    assert FailureWellFormed(f) <==>
      && f.isRecord && f.userActionable.Bool? && IsNonEmptyText(f.failureRef) && IsNonEmptyText(f.scope)
      && IsNonEmptyText(f.integrityLevel) && IsNonEmptyText(f.retryability) && IsNonEmptyText(f.businessBoundary);
  }

  lemma {:induction false} ReadsAsReading(v: Json, words: set<JsString>)
    ensures Reads(v, words) <==> Reading(v).String? && Reading(v).text in words
  {
    if v.Array? && |v.items| == 1 { ReadsAsReading(v.items[0], words); }
  }

  lemma StatusByProperty(v: Json)
    ensures Reads(v, OUTCOME_STATUSES) <==> StatusKnown(v)
  {
    ReadsAsReading(v, OUTCOME_STATUSES);
    hide Reads, Reading, Word;
  }

  /** An outcome that succeeded names evidence, and one that failed names its failure. */
  predicate OutcomeExplained(b: Bundle) {
    && (b.outcome.status == Text("succeeded") ==> Items(b.outcome.evidenceRefs) != [])
    && (b.outcome.status in [Text("integrity_failed"), Text("technical_failed")] ==> !b.outcome.failureRef.Null?)
  }

  lemma BundleFieldsByProperty(a: Authority, b: Bundle)
    requires ScalarIds(a)
    ensures BundleFieldsOk(a, b) <==> AttemptBelongs(a, b) && AttemptWellFormed(b) && OutcomeExplained(b)
  {
    hide IsNonEmptyText, IsUniqueTextArray, Reads, StatusKnown, Word;
    StatusByProperty(b.outcome.status);
    CountIsNatural(b.outcome.budgetUnits);
    CountIsNatural(b.attempt.executionAttempt);
    TextIsScalar(b.attempt.taskId);
    TextIsScalar(b.attempt.attemptId);
    UniqueTextsAreDistinct(b.outcome.evidenceRefs);
  }

  lemma AttemptsByProperty(a: Authority, b: Bundle)
    ensures AttemptsPlannedTask(a.plan.tasks, b) <==> BundleSupported(a, b)
  {
    hide SetOf, Items;
    forall t | t in a.plan.tasks
      ensures SetOf(Items(b.outcome.affectedObligationIds)) <= SetOf(Items(t.supportsObligationIds))
         <==> forall id | id in Items(b.outcome.affectedObligationIds) :: id in Items(t.supportsObligationIds)
    {
      MembersAsSets(Items(b.outcome.affectedObligationIds), Items(t.supportsObligationIds));
    }
  }

  ghost predicate EvidenceOccursOnce(b: Bundle) {
    forall i, j | 0 <= i < j < |b.entries| :: b.entries[i].evidenceRef != b.entries[j].evidenceRef
  }

  ghost predicate EvidenceNamed(b: Bundle) {
    forall r :: r in Items(b.outcome.evidenceRefs) <==> exists e :: e in b.entries && e.evidenceRef == r
  }

  ghost predicate FailureNamed(b: Bundle) {
    if b.outcome.failureRef.Null? then b.failures == []
    else |b.failures| == 1 && b.failures[0].failureRef == b.outcome.failureRef
  }

  lemma EvidenceByProperty(a: Authority, b: Bundle)
    requires ScalarIds(a) && IsScalar(b.attempt.taskId) && IsScalar(b.outcome.outcomeRef)
    ensures EvidenceOk(a, b)
       <==> && (forall e | e in b.entries :: EntryBelongs(a, b, e) && EntryWellFormed(e))
            && EvidenceOccursOnce(b) && EvidenceNamed(b)
  {
    hide EntryOk, EntryBelongs, EntryWellFormed, Distinct, Items, SetOf, ScalarIds;
    DistinctMapped(b.entries, (e: EvidenceEntry) => e.evidenceRef);
    MembersAsSets(EvidenceRefs(b.entries), Items(b.outcome.evidenceRefs));
    forall r ensures r in EvidenceRefs(b.entries) <==> exists e :: e in b.entries && e.evidenceRef == r {
      MappedMember(b.entries, (e: EvidenceEntry) => e.evidenceRef, r);
    }
    forall e | e in b.entries ensures EntryOk(a, b, e) <==> EntryBelongs(a, b, e) && EntryWellFormed(e) {
      EntryByProperty(a, b, e);
    }
  }

  lemma FailuresByProperty(a: Authority, b: Bundle)
    requires ScalarIds(a) && IsScalar(b.attempt.taskId) && IsScalar(b.attempt.attemptId)
    ensures FailuresOk(a, b)
       <==> && (forall f | f in b.failures :: FailureBelongs(a, b, f) && FailureWellFormed(f))
            && FailureNamed(b)
  {
    hide FailureOk, FailureBelongs, FailureWellFormed, ScalarIds;
    forall f | f in b.failures ensures FailureOk(a, b, f) <==> FailureBelongs(a, b, f) && FailureWellFormed(f) {
      FailureByProperty(a, b, f);
    }
    OneFailure(b);
  }

  lemma OneFailure(b: Bundle)
    ensures FailureRefs(b.failures) == (if b.outcome.failureRef == Null then [] else [b.outcome.failureRef])
       <==> FailureNamed(b)
  {
  }

  lemma BundleByProperty(a: Authority, b: Bundle)
    requires ScalarIds(a)
    ensures BundleOk(a, b)
       <==> BundleBelongs(a, b) && BundleWellFormed(b) && BundleSupported(a, b) && EvidenceOccursOnce(b)
            && OutcomeAccounts(b)
  {
    hide ScalarIds, BundleFieldsOk, AttemptBelongs, AttemptWellFormed, AttemptsPlannedTask, BundleSupported, EvidenceOk,
         FailuresOk, EntryBelongs, EntryWellFormed, FailureBelongs, FailureWellFormed, EvidenceOccursOnce,
         EvidenceNamed, FailureNamed, OutcomeExplained, OutcomeAccounts;
    BundleFieldsByProperty(a, b);
    AttemptsByProperty(a, b);
    if AttemptWellFormed(b) {
      ScalarFields(b);
      EvidenceByProperty(a, b);
      FailuresByProperty(a, b);
      AccountsOfOutcome(b);
    }
  }

  lemma ScalarFields(b: Bundle)
    requires AttemptWellFormed(b)
    ensures IsScalar(b.attempt.taskId) && IsScalar(b.attempt.attemptId) && IsScalar(b.outcome.outcomeRef)
  {
  }

  lemma AccountsOfOutcome(b: Bundle)
    ensures OutcomeAccounts(b) <==> EvidenceNamed(b) && FailureNamed(b) && OutcomeExplained(b)
  {
    if EvidenceNamed(b) { NoEvidence(b); }
    hide Word, Items;
  }

  lemma NoEvidence(b: Bundle)
    requires EvidenceNamed(b)
    ensures Items(b.outcome.evidenceRefs) == [] <==> b.entries == []
  {
    if b.entries != [] {
      assert b.entries[0] in b.entries && b.entries[0].evidenceRef in Items(b.outcome.evidenceRefs);
    }
    if Items(b.outcome.evidenceRefs) != [] { assert Items(b.outcome.evidenceRefs)[0] in Items(b.outcome.evidenceRefs); }
  }

  // ---- All bundles ----

  lemma {:induction false} CollectedOnce<S>(xs: seq<S>, refs: S -> seq<Json>)
    requires forall i, j | 0 <= i < j < |xs| :: forall r | r in refs(xs[i]) :: r !in refs(xs[j])
    requires forall i | 0 <= i < |xs| :: Distinct(refs(xs[i]))
    ensures Distinct(Collect(xs, refs))
  {
    if xs != [] {
      var n := |xs| - 1;
      CollectedOnce(xs[..n], refs);
      DistinctAppend(Collect(xs[..n], refs), refs(xs[n]));
      forall r | r in refs(xs[n]) ensures r !in Collect(xs[..n], refs) { CollectedBySome(xs[..n], refs, r); }
    }
  }

  lemma {:induction false} CollectedPartsOnce<S>(xs: seq<S>, refs: S -> seq<Json>)
    requires Distinct(Collect(xs, refs))
    ensures forall i | 0 <= i < |xs| :: Distinct(refs(xs[i]))
    ensures forall i, j | 0 <= i < j < |xs| :: forall r | r in refs(xs[i]) :: r !in refs(xs[j])
  {
    if xs != [] {
      var n := |xs| - 1;
      DistinctAppend(Collect(xs[..n], refs), refs(xs[n]));
      CollectedPartsOnce(xs[..n], refs);
    }
    forall i, j, r | 0 <= i < j < |xs| && r in refs(xs[i]) ensures r !in refs(xs[j]) {
      CollectedByOne(xs, refs, r, i, j);
    }
  }

  ghost predicate EntriesApart(b: Bundle, c: Bundle) {
    forall e, d | e in b.entries && d in c.entries :: e.entryRef != d.entryRef
  }

  ghost predicate FailuresApart(b: Bundle, c: Bundle) {
    forall f, g | f in b.failures && g in c.failures :: f.failureRef != g.failureRef
  }

  lemma ApartByMap<S>(xs: seq<S>, ys: seq<S>, f: S -> Json)
    ensures (forall x, y | x in xs && y in ys :: f(x) != f(y)) <==> forall r | r in Map(xs, f) :: r !in Map(ys, f)
  {
    hide Map;
    if forall x, y | x in xs && y in ys :: f(x) != f(y) {
      forall r | r in Map(xs, f) ensures r !in Map(ys, f) {
        MappedMember(xs, f, r);
        MappedMember(ys, f, r);
      }
    }
    if forall r | r in Map(xs, f) :: r !in Map(ys, f) {
      forall x, y | x in xs && y in ys ensures f(x) != f(y) {
        MappedMember(xs, f, f(x));
        MappedMember(ys, f, f(x));
      }
    }
  }

  lemma EntriesApartByRefs(b: Bundle, c: Bundle)
    ensures EntriesApart(b, c) <==> forall r | r in EntryRefs(b.entries) :: r !in EntryRefs(c.entries)
  {
    var ref := (e: EvidenceEntry) => e.entryRef;
    assert EntryRefs(b.entries) == Map(b.entries, ref) && EntryRefs(c.entries) == Map(c.entries, ref);
    ApartByMap(b.entries, c.entries, ref);
    hide Map, EntryRefs;
  }

  lemma FailuresApartByRefs(b: Bundle, c: Bundle)
    ensures FailuresApart(b, c) <==> forall r | r in FailureRefs(b.failures) :: r !in FailureRefs(c.failures)
  {
    var ref := (f: FailureRecord) => f.failureRef;
    assert FailureRefs(b.failures) == Map(b.failures, ref) && FailureRefs(c.failures) == Map(c.failures, ref);
    ApartByMap(b.failures, c.failures, ref);
    hide Map, FailureRefs;
  }

  ghost predicate EntriesOccurOnce(b: Bundle) {
    forall i, j | 0 <= i < j < |b.entries| :: b.entries[i].entryRef != b.entries[j].entryRef
  }

  lemma EntryRefsOnce(bundles: seq<Bundle>)
    ensures Distinct(AllEntryRefs(bundles))
       <==> && (forall i, j | 0 <= i < j < |bundles| :: EntriesApart(bundles[i], bundles[j]))
            && (forall i | 0 <= i < |bundles| :: EntriesOccurOnce(bundles[i]))
  {
    var refs := (b: Bundle) => EntryRefs(b.entries);
    hide Distinct, EntriesApart, EntriesOccurOnce, EntryRefs;
    forall i | 0 <= i < |bundles| ensures Distinct(refs(bundles[i])) <==> EntriesOccurOnce(bundles[i]) {
      OwnEntryRefsOnce(bundles[i]);
    }
    forall i, j | 0 <= i < j < |bundles|
      ensures EntriesApart(bundles[i], bundles[j]) <==> forall r | r in refs(bundles[i]) :: r !in refs(bundles[j])
    {
      EntriesApartByRefs(bundles[i], bundles[j]);
    }
    assert Collect(bundles, refs) == AllEntryRefs(bundles) by {
      SameCollect(bundles, refs, (b: Bundle) => EntryRefs(b.entries));
    }
    CollectedExactlyOnce(bundles, refs);
  }

  lemma CollectedExactlyOnce<S>(xs: seq<S>, refs: S -> seq<Json>)
    ensures Distinct(Collect(xs, refs))
       <==> && (forall i, j | 0 <= i < j < |xs| :: forall r | r in refs(xs[i]) :: r !in refs(xs[j]))
            && (forall i | 0 <= i < |xs| :: Distinct(refs(xs[i])))
  {
    hide Distinct, Collect;
    if Distinct(Collect(xs, refs)) { CollectedPartsOnce(xs, refs); }
    if (forall i, j | 0 <= i < j < |xs| :: forall r | r in refs(xs[i]) :: r !in refs(xs[j]))
       && (forall i | 0 <= i < |xs| :: Distinct(refs(xs[i])))
    {
      CollectedOnce(xs, refs);
    }
  }

  lemma OwnEntryRefsOnce(b: Bundle)
    ensures Distinct(EntryRefs(b.entries)) <==> EntriesOccurOnce(b)
  {
    DistinctMapped(b.entries, (e: EvidenceEntry) => e.entryRef);
  }

  lemma FailureRefsOnce(bundles: seq<Bundle>)
    requires forall b | b in bundles :: FailureNamed(b)
    ensures Distinct(AllFailureRefs(bundles))
       <==> forall i, j | 0 <= i < j < |bundles| :: FailuresApart(bundles[i], bundles[j])
  {
    var refs := (b: Bundle) => FailureRefs(b.failures);
    forall i | 0 <= i < |bundles| ensures Distinct(refs(bundles[i])) { assert FailureNamed(bundles[i]); }
    hide Distinct, FailuresApart, FailureRefs, FailureNamed;
    forall i, j | 0 <= i < j < |bundles|
      ensures FailuresApart(bundles[i], bundles[j]) <==> forall r | r in refs(bundles[i]) :: r !in refs(bundles[j])
    {
      FailuresApartByRefs(bundles[i], bundles[j]);
    }
    assert Collect(bundles, refs) == AllFailureRefs(bundles) by {
      SameCollect(bundles, refs, (b: Bundle) => FailureRefs(b.failures));
    }
    CollectedExactlyOnce(bundles, refs);
  }

  lemma NothingSharedByProperty(bundles: seq<Bundle>)
    requires forall b | b in bundles :: FailureNamed(b)
    ensures NothingShared(bundles)
       <==> && (forall i, j | 0 <= i < j < |bundles| :: Apart(bundles[i], bundles[j]))
            && (forall i | 0 <= i < |bundles| :: EntriesOccurOnce(bundles[i]))
  {
    hide Distinct, AllEntryRefs, AllFailureRefs, EntriesOccurOnce, FailureNamed;
    DistinctMapped(bundles, (b: Bundle) => b.attempt.taskId);
    DistinctMapped(bundles, (b: Bundle) => b.attempt.attemptId);
    DistinctMapped(bundles, (b: Bundle) => b.outcome.outcomeRef);
    EntryRefsOnce(bundles);
    FailureRefsOnce(bundles);
  }

  // ---- The accounts ----

  lemma {:induction false} UnitsByProperty(bundles: seq<Bundle>)
    requires forall b | b in bundles :: b.outcome.budgetUnits.Number?
    ensures UsedBudget(bundles) == SumOfUnits(bundles)
  {
    if bundles != [] { UnitsByProperty(bundles[1..]); }
  }

  lemma HeldOutcomes(a: Authority, r: Json)
    ensures r in OutcomeRefs(a.bundles) <==> HoldsOutcome(a, r)
  {
    MappedMember(a.bundles, (b: Bundle) => b.outcome.outcomeRef, r);
  }

  lemma HeldEntries(a: Authority, r: Json)
    ensures r in AllEntryRefs(a.bundles) <==> HoldsEntry(a, r)
  {
    var refs := (b: Bundle) => EntryRefs(b.entries);
    assert Collect(a.bundles, refs) == AllEntryRefs(a.bundles) by {
      SameCollect(a.bundles, refs, (b: Bundle) => EntryRefs(b.entries));
    }
    CollectedBySome(a.bundles, refs, r);
    forall i | 0 <= i < |a.bundles|
      ensures r in refs(a.bundles[i]) <==> exists e :: e in a.bundles[i].entries && e.entryRef == r
    {
      MappedMember(a.bundles[i].entries, (e: EvidenceEntry) => e.entryRef, r);
    }
    hide EntryRefs, Collect, AllEntryRefs;
    if b, e :| b in a.bundles && e in b.entries && e.entryRef == r {
      var i :| 0 <= i < |a.bundles| && a.bundles[i] == b;
      assert r in refs(a.bundles[i]);
    }
  }

  lemma HeldFailures(a: Authority, r: Json)
    ensures r in AllFailureRefs(a.bundles) <==> HoldsFailure(a, r)
  {
    var refs := (b: Bundle) => FailureRefs(b.failures);
    assert Collect(a.bundles, refs) == AllFailureRefs(a.bundles) by {
      SameCollect(a.bundles, refs, (b: Bundle) => FailureRefs(b.failures));
    }
    CollectedBySome(a.bundles, refs, r);
    forall i | 0 <= i < |a.bundles|
      ensures r in refs(a.bundles[i]) <==> exists f :: f in a.bundles[i].failures && f.failureRef == r
    {
      MappedMember(a.bundles[i].failures, (f: FailureRecord) => f.failureRef, r);
    }
    hide FailureRefs, Collect, AllFailureRefs;
    if b, f :| b in a.bundles && f in b.failures && f.failureRef == r {
      var i :| 0 <= i < |a.bundles| && a.bundles[i] == b;
      assert r in refs(a.bundles[i]);
    }
  }

  lemma ReferencesByProperty(a: Authority)
    ensures ReferencesAccount(a)
       <==> && SetOf(Items(a.snapshot.outcomeRefs)) == SetOf(OutcomeRefs(a.bundles))
            && SetOf(Items(a.stop.evaluatedOutcomeRefs)) == SetOf(OutcomeRefs(a.bundles))
            && SetOf(Items(a.snapshot.evidenceEntryRefs)) == SetOf(AllEntryRefs(a.bundles))
            && SetOf(Items(a.snapshot.failureRefs)) == SetOf(AllFailureRefs(a.bundles))
  {
    MembersAsSets(Items(a.snapshot.outcomeRefs), OutcomeRefs(a.bundles));
    MembersAsSets(Items(a.stop.evaluatedOutcomeRefs), OutcomeRefs(a.bundles));
    MembersAsSets(Items(a.snapshot.evidenceEntryRefs), AllEntryRefs(a.bundles));
    MembersAsSets(Items(a.snapshot.failureRefs), AllFailureRefs(a.bundles));
    hide SetOf, Items, OutcomeRefs, AllEntryRefs, AllFailureRefs, HoldsOutcome, HoldsEntry, HoldsFailure;
    forall r
      ensures r in OutcomeRefs(a.bundles) <==> HoldsOutcome(a, r)
      ensures r in AllEntryRefs(a.bundles) <==> HoldsEntry(a, r)
      ensures r in AllFailureRefs(a.bundles) <==> HoldsFailure(a, r)
    {
      HeldOutcomes(a, r);
      HeldEntries(a, r);
      HeldFailures(a, r);
    }
  }

  lemma AccountsByProperty(a: Authority)
    requires forall b | b in a.bundles :: b.outcome.budgetUnits.Number?
    ensures AccountsBalance(a) <==> StopAccounts(a) && ReferencesAccount(a)
  {
    UnitsByProperty(a.bundles);
    ReferencesByProperty(a);
    hide SetOf, Items, OutcomeRefs, AllEntryRefs, AllFailureRefs, ReferencesAccount, UsedBudget, SumOfUnits;
  }

  lemma RecordsByProperty(a: Authority)
    ensures RecordsAgree(a) <==> AccountsBelong(a) && AccountsWellFormed(a)
  {
    CountIsNatural(a.stop.usedBudgetUnits);
    CountIsNatural(a.stop.hardBudgetLimit);
    hide IsUniqueTextArray, IsNaturalNumber, IsCount;
    assert AccountsWellFormed(a) <==>
      && a.plan.tasksAreArray && a.plan.obligationsAreArray
      && IsScalar(a.runAttemptId) && IsScalar(a.intentRevisionId) && IsScalar(a.authorityContextRef)
      && IsScalar(a.planRevisionId) && IsScalar(a.executionSnapshotRef) && IsScalar(a.stopRef)
      && IsUniqueTextArray(a.snapshot.outcomeRefs) && IsUniqueTextArray(a.snapshot.evidenceEntryRefs)
      && IsUniqueTextArray(a.snapshot.failureRefs) && IsUniqueTextArray(a.stop.evaluatedOutcomeRefs)
      && IsNaturalNumber(a.stop.usedBudgetUnits)
      && (a.stop.hardBudgetLimit.Null? || IsNaturalNumber(a.stop.hardBudgetLimit));
  }

  ghost predicate BundleHasProperties(a: Authority, b: Bundle) {
    && BundleBelongs(a, b) && BundleWellFormed(b) && BundleSupported(a, b) && EvidenceOccursOnce(b)
    && OutcomeAccounts(b)
  }

  lemma BundlesByProperty(a: Authority)
    requires ScalarIds(a)
    ensures BundlesOk(a, a.bundles)
       <==> && (forall b | b in a.bundles :: BundleHasProperties(a, b))
            && (forall i, j | 0 <= i < j < |a.bundles| :: Apart(a.bundles[i], a.bundles[j]))
            && (forall i | 0 <= i < |a.bundles| :: EntriesOccurOnce(a.bundles[i]))
  {
    hide BundleOk, BundleHasProperties, NothingShared, Apart, EntriesOccurOnce, FailureNamed, ScalarIds;
    forall b | b in a.bundles ensures BundleOk(a, b) <==> BundleHasProperties(a, b) { BundleHas(a, b); }
    if forall b | b in a.bundles :: BundleHasProperties(a, b) {
      forall b | b in a.bundles ensures FailureNamed(b) { AccountedNamesFailure(a, b); }
      NothingSharedByProperty(a.bundles);
    }
  }

  lemma BundleHas(a: Authority, b: Bundle)
    requires ScalarIds(a)
    ensures BundleOk(a, b) <==> BundleHasProperties(a, b)
  {
    hide *;
    BundleByProperty(a, b);
    assert BundleHasProperties(a, b)
      <==> BundleBelongs(a, b) && BundleWellFormed(b) && BundleSupported(a, b) && EvidenceOccursOnce(b)
           && OutcomeAccounts(b) by {
      UnfoldBundle(a, b);
    }
  }

  lemma UnfoldBundle(a: Authority, b: Bundle)
    ensures BundleHasProperties(a, b)
       <==> BundleBelongs(a, b) && BundleWellFormed(b) && BundleSupported(a, b) && EvidenceOccursOnce(b)
            && OutcomeAccounts(b)
  {
    hide BundleBelongs, BundleWellFormed, BundleSupported, EvidenceOccursOnce, OutcomeAccounts;
  }

  lemma AccountedNamesFailure(a: Authority, b: Bundle)
    requires BundleHasProperties(a, b)
    ensures FailureNamed(b)
  {
  }

  lemma OwnOnceByParts(b: Bundle)
    ensures OwnOccurOnce(b) <==> EvidenceOccursOnce(b) && EntriesOccurOnce(b)
  {
  }

  lemma OccursOnceByParts(a: Authority)
    ensures OccursOnce(a)
       <==> && (forall i, j | 0 <= i < j < |a.plan.obligations| ::
                  a.plan.obligations[i].obligationId != a.plan.obligations[j].obligationId)
            && (forall i, j | 0 <= i < j < |a.plan.tasks| :: a.plan.tasks[i].taskId != a.plan.tasks[j].taskId)
            && (forall t | t in a.plan.tasks :: EdgesOccurOnce(t))
            && (forall i, j | 0 <= i < j < |a.bundles| :: Apart(a.bundles[i], a.bundles[j]))
            && (forall b | b in a.bundles :: EvidenceOccursOnce(b))
            && (forall i | 0 <= i < |a.bundles| :: EntriesOccurOnce(a.bundles[i]))
  {
    hide Apart;
    forall b | b in a.bundles ensures OwnOccurOnce(b) <==> EvidenceOccursOnce(b) && EntriesOccurOnce(b) {
      OwnOnceByParts(b);
    }
    hide OwnOccurOnce, EvidenceOccursOnce, EntriesOccurOnce;
  }

  /** What closure asks of plan and bundles, besides what `RecordsAgree` asks. */
  ghost predicate PartsHaveProperties(a: Authority) {
    && (forall t | t in a.plan.tasks :: TaskBelongs(a, t) && TaskWellFormed(t))
    && (forall b | b in a.bundles :: BundleBelongs(a, b) && BundleWellFormed(b))
    && (forall o | o in a.plan.obligations :: ObligationWellFormed(o))
    && Supported(a) && OccursOnce(a) && (forall b | b in a.bundles :: OutcomeAccounts(b))
  }

  lemma PlanAndBundlesByProperty(a: Authority)
    requires ScalarIds(a)
    ensures PlanOk(a) && BundlesOk(a, a.bundles) <==> PartsHaveProperties(a)
  {
    ObligationsByProperty(a);
    TasksByProperty(a);
    BundlesByProperty(a);
    OccursOnceByParts(a);
    hide ObligationsOk, TasksOk, BundlesOk, OccursOnce, TaskBelongs, TaskWellFormed, TaskSupported, EdgesOccurOnce,
         BundleBelongs, BundleWellFormed, BundleSupported, EvidenceOccursOnce, OutcomeAccounts, Apart, EntriesOccurOnce,
         ObligationWellFormed, ObligationIds, SetOf, ScalarIds;
  }

  lemma UnitsAreNumbers(a: Authority)
    requires forall b | b in a.bundles :: BundleWellFormed(b)
    ensures forall b | b in a.bundles :: b.outcome.budgetUnits.Number?
  {
    forall b | b in a.bundles ensures b.outcome.budgetUnits.Number? { assert BundleWellFormed(b); }
  }

  lemma PartsByProperty(a: Authority)
    requires ScalarIds(a)
    ensures PlanOk(a) && BundlesOk(a, a.bundles) && AccountsBalance(a)
       <==> && PartsHaveProperties(a) && (forall b | b in a.bundles :: b.outcome.budgetUnits.Number?)
            && StopAccounts(a) && ReferencesAccount(a)
  {
    PlanAndBundlesByProperty(a);
    hide PlanOk, BundlesOk, AccountsBalance, StopAccounts, ReferencesAccount, Supported, OccursOnce, ScalarIds,
         TaskBelongs, TaskWellFormed, BundleBelongs, BundleWellFormed, ObligationWellFormed, OutcomeAccounts;
    if PartsHaveProperties(a) {
      UnitsAreNumbers(a);
      AccountsByProperty(a);
    }
  }

  lemma PropertiesByParts(a: Authority)
    ensures ClosesByProperty(a)
       <==> && AccountsBelong(a) && AccountsWellFormed(a) && PartsHaveProperties(a)
            && (forall b | b in a.bundles :: b.outcome.budgetUnits.Number?) && StopAccounts(a) && ReferencesAccount(a)
  {
    hide AccountsBelong, AccountsWellFormed, StopAccounts, ReferencesAccount, Supported, OccursOnce,
         TaskBelongs, TaskWellFormed, BundleBelongs, BundleWellFormed, ObligationWellFormed, OutcomeAccounts;
  }

  lemma ScalarsOfResult(a: Authority)
    requires AccountsWellFormed(a)
    ensures ScalarIds(a)
  {
  }

  lemma ClosedByParts(a: Authority)
    ensures Closed(a) <==> RecordsAgree(a) && PlanOk(a) && BundlesOk(a, a.bundles) && AccountsBalance(a)
  {
    hide RecordsAgree, PlanOk, BundlesOk, AccountsBalance;
  }

  /** A result is closed exactly when it has the properties. */
  lemma ClosedByProperty(a: Authority)
    ensures Closed(a) <==> ClosesByProperty(a)
  {
    hide *;
    ClosedByParts(a);
    PropertiesByParts(a);
    RecordsByProperty(a);
    if AccountsWellFormed(a) {
      ScalarsOfResult(a);
      PartsByProperty(a);
    }
  }
}
