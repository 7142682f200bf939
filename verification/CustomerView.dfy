/** The customer's view of an execution result: what it shows of tasks, obligations, outcomes, evidence
  * and failures, each list in the order of its identifiers, the limitations that apply, and the stop
  * (`projectExecutionAuthorityForCustomer`). It is only taken of closed results. */
module CustomerView {
  import opened CodePoints
  import opened CanonicalJson
  import opened Sorting
  import opened StableSort
  import opened Totals
  import opened References
  import opened ExecutionRecords
  import opened ExecutionClosure
  import opened ClosureOrder

  /** `left.localeCompare(right) <= 0`: a total preorder in which different texts may tie. */
  type Collation = (JsString, JsString) -> bool

  /** `String(value)` of a text, or of an array whose one item reads as a text. */
  function TextOf(v: Json): JsString {
    if v.String? then v.text else if v.Array? && |v.items| == 1 then TextOf(v.items[0]) else []
  }

  datatype NeedView = NeedView(obligationId: JsString, required: bool)

  datatype TaskView = TaskView(taskId: JsString, capabilityId: JsString, obligations: seq<NeedView>)

  datatype ObligationView = ObligationView(obligationId: JsString, claimKind: JsString, role: JsString,
                                           operator: JsString, evidenceKinds: seq<Json>)

  datatype OutcomeView = OutcomeView(outcomeRef: JsString, taskId: JsString, status: JsString, evidenceRefs: seq<Json>,
                                     affectedObligationIds: seq<Json>, limitationRefs: seq<Json>)

  datatype EvidenceView = EvidenceView(
    entryRef: JsString, evidenceRef: JsString, taskId: JsString, outcomeRef: JsString, status: JsString,
    evidenceKind: JsString, dataContractState: JsString, supportedClaimKinds: seq<Json>, evidenceStrength: JsString,
    maximumClaimStrength: JsString, scope: JsString, windowRefs: seq<Json>, resultRefs: seq<Json>,
    completenessReportRefs: seq<Json>, dimensionPath: seq<Json>, hierarchyQualified: bool, limitationRefs: seq<Json>)

  datatype FailureView = FailureView(failureRef: JsString, taskId: JsString, scope: JsString, integrityLevel: JsString,
                                     retryability: JsString, userActionable: bool, businessBoundary: JsString)

  datatype StopView = StopView(stopRef: JsString, reason: JsString, evaluatedOutcomeRefs: seq<Json>,
                               usedBudgetUnits: Json, hardBudgetLimit: Json)

  datatype View = View(resultRef: JsString, planRevisionId: JsString, executionSnapshotRef: JsString,
                       tasks: seq<TaskView>, outcomes: seq<OutcomeView>, obligations: seq<ObligationView>,
                       evidence: seq<EvidenceView>, failures: seq<FailureView>, limitations: seq<JsString>,
                       stop: StopView)

  function ViewTask(t: Task): TaskView {
    TaskView(TextOf(t.taskId), TextOf(t.capabilityId),
             Map(t.edges, (e: Edge) => NeedView(TextOf(e.obligationId), e.required == Bool(true))))
  }

  function ViewObligation(o: Obligation): ObligationView {
    ObligationView(TextOf(o.obligationId), TextOf(o.claimKind), TextOf(o.role), TextOf(o.operator),
                   Items(o.evidenceKinds))
  }

  function ViewOutcome(b: Bundle): OutcomeView {
    var o := b.outcome;
    OutcomeView(TextOf(o.outcomeRef), TextOf(o.taskId), TextOf(o.status), Items(o.evidenceRefs),
                Items(o.affectedObligationIds), Items(o.limitationRefs))
  }

  function ViewEntry(e: EvidenceEntry): EvidenceView {
    EvidenceView(
      TextOf(e.entryRef), TextOf(e.evidenceRef), TextOf(e.taskId), TextOf(e.outcomeRef), TextOf(e.executionState),
      TextOf(e.evidenceKind), TextOf(e.dataContractState), Items(e.supportedClaimKinds), TextOf(e.evidenceStrength),
      TextOf(e.maximumClaimStrength), TextOf(e.scope), Items(e.windowRefs), Items(e.resultRefs),
      Items(e.completenessReportRefs), Items(e.dimensionPath), e.hierarchyQualified == Bool(true),
      Items(e.limitationRefs))
  }

  function ViewFailure(f: FailureRecord): FailureView {
    FailureView(TextOf(f.failureRef), TextOf(f.taskId), TextOf(f.scope), TextOf(f.integrityLevel),
                TextOf(f.retryability), f.userActionable == Bool(true), TextOf(f.businessBoundary))
  }

  function ViewEntries(b: Bundle): seq<EvidenceView> { Map(b.entries, ViewEntry) }

  function ViewFailures(b: Bundle): seq<FailureView> { Map(b.failures, ViewFailure) }

  function TaskKey(t: TaskView): JsString { t.taskId }
  function ObligationKey(o: ObligationView): JsString { o.obligationId }
  function OutcomeKey(o: OutcomeView): JsString { o.outcomeRef }
  function EntryKey(e: EvidenceView): JsString { e.entryRef }
  function FailureKey(f: FailureView): JsString { f.failureRef }

  function Tasks(a: Authority): seq<TaskView> { Map(a.plan.tasks, ViewTask) }
  function Obligations(a: Authority): seq<ObligationView> { Map(a.plan.obligations, ViewObligation) }
  function Outcomes(a: Authority): seq<OutcomeView> { Map(a.bundles, ViewOutcome) }
  function Evidence(a: Authority): seq<EvidenceView> { Collect(a.bundles, ViewEntries) }
  function Failures(a: Authority): seq<FailureView> { Collect(a.bundles, ViewFailures) }

  function InOrderOf<T>(key: T -> JsString, atMost: Collation): (T, T) -> bool {
    (x, y) => atMost(key(x), key(y))
  }

  function Arrange<T>(xs: seq<T>, key: T -> JsString, atMost: Collation): seq<T> {
    Sort(xs, InOrderOf(key, atMost))
  }

  /** Each member once, where it comes first. */
  function Deduplicated<T(==, !new)>(xs: seq<T>): (r: seq<T>)
    ensures Distinct(r) && forall x :: x in r <==> x in xs
  {
    if xs == [] then []
    else
      var front, x := Deduplicated(xs[..|xs| - 1]), xs[|xs| - 1];
      assert xs == xs[..|xs| - 1] + [x];
      DistinctSnoc(front, x);
      if x in front then front else front + [x]
  }

  predicate UnitBefore(u: CodeUnit, v: CodeUnit) { u < v }

  /** The order of `sort()`: by code units. */
  predicate UnitsAtMost(s: JsString, t: JsString) { WordAtMost(s, t, UnitBefore) }

  function Limitations(outcomes: seq<OutcomeView>, evidence: seq<EvidenceView>): seq<JsString> {
    var refs := Collect(outcomes, (o: OutcomeView) => o.limitationRefs)
                + Collect(evidence, (e: EvidenceView) => e.limitationRefs);
    Sort(Deduplicated(Map(refs, TextOf)), UnitsAtMost)
  }

  function Project(a: Authority, atMost: Collation): View {
    var outcomes := Arrange(Outcomes(a), OutcomeKey, atMost);
    var evidence := Arrange(Evidence(a), EntryKey, atMost);
    View(
      TextOf(a.resultRef), TextOf(a.planRevisionId), TextOf(a.executionSnapshotRef),
      Arrange(Tasks(a), TaskKey, atMost), outcomes, Arrange(Obligations(a), ObligationKey, atMost), evidence,
      Arrange(Failures(a), FailureKey, atMost), Limitations(outcomes, evidence),
      StopView(TextOf(a.stop.stopRef), TextOf(a.stop.reason), Items(a.stop.evaluatedOutcomeRefs),
               a.stop.usedBudgetUnits, a.stop.hardBudgetLimit))
  }

  // ---- Collations ----

  /** Different identifiers of the list do not tie. */
  ghost predicate TellsApart(atMost: Collation, keys: seq<JsString>) {
    forall k, l | k in keys && l in keys && atMost(k, l) && atMost(l, k) :: k == l
  }

  ghost predicate IsCollation(atMost: Collation) {
    && (forall s, t :: atMost(s, t) || atMost(t, s))
    && (forall s, t, u :: atMost(s, t) && atMost(t, u) ==> atMost(s, u))
  }

  lemma InOrderIsPreorder<T(!new)>(key: T -> JsString, atMost: Collation)
    requires IsCollation(atMost)
    ensures TotalPreorder(InOrderOf(key, atMost))
  {
    var le := InOrderOf(key, atMost);
    forall x, y ensures le(x, y) || le(y, x) { assert atMost(key(x), key(y)) || atMost(key(y), key(x)); }
    forall x, y, z | le(x, y) && le(y, z) ensures le(x, z) { assert atMost(key(x), key(y)) && atMost(key(y), key(z)); }
  }

  lemma ArrangeForgetsOrder<T(!new)>(xs: seq<T>, ys: seq<T>, key: T -> JsString, atMost: Collation)
    requires IsCollation(atMost) && multiset(xs) == multiset(ys)
    requires Distinct(Map(xs, key)) && TellsApart(atMost, Map(xs, key))
    ensures Arrange(xs, key, atMost) == Arrange(ys, key, atMost)
  {
    var le := InOrderOf(key, atMost);
    var keys := Map(xs, key);
    InOrderIsPreorder(key, atMost);
    assert TieFree(xs, le) by {
      forall x, y | x in xs && y in xs && le(x, y) && le(y, x) ensures x == y {
        var i :| 0 <= i < |xs| && xs[i] == x;
        var j :| 0 <= j < |xs| && xs[j] == y;
        assert keys[i] in keys && keys[j] in keys && keys[i] == keys[j];
      }
    }
    hide Distinct, TellsApart, TieFree, TotalPreorder;
    SortPermutation(xs, ys, le);
  }

  // ---- The identifiers of a closed result ----

  lemma TextsStayDistinct(ids: seq<Json>)
    requires Distinct(ids) && forall id | id in ids :: id.String?
    ensures Distinct(Map(ids, TextOf))
  {
    forall i, j | 0 <= i < j < |ids| ensures TextOf(ids[i]) != TextOf(ids[j]) { assert ids[i] in ids && ids[j] in ids; }
  }

  function EntryKeys(b: Bundle): seq<JsString> { Map(EntryRefs(b.entries), TextOf) }

  function FailureKeys(b: Bundle): seq<JsString> { Map(FailureRefs(b.failures), TextOf) }

  lemma {:induction false} KeysOfCollected<T, U>(bundles: seq<Bundle>, items: Bundle -> seq<T>, key: T -> U,
                                                 keys: Bundle -> seq<U>)
    requires forall b :: keys(b) == Map(items(b), key)
    ensures Map(Collect(bundles, items), key) == Collect(bundles, keys)
  {
    if bundles != [] {
      KeysOfCollected(bundles[..|bundles| - 1], items, key, keys);
    }
  }

  lemma KeysOfLists(a: Authority)
    ensures Map(Tasks(a), TaskKey) == Map(TaskIds(a.plan.tasks), TextOf)
    ensures Map(Obligations(a), ObligationKey) == Map(ObligationIds(a.plan.obligations), TextOf)
    ensures Map(Outcomes(a), OutcomeKey) == Map(OutcomeRefs(a.bundles), TextOf)
  {
  }

  lemma KeysOfPieces(a: Authority)
    ensures Map(Evidence(a), EntryKey) == Map(AllEntryRefs(a.bundles), TextOf)
    ensures Map(Failures(a), FailureKey) == Map(AllFailureRefs(a.bundles), TextOf)
  {
    hide EntryRefs, FailureRefs;
    forall b
      ensures EntryKeys(b) == Map(ViewEntries(b), EntryKey) && FailureKeys(b) == Map(ViewFailures(b), FailureKey)
    {
      KeysOfBundle(b);
    }
    KeysOfCollected(a.bundles, ViewEntries, EntryKey, EntryKeys);
    KeysOfCollected(a.bundles, ViewFailures, FailureKey, FailureKeys);
    KeysOfCollected(a.bundles, (b: Bundle) => EntryRefs(b.entries), TextOf, EntryKeys);
    KeysOfCollected(a.bundles, (b: Bundle) => FailureRefs(b.failures), TextOf, FailureKeys);
  }

  lemma KeysOfBundle(b: Bundle)
    ensures EntryKeys(b) == Map(ViewEntries(b), EntryKey) && FailureKeys(b) == Map(ViewFailures(b), FailureKey)
  {
    forall i | 0 <= i < |b.entries| ensures EntryKeys(b)[i] == EntryKey(ViewEntries(b)[i]) { }
    forall i | 0 <= i < |b.failures| ensures FailureKeys(b)[i] == FailureKey(ViewFailures(b)[i]) { }
  }

  lemma ClosedPlanHasTexts(a: Authority)
    requires PlanOk(a)
    ensures Distinct(TaskIds(a.plan.tasks)) && Distinct(ObligationIds(a.plan.obligations))
    ensures forall id | id in TaskIds(a.plan.tasks) :: id.String?
    ensures forall id | id in ObligationIds(a.plan.obligations) :: id.String?
  {
    hide Distinct, EdgesOk, IsUniqueTextArray, Identical, SetOf;
    var tasks, obligations := TaskIds(a.plan.tasks), ObligationIds(a.plan.obligations);
    forall i | 0 <= i < |tasks| ensures tasks[i].String? { assert a.plan.tasks[i] in a.plan.tasks; }
    forall i | 0 <= i < |obligations|
      ensures obligations[i].String?
    {
      assert a.plan.obligations[i] in a.plan.obligations;
    }
  }

  lemma ClosedBundleHasTexts(a: Authority, b: Bundle)
    requires BundleOk(a, b)
    ensures b.outcome.outcomeRef.String?
    ensures forall id | id in EntryRefs(b.entries) :: id.String?
    ensures forall id | id in FailureRefs(b.failures) :: id.String?
  {
    hide Distinct, AttemptsPlannedTask, IsUniqueTextArray, Identical, SetOf, EntryDescribed, Reads, IsCount;
    var entries := EntryRefs(b.entries);
    forall i | 0 <= i < |entries| ensures entries[i].String? { assert EntryOk(a, b, b.entries[i]); }
  }

  lemma {:induction false} CollectedAll<S, T>(xs: seq<S>, refs: S -> seq<T>, good: T -> bool)
    requires forall x | x in xs :: forall r | r in refs(x) :: good(r)
    ensures forall r | r in Collect(xs, refs) :: good(r)
  {
    if xs != [] {
      assert forall x | x in xs[..|xs| - 1] :: x in xs;
      assert xs[|xs| - 1] in xs;
      CollectedAll(xs[..|xs| - 1], refs, good);
    }
  }

  lemma ClosedBundlesHaveTexts(a: Authority)
    requires BundlesOk(a, a.bundles)
    ensures forall id | id in OutcomeRefs(a.bundles) :: id.String?
    ensures forall id | id in AllEntryRefs(a.bundles) :: id.String?
    ensures forall id | id in AllFailureRefs(a.bundles) :: id.String?
  {
    hide BundleOk, EntryRefs, FailureRefs, NothingShared;
    forall b | b in a.bundles
      ensures b.outcome.outcomeRef.String?
      ensures forall id | id in EntryRefs(b.entries) :: id.String?
      ensures forall id | id in FailureRefs(b.failures) :: id.String?
    {
      ClosedBundleHasTexts(a, b);
    }
    CollectedAll(a.bundles, (b: Bundle) => EntryRefs(b.entries), (id: Json) => id.String?);
    CollectedAll(a.bundles, (b: Bundle) => FailureRefs(b.failures), (id: Json) => id.String?);
    var refs := OutcomeRefs(a.bundles);
    forall i | 0 <= i < |refs| ensures refs[i].String? { assert a.bundles[i] in a.bundles; }
  }

  /** No list of the view has an identifier twice. */
  lemma KeysAreDistinct(a: Authority)
    requires Closed(a)
    ensures Distinct(Map(Tasks(a), TaskKey)) && Distinct(Map(Obligations(a), ObligationKey))
    ensures Distinct(Map(Outcomes(a), OutcomeKey))
    ensures Distinct(Map(Evidence(a), EntryKey)) && Distinct(Map(Failures(a), FailureKey))
  {
    ClosedPlanHasTexts(a);
    ClosedBundlesHaveTexts(a);
    assert NothingShared(a.bundles);
    KeysOfLists(a);
    KeysOfPieces(a);
    TextsStayDistinct(TaskIds(a.plan.tasks));
    TextsStayDistinct(ObligationIds(a.plan.obligations));
    TextsStayDistinct(OutcomeRefs(a.bundles));
    TextsStayDistinct(AllEntryRefs(a.bundles));
    TextsStayDistinct(AllFailureRefs(a.bundles));
    hide *;
  }

  // ---- Rearrangements ----

  /** Entries and failures of each bundle are rearranged. */
  ghost predicate SamePieces(a: Authority, z: Authority) {
    && |z.bundles| == |a.bundles|
    && (forall i | 0 <= i < |a.bundles| :: PiecesReordered(a.bundles[i], z.bundles[i]))
    && z == a.(bundles := z.bundles)
  }

  ghost predicate PiecesReordered(b: Bundle, y: Bundle) {
    && multiset(y.entries) == multiset(b.entries) && multiset(y.failures) == multiset(b.failures)
    && y == b.(entries := y.entries, failures := y.failures)
  }

  /** The parts of the result in another order, and the pieces of each bundle in another order. */
  ghost predicate Rearranged(a: Authority, z: Authority) {
    exists m :: Reordered(a, m) && SamePieces(m, z)
  }

  lemma RearrangedKeepsLists(a: Authority, m: Authority, z: Authority)
    requires Reordered(a, m) && SamePieces(m, z)
    ensures multiset(Tasks(z)) == multiset(Tasks(a)) && multiset(Obligations(z)) == multiset(Obligations(a))
    ensures multiset(Outcomes(z)) == multiset(Outcomes(a))
    ensures z.stop == a.stop && z.resultRef == a.resultRef
    ensures z.planRevisionId == a.planRevisionId && z.executionSnapshotRef == a.executionSnapshotRef
  {
    MapMultiset(a.plan.tasks, m.plan.tasks, ViewTask);
    MapMultiset(a.plan.obligations, m.plan.obligations, ViewObligation);
    MapMultiset(a.bundles, m.bundles, ViewOutcome);
    assert Outcomes(z) == Outcomes(m) by {
      forall i | 0 <= i < |m.bundles| ensures ViewOutcome(z.bundles[i]) == ViewOutcome(m.bundles[i]) {
        assert PiecesReordered(m.bundles[i], z.bundles[i]);
      }
    }
  }

  lemma RearrangedKeepsPieces(a: Authority, m: Authority, z: Authority)
    requires Reordered(a, m) && SamePieces(m, z)
    ensures multiset(Evidence(z)) == multiset(Evidence(a)) && multiset(Failures(z)) == multiset(Failures(a))
  {
    CollectPermutation(a.bundles, m.bundles, ViewEntries);
    CollectPermutation(a.bundles, m.bundles, ViewFailures);
    forall i | 0 <= i < |m.bundles|
      ensures multiset(ViewEntries(m.bundles[i])) == multiset(ViewEntries(z.bundles[i]))
      ensures multiset(ViewFailures(m.bundles[i])) == multiset(ViewFailures(z.bundles[i]))
    {
      assert PiecesReordered(m.bundles[i], z.bundles[i]);
      MapMultiset(m.bundles[i].entries, z.bundles[i].entries, ViewEntry);
      MapMultiset(m.bundles[i].failures, z.bundles[i].failures, ViewFailure);
    }
    CollectPointwise(m.bundles, z.bundles, ViewEntries);
    CollectPointwise(m.bundles, z.bundles, ViewFailures);
  }

  ghost predicate CollationFits(a: Authority, atMost: Collation) {
    && TellsApart(atMost, Map(Tasks(a), TaskKey))
    && TellsApart(atMost, Map(Obligations(a), ObligationKey))
    && TellsApart(atMost, Map(Outcomes(a), OutcomeKey))
    && TellsApart(atMost, Map(Evidence(a), EntryKey))
    && TellsApart(atMost, Map(Failures(a), FailureKey))
  }

  lemma FittingViewForgetsOrder(a: Authority, z: Authority, atMost: Collation)
    requires Closed(a) && Rearranged(a, z) && IsCollation(atMost) && CollationFits(a, atMost)
    ensures Project(z, atMost) == Project(a, atMost)
  {
    var m :| Reordered(a, m) && SamePieces(m, z);
    hide Closed, Reordered, SamePieces, Distinct, TellsApart, IsCollation, Arrange, Tasks, Obligations, Outcomes,
         Evidence, Failures, Limitations;
    KeysAreDistinct(a);
    RearrangedKeepsLists(a, m, z);
    RearrangedKeepsPieces(a, m, z);
    ArrangeForgetsOrder(Tasks(a), Tasks(z), TaskKey, atMost);
    ArrangeForgetsOrder(Obligations(a), Obligations(z), ObligationKey, atMost);
    ArrangeForgetsOrder(Outcomes(a), Outcomes(z), OutcomeKey, atMost);
    ArrangeForgetsOrder(Evidence(a), Evidence(z), EntryKey, atMost);
    ArrangeForgetsOrder(Failures(a), Failures(z), FailureKey, atMost);
  }

  // ---- When two identifiers tie ----

  /** A list that starts with `x` is arranged like `xs`. */
  ghost predicate CanComeFirst<T(!new)>(x: T, xs: seq<T>, key: T -> JsString, atMost: Collation) {
    exists ys: seq<T> :: ys != [] && ys[0] == x && Arrange(ys, key, atMost) == Arrange(xs, key, atMost)
  }

  lemma ComesFirst<T(!new)>(ys: seq<T>, xs: seq<T>, key: T -> JsString, atMost: Collation)
    requires ys != [] && Arrange(ys, key, atMost) == Arrange(xs, key, atMost)
    ensures CanComeFirst(ys[0], xs, key, atMost)
  {
  }

  lemma FirstsWithOneKey<T(!new)>(x: T, y: T, xs: seq<T>, key: T -> JsString, atMost: Collation)
    requires IsCollation(atMost) && CanComeFirst(x, xs, key, atMost) && CanComeFirst(y, xs, key, atMost)
    requires atMost(key(x), key(y)) && atMost(key(y), key(x))
    ensures x == y
  {
    InOrderIsPreorder(key, atMost);
    hide IsCollation;
    var ys: seq<T> :| ys != [] && ys[0] == x && Arrange(ys, key, atMost) == Arrange(xs, key, atMost);
    var zs: seq<T> :| zs != [] && zs[0] == y && Arrange(zs, key, atMost) == Arrange(xs, key, atMost);
    hide Sort, TotalPreorder;
    if x != y { HeadsShow(ys, zs, InOrderOf(key, atMost)); }
  }

  /** If each member of the list can come first and the arranged list never changes, no two members with
    * different keys tie. */
  lemma NoTiesWhenUnchanged<T(!new)>(xs: seq<T>, key: T -> JsString, atMost: Collation)
    requires IsCollation(atMost)
    requires forall i | 0 <= i < |xs| :: CanComeFirst(xs[i], xs, key, atMost)
    ensures TellsApart(atMost, Map(xs, key))
  {
    hide IsCollation, CanComeFirst;
    var keys := Map(xs, key);
    forall k, l | k in keys && l in keys && atMost(k, l) && atMost(l, k) ensures k == l {
      var i :| 0 <= i < |keys| && keys[i] == k;
      var j :| 0 <= j < |keys| && keys[j] == l;
      FirstsWithOneKey(xs[i], xs[j], xs, key, atMost);
    }
  }

  ghost predicate ViewIsFixed(a: Authority, atMost: Collation) {
    forall z | Rearranged(a, z) :: Project(z, atMost) == Project(a, atMost)
  }

  lemma ReorderedIsRearranged(a: Authority, z: Authority)
    requires Reordered(a, z)
    ensures Rearranged(a, z)
  {
    assert SamePieces(z, z);
  }

  lemma TasksDoNotTie(a: Authority, atMost: Collation)
    requires IsCollation(atMost) && ViewIsFixed(a, atMost)
    ensures TellsApart(atMost, Map(Tasks(a), TaskKey))
  {
    forall i | 0 <= i < |Tasks(a)|
      ensures CanComeFirst(Tasks(a)[i], Tasks(a), TaskKey, atMost)
    {
      var z := a.(plan := a.plan.(tasks := MovedToFront(a.plan.tasks, i)));
      assert Reordered(a, z);
      ReorderedIsRearranged(a, z);
      hide Arrange, Limitations, Reordered, Rearranged;
      assert Project(z, atMost).tasks == Project(a, atMost).tasks;
      assert Tasks(z) != [] && Tasks(z)[0] == Tasks(a)[i];
      ComesFirst(Tasks(z), Tasks(a), TaskKey, atMost);
    }
    NoTiesWhenUnchanged(Tasks(a), TaskKey, atMost);
  }

  lemma ObligationsDoNotTie(a: Authority, atMost: Collation)
    requires IsCollation(atMost) && ViewIsFixed(a, atMost)
    ensures TellsApart(atMost, Map(Obligations(a), ObligationKey))
  {
    forall i | 0 <= i < |Obligations(a)|
      ensures CanComeFirst(Obligations(a)[i], Obligations(a), ObligationKey, atMost)
    {
      var z := a.(plan := a.plan.(obligations := MovedToFront(a.plan.obligations, i)));
      assert Reordered(a, z);
      ReorderedIsRearranged(a, z);
      hide Arrange, Limitations, Reordered, Rearranged;
      assert Project(z, atMost).obligations == Project(a, atMost).obligations;
      assert Obligations(z) != [] && Obligations(z)[0] == Obligations(a)[i];
      ComesFirst(Obligations(z), Obligations(a), ObligationKey, atMost);
    }
    NoTiesWhenUnchanged(Obligations(a), ObligationKey, atMost);
  }

  lemma OutcomesDoNotTie(a: Authority, atMost: Collation)
    requires IsCollation(atMost) && ViewIsFixed(a, atMost)
    ensures TellsApart(atMost, Map(Outcomes(a), OutcomeKey))
  {
    forall i | 0 <= i < |Outcomes(a)|
      ensures CanComeFirst(Outcomes(a)[i], Outcomes(a), OutcomeKey, atMost)
    {
      var z := BundleFirst(a, i);
      ReorderedIsRearranged(a, z);
      hide Arrange, Limitations, Rearranged;
      assert Project(z, atMost).outcomes == Project(a, atMost).outcomes;
      assert Outcomes(z) != [] && Outcomes(z)[0] == Outcomes(a)[i];
      ComesFirst(Outcomes(z), Outcomes(a), OutcomeKey, atMost);
    }
    NoTiesWhenUnchanged(Outcomes(a), OutcomeKey, atMost);
  }

  lemma BundleFirst(a: Authority, i: nat) returns (z: Authority)
    requires i < |a.bundles|
    ensures Reordered(a, z) && z.bundles != [] && z.bundles[0] == a.bundles[i]
  {
    z := a.(bundles := MovedToFront(a.bundles, i));
  }

  /** The list that holds a collected member, and its place there. */
  lemma {:induction false} HomeOf<S, T>(xs: seq<S>, refs: S -> seq<T>, k: nat) returns (i: nat, j: nat)
    requires k < |Collect(xs, refs)|
    ensures i < |xs| && j < |refs(xs[i])| && refs(xs[i])[j] == Collect(xs, refs)[k]
  {
    var n := |xs| - 1;
    var front := Collect(xs[..n], refs);
    if k < |front| {
      i, j := HomeOf(xs[..n], refs, k);
    } else {
      i, j := n, k - |front|;
    }
  }

  lemma EntryFirst(a: Authority, i: nat, j: nat) returns (z: Authority)
    requires i < |a.bundles| && j < |a.bundles[i].entries|
    ensures Rearranged(a, z) && Evidence(z) != [] && Evidence(z)[0] == ViewEntry(a.bundles[i].entries[j])
  {
    var m := BundleFirst(a, i);
    var b := m.bundles[0];
    z := m.(bundles := m.bundles[0 := b.(entries := MovedToFront(b.entries, j))]);
    assert SamePieces(m, z);
    assert ViewEntries(z.bundles[0])[0] == ViewEntry(b.entries[j]);
    FirstOfCollected(z.bundles, ViewEntries);
  }

  lemma FailureFirst(a: Authority, i: nat, j: nat) returns (z: Authority)
    requires i < |a.bundles| && j < |a.bundles[i].failures|
    ensures Rearranged(a, z) && Failures(z) != [] && Failures(z)[0] == ViewFailure(a.bundles[i].failures[j])
  {
    var m := BundleFirst(a, i);
    var b := m.bundles[0];
    z := m.(bundles := m.bundles[0 := b.(failures := MovedToFront(b.failures, j))]);
    assert SamePieces(m, z);
    assert ViewFailures(z.bundles[0])[0] == ViewFailure(b.failures[j]);
    FirstOfCollected(z.bundles, ViewFailures);
  }

  lemma EvidenceDoesNotTie(a: Authority, atMost: Collation)
    requires IsCollation(atMost) && ViewIsFixed(a, atMost)
    ensures TellsApart(atMost, Map(Evidence(a), EntryKey))
  {
    hide Arrange, Limitations, Rearranged;
    forall k | 0 <= k < |Evidence(a)|
      ensures CanComeFirst(Evidence(a)[k], Evidence(a), EntryKey, atMost)
    {
      var i, j := HomeOf(a.bundles, ViewEntries, k);
      var z := EntryFirst(a, i, j);
      assert Project(z, atMost).evidence == Project(a, atMost).evidence;
      assert Evidence(z)[0] == Evidence(a)[k];
      ComesFirst(Evidence(z), Evidence(a), EntryKey, atMost);
    }
    NoTiesWhenUnchanged(Evidence(a), EntryKey, atMost);
  }

  lemma FailuresDoNotTie(a: Authority, atMost: Collation)
    requires IsCollation(atMost) && ViewIsFixed(a, atMost)
    ensures TellsApart(atMost, Map(Failures(a), FailureKey))
  {
    hide Arrange, Limitations, Rearranged;
    forall k | 0 <= k < |Failures(a)|
      ensures CanComeFirst(Failures(a)[k], Failures(a), FailureKey, atMost)
    {
      var i, j := HomeOf(a.bundles, ViewFailures, k);
      var z := FailureFirst(a, i, j);
      assert Project(z, atMost).failures == Project(a, atMost).failures;
      assert Failures(z)[0] == Failures(a)[k];
      ComesFirst(Failures(z), Failures(a), FailureKey, atMost);
    }
    NoTiesWhenUnchanged(Failures(a), FailureKey, atMost);
  }

  /** The customer's view of a closed result is the same for every order of its parts exactly when the
    * collation tells its identifiers apart. */
  lemma ViewForgetsOrder(a: Authority, atMost: Collation)
    requires Closed(a) && IsCollation(atMost)
    ensures ViewIsFixed(a, atMost) <==> CollationFits(a, atMost)
  {
    hide Closed, Rearranged, Project, IsCollation, TellsApart, Tasks, Obligations, Outcomes, Evidence, Failures;
    if CollationFits(a, atMost) {
      forall z | Rearranged(a, z)
        ensures Project(z, atMost) == Project(a, atMost)
      {
        FittingViewForgetsOrder(a, z, atMost);
      }
    }
    if ViewIsFixed(a, atMost) {
      TasksDoNotTie(a, atMost);
      ObligationsDoNotTie(a, atMost);
      OutcomesDoNotTie(a, atMost);
      EvidenceDoesNotTie(a, atMost);
      FailuresDoNotTie(a, atMost);
    }
  }
}
