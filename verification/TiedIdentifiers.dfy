/** A closed result whose customer view shows in which order its tasks came. */
module TiedIdentifiers {
  import opened CodePoints
  import opened CanonicalJson
  import opened Totals
  import opened References
  import opened ExecutionRecords
  import opened ExecutionClosure
  import opened ResultValidators
  import opened CustomerView

  const OTHER_ID: Json := String([50])

  function PlainTask(taskId: Json): Task { Task(true, taskId, ID, ID, ID, true, [], EMPTY) }

  /** Nothing was attempted of a plan with two tasks. */
  function TwoTasks(): Authority {
    var a := EmptyResult(Text("no_ready_tasks")).authority;
    a.(plan := a.plan.(tasks := [PlainTask(ID), PlainTask(OTHER_ID)]))
  }

  lemma OtherReasons()
    ensures Text("no_ready_tasks") != Text("hard_budget_reached") && Text("no_ready_tasks") != Text("plan_exhausted")
  {
    assert |Word("no_ready_tasks")| == 14 && |Word("hard_budget_reached")| == 19;
    assert Word("no_ready_tasks")[0] != Word("plan_exhausted")[0];
  }

  lemma PlainTaskIsOk(taskId: Json)
    requires IsNonEmptyText(taskId)
    ensures TaskOk(TwoTasks(), {}, PlainTask(taskId))
  {
    IdIsText();
    hide IsNonEmptyText, Word;
    assert IsUniqueTextArray(EMPTY);
  }

  lemma OtherIdIsText()
    ensures IsNonEmptyText(OTHER_ID)
  {
    LetterFirstIsNotBlank([50]);
  }

  lemma TwoTasksArePlanned()
    ensures PlanOk(TwoTasks())
  {
    var z := TwoTasks();
    IdIsText();
    OtherIdIsText();
    PlainTaskIsOk(ID);
    PlainTaskIsOk(OTHER_ID);
    hide TaskOk, IsNonEmptyText, Word, ObligationOk;
    assert ObligationIds(z.plan.obligations) == [];
    assert TaskIds(z.plan.tasks) == [ID, OTHER_ID];
  }

  lemma NothingElseChanged(a: Authority, tasks: seq<Task>)
    requires Closed(a) && a.stop.reason != Text("plan_exhausted") && a.bundles == []
    ensures var z := a.(plan := a.plan.(tasks := tasks));
            RecordsAgree(z) && BundlesOk(z, z.bundles) && AccountsBalance(z)
  {
    hide IsNonEmptyText, Word, IsUniqueTextArray, IsCount, Identical, PlanOk, UsedBudget, SetOf, BundleOk,
         NothingShared;
  }

  lemma TwoTasksAreClosed()
    ensures Closed(TwoTasks())
  {
    OtherReasons();
    EmptyResultIsClosed(Text("no_ready_tasks"));
    TwoTasksArePlanned();
    var a := EmptyResult(Text("no_ready_tasks")).authority;
    NothingElseChanged(a, [PlainTask(ID), PlainTask(OTHER_ID)]);
    hide RecordsAgree, PlanOk, BundlesOk, AccountsBalance, Word;
  }

  /** A collation that takes all texts for one. */
  predicate NoDifference(s: JsString, t: JsString) { true }

  /** The result is closed, and under a collation that does not tell its tasks apart it has two views. */
  lemma TiesShowTheOrder()
    ensures Closed(TwoTasks()) && IsCollation(NoDifference)
    ensures exists z :: Rearranged(TwoTasks(), z) && Project(z, NoDifference) != Project(TwoTasks(), NoDifference)
  {
    TwoTasksAreClosed();
    NoDifferenceIsCollation();
    TwoTasksTie();
    hide *;
    TieMeansAnotherView(TwoTasks(), NoDifference);
  }

  lemma NoDifferenceIsCollation()
    ensures IsCollation(NoDifference)
  {
  }

  lemma TwoTasksTie()
    ensures !TellsApart(NoDifference, Map(Tasks(TwoTasks()), TaskKey))
  {
    var keys := Map(Tasks(TwoTasks()), TaskKey);
    hide EmptyResult;
    assert keys[0] == TextOf(ID) == [49] && keys[1] == TextOf(OTHER_ID) == [50];
    assert keys[0] in keys && keys[1] in keys && NoDifference(keys[0], keys[1]);
  }

  lemma TieMeansAnotherView(a: Authority, atMost: Collation)
    requires Closed(a) && IsCollation(atMost) && !TellsApart(atMost, Map(Tasks(a), TaskKey))
    ensures exists z :: Rearranged(a, z) && Project(z, atMost) != Project(a, atMost)
  {
    hide Closed, IsCollation, TellsApart, Tasks, Rearranged, Project;
    ViewForgetsOrder(a, atMost);
  }
}
