/** Whole runs of the dispatch protocol: any interleaving of the gateway's operations with the
  * worker, the clock and the rest of the conversation. */
module DispatchSystem {
  import opened Wrappers
  import opened CodePoints
  import opened DispatchInput
  import opened RunDispatch
  import opened DispatchInvariants
  import opened DispatchLaws

  /** One successful acquisition, as it was answered. */
  datatype Grant = Grant(dispatchId: Id, epoch: nat, ownerId: Id, at: int, expiresAt: int)

  /** The store, the clock, every lease ever granted, and those handed back by their holder. */
  datatype System = System(store: Store, now: int, grants: seq<Grant>, released: set<(Id, nat)>)

  datatype Step =
    | Claims(request: Request, ids: FreshIds)
    | Acquires(dispatchId: Id, runId: Id, ownerId: Id, leaseMs: int)
    | Fails(holder: Holder, reason: JsString)
    | Exits(holder: Holder, reason: JsString)
    | Completes(holder: Holder, status: RunStatus)
    // the environment
    | WorkerStarts(dispatchId: Id)
    | WorkerReports(runId: Id, status: RunStatus)
    | ClockAdvances(milliseconds: nat)
    | OpensThread(threadId: Id, ownerId: Id)
    | OpensRun(runId: Id, threadId: Id)
    | PostsMessage(threadId: Id, message: Message)
    | SavesClarification(runId: Id)
    | FailsRequest(context: RequestContext, internalCode: JsString)

  ghost predicate Enabled(c: System, step: Step) {
    match step
    case Claims(r, ids) => Scoped(r) && Unused(c.store, ids)
    case Acquires(_, _, _, leaseMs) => leaseMs > 0
    case WorkerStarts(id) => id in c.store.dispatches && c.store.dispatches[id].state == Leased
    case WorkerReports(runId, _) => runId in c.store.runs && IsUnsettled(c.store.runs[runId].status)
    case OpensThread(threadId, _) => threadId !in c.store.threads
    case OpensRun(runId, threadId) => runId !in c.store.runs && threadId in c.store.threads
    case PostsMessage(threadId, m) =>
      threadId in c.store.threads && forall t | t in c.store.threads :: !HasMessage(c.store.threads[t].messages, m.id)
    case SavesClarification(runId) => runId in c.store.runs
    case _ => true
  }

  ghost predicate ReleasesNow(s: Store, h: Holder) {
    && h.dispatchId in s.dispatches && h.runId in s.runs && s.dispatches[h.dispatchId].runId == h.runId
    && Releases(s.dispatches[h.dispatchId], s.runs[h.runId], h)
  }

  ghost function After(c: System, step: Step): System
    requires Enabled(c, step)
  {
    var s := c.store;
    match step
    case Claims(r, ids) => c.(store := Claim(s, r, ids, c.now).store)
    case Acquires(dispatchId, runId, ownerId, leaseMs) =>
      var outcome := Acquire(s, dispatchId, runId, ownerId, c.now, leaseMs);
      if outcome.result.Ok? && outcome.result.value.acquired then
        c.(store := outcome.store,
           grants := c.grants + [Grant(dispatchId, outcome.result.value.leaseEpoch, ownerId, c.now, c.now + leaseMs)])
      else c.(store := outcome.store)
    case Fails(h, reason) => c.(store := Fail(s, h, reason).store)
    case Exits(h, reason) =>
      c.(store := ObserveExit(s, h, reason).store,
         released := if ReleasesNow(s, h) then c.released + {(h.dispatchId, h.leaseEpoch)} else c.released)
    case Completes(h, status) => c.(store := Complete(s, h, status, c.now).store)
    case WorkerStarts(id) => c.(store := s.(dispatches := s.dispatches[id := s.dispatches[id].(state := Started)]))
    case WorkerReports(runId, status) => c.(store := s.(runs := s.runs[runId := s.runs[runId].(status := status)]))
    case ClockAdvances(milliseconds) => c.(now := c.now + milliseconds)
    case OpensThread(id, ownerId) =>
      c.(store := s.(threads := s.threads[id := Thread(id, ownerId, [])],
          audits := s.audits + [ThreadCreated(ownerId, id)]))
    case OpensRun(id, threadId) => c.(store := s.(runs := s.runs[id := Run(id, threadId, Queued, c.now, None)]))
    case PostsMessage(id, m) =>
      c.(store := s.(threads := s.threads[id := s.threads[id].(messages := s.threads[id].messages + [m])]))
    case SavesClarification(id) => c.(store := s.(audits := s.audits + [ClarificationSaved(s.runs[id].threadId, id)]))
    case FailsRequest(context, code) => c.(store := s.(audits := s.audits + [RequestFailed(context, code)]))
  }

  ghost predicate Legal(c: System, steps: seq<Step>)
    decreases |steps|
  {
    steps == [] || (Enabled(c, steps[0]) && Legal(After(c, steps[0]), steps[1..]))
  }

  ghost function Perform(c: System, steps: seq<Step>): System
    requires Legal(c, steps)
    decreases |steps|
  {
    if steps == [] then c else Perform(After(c, steps[0]), steps[1..])
  }

  const EmptyStore := Store(map[], map[], map[], [])

  // ---- The store invariant under the environment ----

  ghost predicate IsEnvironment(step: Step) {
    || step.WorkerReports? || step.ClockAdvances? || step.OpensThread? || step.OpensRun? || step.PostsMessage?
    || step.SavesClarification? || step.FailsRequest?
  }

  lemma EnvironmentKeepsRecords(c: System, step: Step)
    requires Inv(c.store) && Enabled(c, step) && IsEnvironment(step)
    ensures var t := After(c, step).store;
      (forall k | k in t.threads :: ThreadOk(t, k)) && (forall k | k in t.runs :: RunOk(t, k))
  {
    hide SettledOnce, OnePerIdentity, OneActivePerRun, DispatchOk, Claim, Acquire, Fail, ObserveExit, Complete;
    var s, t := c.store, After(c, step).store;
    forall k | k in t.threads ensures ThreadOk(t, k) {
      if k in s.threads { assert ThreadOk(s, k); }
      if step.PostsMessage? { assert !HasMessage(s.threads[step.threadId].messages, step.message.id); }
    }
    forall k | k in t.runs ensures RunOk(t, k) {
      if k in s.runs { assert RunOk(s, k); }
    }
  }

  lemma EnvironmentKeepsDispatch(c: System, step: Step, k: Id)
    requires Inv(c.store) && Enabled(c, step) && IsEnvironment(step) && k in After(c, step).store.dispatches
    ensures DispatchOk(After(c, step).store, k)
  {
    hide SettledOnce, OnePerIdentity, OneActivePerRun, ThreadOk, RunOk, Claim, Acquire, Fail, ObserveExit, Complete;
    assert DispatchOk(c.store, k);
    if step.PostsMessage? {
      HasMessageSnoc(c.store.threads[step.threadId].messages, step.message, c.store.dispatches[k].messageId);
    }
  }

  /** The environment ends no dispatch, and what it logs settles none. */
  ghost predicate Unsettling(s: Store, t: Store) {
    && t.dispatches == s.dispatches
    && (t.audits == s.audits || LogsOther(s.audits, t.audits))
  }

  ghost predicate LogsOther(before: seq<AuditEvent>, after: seq<AuditEvent>) {
    |after| > |before| && after == before + [after[|before|]] && forall k :: !Settles(after[|before|], k)
  }

  lemma EnvironmentSettlesNothing(c: System, step: Step)
    requires Enabled(c, step) && IsEnvironment(step)
    ensures Unsettling(c.store, After(c, step).store)
  {
    hide Claim, Acquire, Fail, ObserveExit, Complete;
    var s := c.store;
    match step
    case OpensThread(id, ownerId) => Logged(s.audits, ThreadCreated(ownerId, id));
    case SavesClarification(id) => Logged(s.audits, ClarificationSaved(s.runs[id].threadId, id));
    case FailsRequest(context, code) => Logged(s.audits, RequestFailed(context, code));
    case _ =>
  }

  lemma Logged(audits: seq<AuditEvent>, e: AuditEvent)
    requires forall k :: !Settles(e, k)
    ensures LogsOther(audits, audits + [e])
  {
  }

  lemma UnsettlingKeepsSettlements(s: Store, t: Store)
    requires SettledOnce(s) && Unsettling(s, t)
    ensures SettledOnce(t)
  {
    hide Settles;
    forall k ensures Settlements(t.audits, k) == ExpectedSettlements(t, k) {
      assert Settlements(s.audits, k) == ExpectedSettlements(s, k);
      if t.audits != s.audits {
        SettlementsSnoc(s.audits, t.audits[|s.audits|], k);
      }
    }
  }

  lemma EnvironmentKeepsSettlements(c: System, step: Step)
    requires Inv(c.store) && Enabled(c, step) && IsEnvironment(step)
    ensures SettledOnce(After(c, step).store)
  {
    EnvironmentSettlesNothing(c, step);
    assert SettledOnce(c.store);
    hide *;
    UnsettlingKeepsSettlements(c.store, After(c, step).store);
  }

  lemma EnvironmentKeepsInv(c: System, step: Step)
    requires Inv(c.store) && Enabled(c, step) && IsEnvironment(step)
    ensures Inv(After(c, step).store)
  {
    hide SettledOnce, DispatchOk, ThreadOk, RunOk, Enabled, Claim, Acquire, Fail, ObserveExit, Complete, Settlements;
    EnvironmentKeepsRecords(c, step);
    EnvironmentKeepsSettlements(c, step);
    forall k | k in After(c, step).store.dispatches ensures DispatchOk(After(c, step).store, k) {
      EnvironmentKeepsDispatch(c, step, k);
    }
  }

  lemma StartTouches(c: System, id: Id)
    requires Inv(c.store) && Enabled(c, WorkerStarts(id))
    ensures Touches(c.store, After(c, WorkerStarts(id)).store, id)
  {
    hide Inv, Accounts, Claim, Acquire, Fail, ObserveExit, Complete;
    WorkedOnDispatch(c.store, id);
    NothingToAccountFor(c.store.audits, id);
  }

  /** What a step of any kind does to a store: nothing, a claim, work on one dispatch, or a change
    * outside the dispatches and their settlement events. */
  ghost predicate Evolves(s: Store, t: Store) {
    && (forall id | id in s.dispatches :: id in t.dispatches && SameOrigin(s.dispatches[id], t.dispatches[id]))
    && (forall id | id in s.dispatches && s.dispatches[id].state == Terminal :: t.dispatches[id] == s.dispatches[id])
    && (forall id | id in s.dispatches :: s.dispatches[id].leaseEpoch <= t.dispatches[id].leaseEpoch)
    && (forall id | id in s.threads :: id in t.threads && t.threads[id].ownerId == s.threads[id].ownerId
                                       && s.threads[id].messages <= t.threads[id].messages)
    && (forall id | id in s.runs :: id in t.runs && SameRunOrigin(s.runs[id], t.runs[id]))
    && SettledRunsKept(s, t)
    && s.audits <= t.audits
  }

  lemma TouchEvolves(s: Store, t: Store, id: Id)
    requires Touches(s, t, id)
    ensures Evolves(s, t)
  {
  }

  lemma AddDispatchEvolves(s: Store, r: Request, run: Run, ids: FreshIds, now: int)
    requires Unused(s, ids) && r.threadId in s.threads
    requires r.producerKind == ThreadMessage ==> run.id == ids.runId
    ensures Evolves(s, AddDispatch(s, r, run, ids, now))
  {
  }

  lemma ClaimEvolves(s: Store, r: Request, ids: FreshIds, now: int)
    requires Unused(s, ids)
    ensures Evolves(s, Claim(s, r, ids, now).store)
  {
    var run := ClaimRun(s, r, ids.runId, now);
    if run.Ok? {
      AddDispatchEvolves(s, r, run.value, ids, now);
    }
    EvolvesReflexive(s);
    hide Evolves, AddDispatch;
  }

  lemma EvolvesReflexive(s: Store)
    ensures Evolves(s, s)
  {
  }

  lemma StepEvolves(c: System, step: Step)
    requires Inv(c.store) && Enabled(c, step)
    ensures Inv(After(c, step).store) && Evolves(c.store, After(c, step).store)
  {
    var s, t := c.store, After(c, step).store;
    match step
    case Claims(r, ids) => ClaimKeepsInv(s, r, ids, c.now); ClaimEvolves(s, r, ids, c.now);
    case Acquires(dispatchId, runId, ownerId, leaseMs) =>
      AcquireTouches(s, dispatchId, runId, ownerId, c.now, leaseMs);
      TouchOrStay(s, t, dispatchId);
    case Fails(h, reason) => FailTouches(s, h, reason); TouchOrStay(s, t, h.dispatchId);
    case Exits(h, reason) => ObserveExitTouches(s, h, reason); TouchOrStay(s, t, h.dispatchId);
    case Completes(h, status) => CompleteTouches(s, h, status, c.now); TouchOrStay(s, t, h.dispatchId);
    case WorkerStarts(id) => StartTouches(c, id); TouchOrStay(s, t, id);
    case _ => EnvironmentKeepsInv(c, step); EnvironmentEvolves(c, step);
  }

  lemma TouchOrStay(s: Store, t: Store, id: Id)
    requires Inv(s) && (t == s || Touches(s, t, id))
    ensures Inv(t) && Evolves(s, t)
  {
    if t != s {
      TouchKeepsInv(s, t, id);
      TouchEvolves(s, t, id);
    }
  }

  lemma EnvironmentEvolves(c: System, step: Step)
    requires Enabled(c, step) && IsEnvironment(step)
    ensures Evolves(c.store, After(c, step).store)
  {
    var s, t := c.store, After(c, step).store;
    EnvironmentSettlesNothing(c, step);
    EnvironmentKeepsThreads(c, step);
    EnvironmentKeepsRuns(c, step);
    hide After, Enabled, IsEnvironment, SettledRunsKept, SameRunOrigin, LogsOther;
    OriginsStay(s, t);
    assert s.audits <= t.audits by { UnsettlingGrows(s, t); }
  }

  lemma OriginsStay(s: Store, t: Store)
    requires t.dispatches == s.dispatches
    ensures forall id | id in s.dispatches :: SameOrigin(s.dispatches[id], t.dispatches[id])
  {
  }

  lemma UnsettlingGrows(s: Store, t: Store)
    requires Unsettling(s, t)
    ensures s.audits <= t.audits
  {
  }

  lemma EnvironmentKeepsThreads(c: System, step: Step)
    requires Enabled(c, step) && IsEnvironment(step)
    ensures var s, t := c.store, After(c, step).store;
      forall id | id in s.threads :: id in t.threads && t.threads[id].ownerId == s.threads[id].ownerId
                                     && s.threads[id].messages <= t.threads[id].messages
  {
    hide Claim, Acquire, Fail, ObserveExit, Complete;
  }

  lemma EnvironmentKeepsRuns(c: System, step: Step)
    requires Enabled(c, step) && IsEnvironment(step)
    ensures var s, t := c.store, After(c, step).store;
      && (forall id | id in s.runs :: id in t.runs && SameRunOrigin(s.runs[id], t.runs[id]))
      && SettledRunsKept(s, t)
  {
    hide Claim, Acquire, Fail, ObserveExit, Complete;
  }

  lemma EvolvesTransitive(s: Store, t: Store, u: Store)
    requires Evolves(s, t) && Evolves(t, u)
    ensures Evolves(s, u)
  {
    DispatchesEvolveOn(s, t, u);
    RunsEvolveOn(s, t, u);
    hide SameOrigin, SettledRunsKept, SameRunOrigin;
    assert s.audits <= u.audits;
  }

  lemma SameOriginTransitive(d: Dispatch, e: Dispatch, f: Dispatch)
    requires SameOrigin(d, e) && SameOrigin(e, f)
    ensures SameOrigin(d, f)
  {
  }

  lemma RunsEvolveOn(s: Store, t: Store, u: Store)
    requires Evolves(s, t) && Evolves(t, u)
    ensures SettledRunsKept(s, u)
    ensures forall id | id in s.runs :: id in u.runs && SameRunOrigin(s.runs[id], u.runs[id])
  {
    hide SameOrigin;
  }

  lemma DispatchesEvolveOn(s: Store, t: Store, u: Store)
    requires Evolves(s, t) && Evolves(t, u)
    ensures forall id | id in s.dispatches ::
              && id in u.dispatches && SameOrigin(s.dispatches[id], u.dispatches[id])
              && (s.dispatches[id].state == Terminal ==> u.dispatches[id] == s.dispatches[id])
              && s.dispatches[id].leaseEpoch <= u.dispatches[id].leaseEpoch
  {
    hide SettledRunsKept, SameRunOrigin, SameOrigin;
    forall id | id in s.dispatches ensures id in u.dispatches && SameOrigin(s.dispatches[id], u.dispatches[id]) {
      SameOriginTransitive(s.dispatches[id], t.dispatches[id], u.dispatches[id]);
    }
  }

  /** Over every run from a sound store: the store stays sound, ended dispatches and settled runs never
    * change, no dispatch is lost or changes its origin, and the audit log only grows. */
  lemma {:induction false} EveryRunEvolves(c: System, steps: seq<Step>)
    requires Inv(c.store) && Legal(c, steps)
    ensures Inv(Perform(c, steps).store) && Evolves(c.store, Perform(c, steps).store)
    decreases |steps|
  {
    if steps != [] {
      StepEvolves(c, steps[0]);
      EveryRunEvolves(After(c, steps[0]), steps[1..]);
      EvolvesTransitive(c.store, After(c, steps[0]).store, Perform(c, steps).store);
    }
  }

  lemma EmptyStoreIsSound()
    ensures Inv(EmptyStore)
  {
  }

  /** A claim that succeeded keeps answering with its own message, run and dispatch, whatever has
    * happened since, and asking again changes nothing. */
  lemma ClaimIsIdempotentForever(c: System, r: Request, ids: FreshIds, steps: seq<Step>, ids': FreshIds)
    requires Inv(c.store) && Enabled(c, Claims(r, ids)) && Claim(c.store, r, ids, c.now).result.Ok?
    requires Legal(After(c, Claims(r, ids)), steps)
    ensures var first := Claim(c.store, r, ids, c.now).result.value;
            var later := Perform(After(c, Claims(r, ids)), steps);
            var again := Claim(later.store, r, ids', later.now);
            && again.store == later.store && again.result.Ok? && again.result.value.replayed
            && again.result.value.dispatch.dispatchId == first.dispatch.dispatchId
            && again.result.value.run.id == first.run.id
            && again.result.value.message.id == first.message.id
  {
    var first := Claim(c.store, r, ids, c.now);
    var middle := After(c, Claims(r, ids));
    ClaimKeepsInv(c.store, r, ids, c.now);
    EveryRunEvolves(middle, steps);
    ClaimTwice(c.store, r, ids, c.now, ids', c.now);
    ClaimedDispatchIsStored(c.store, r, ids, c.now);
    AnswerPersists(middle.store, Perform(middle, steps).store, r, first.result.value.dispatch.dispatchId, ids', c.now,
        Perform(middle, steps).now);
  }

  lemma ClaimedDispatchIsStored(s: Store, r: Request, ids: FreshIds, now: int)
    requires Inv(s) && Scoped(r) && Unused(s, ids) && Claim(s, r, ids, now).result.Ok?
    ensures var first := Claim(s, r, ids, now);
      var id := first.result.value.dispatch.dispatchId;
      id in first.store.dispatches && first.store.dispatches[id] == first.result.value.dispatch
          && HasIdentity(first.store.dispatches[id], r)
  {
    if exists id :: id in s.dispatches && HasIdentity(s.dispatches[id], r) {
      var id :| id in s.dispatches && HasIdentity(s.dispatches[id], r);
      ReplayedClaim(s, r, id, ids, now);
    }
  }

  /** The answer for a used identity depends on records that never change. */
  lemma ReplayAnswerPersists(s: Store, t: Store, r: Request, id: Id)
    requires Evolves(s, t) && id in s.dispatches && id in t.dispatches && RunsOk(s, t, s.dispatches[id].runId)
    requires Anchored(s, s.dispatches[id]) && Anchored(t, t.dispatches[id]) && ReplayAnswer(s, s.dispatches[id], r).Ok?
    ensures ReplayAnswer(t, t.dispatches[id], r).Ok?
    ensures var first, again := ReplayAnswer(s, s.dispatches[id], r).value, ReplayAnswer(t, t.dispatches[id], r).value;
      && again.replayed && again.dispatch.dispatchId == first.dispatch.dispatchId
      && again.run.id == first.run.id && again.message.id == first.message.id
  {
    var d := s.dispatches[id];
    assert SameOrigin(d, t.dispatches[id]);
    FindMessageFinds(s.threads[d.threadId].messages, d.messageId);
    FindMessageFinds(t.threads[d.threadId].messages, d.messageId);
  }

  ghost predicate RunsOk(s: Store, t: Store, id: Id) {
    id in s.runs && id in t.runs && RunOk(s, id) && RunOk(t, id)
  }

  lemma AnswerPersists(s: Store, t: Store, r: Request, id: Id, ids: FreshIds, now: int, later: int)
    requires Inv(s) && Inv(t) && Evolves(s, t) && Scoped(r)
    requires id in s.dispatches && HasIdentity(s.dispatches[id], r) && Claim(s, r, ids, now).result.Ok?
    ensures var first, again := Claim(s, r, ids, now).result.value, Claim(t, r, ids, later);
      && again.store == t && again.result.Ok? && again.result.value.replayed
      && again.result.value.dispatch.dispatchId == first.dispatch.dispatchId
      && again.result.value.run.id == first.run.id && again.result.value.message.id == first.message.id
  {
    hide Claim, ReplayAnswer;
    assert SameOrigin(s.dispatches[id], t.dispatches[id]);
    ReplayedClaim(s, r, id, ids, now);
    ReplayedClaim(t, r, id, ids, later);
    assert RunOk(s, s.dispatches[id].runId) && RunOk(t, s.dispatches[id].runId);
    ReplayAnswerPersists(s, t, r, id);
  }
}
