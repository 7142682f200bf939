/** The in-memory conversation store, updated in place. Every method is proved to do to the
  * store's contents what the function of the same name in RunDispatch does to them, and to
  * keep the store sound. */
module MemoryStore {
  import opened Wrappers
  import opened CodePoints
  import opened DispatchInput
  import opened RunDispatch
  import opened DispatchInvariants
  import opened DispatchLaws

  class ThreadRecord {
    const id: Id
    const ownerId: Id
    var messages: seq<Message>

    constructor (id: Id, ownerId: Id)
      ensures this.id == id && this.ownerId == ownerId && messages == []
    {
      this.id := id;
      this.ownerId := ownerId;
      messages := [];
    }

    function View(): Thread
      reads this
    {
      Thread(id, ownerId, messages)
    }
  }

  class RunDispatchRecord {
    const dispatchId: Id
    const producerKind: ProducerKind
    const scopeRef: JsString
    const requestIdentity: JsString
    const requestDigest: Digest
    const threadId: Id
    const runId: Id
    const messageId: Id
    var state: DispatchState
    var ownerId: Option<Id>
    var leaseEpoch: nat
    var leaseExpiresAt: Option<int>
    var heartbeatAt: Option<int>
    var terminalStatus: Option<RunStatus>
    var failureReason: Option<JsString>

    constructor (r: Request, run: Run, ids: FreshIds)
      ensures View() == NewDispatch(r, run, ids)
    {
      dispatchId := ids.dispatchId;
      producerKind := r.producerKind;
      scopeRef := r.scopeRef;
      requestIdentity := r.requestIdentity;
      requestDigest := RequestDigest(r);
      threadId := r.threadId;
      runId := run.id;
      messageId := ids.messageId;
      state := Pending;
      ownerId := None;
      leaseEpoch := 0;
      leaseExpiresAt := None;
      heartbeatAt := None;
      terminalStatus := None;
      failureReason := None;
    }

    function View(): Dispatch
      reads this
    {
      Dispatch(dispatchId, producerKind, scopeRef, requestIdentity, requestDigest, threadId, runId, messageId,
               state, ownerId, leaseEpoch, leaseExpiresAt, heartbeatAt, terminalStatus, failureReason)
    }

    method TakeLease(newOwnerId: Id, now: int, leaseMs: int)
      modifies this
      ensures View() == LeasedTo(old(View()), newOwnerId, now, leaseMs)
    {
      state := Leased;
      ownerId := Some(newOwnerId);
      leaseEpoch := leaseEpoch + 1;
      leaseExpiresAt := Some(now + leaseMs);
      heartbeatAt := Some(now);
    }

    method EndAsFailed(reason: JsString)
      modifies this
      ensures View() == EndedFailed(old(View()), reason)
    {
      state := Terminal;
      terminalStatus := Some(Failed);
      failureReason := Some(reason);
      leaseExpiresAt := None;
    }

    method EndAsCompleted(status: RunStatus, now: int)
      modifies this
      ensures View() == EndedCompleted(old(View()), status, now)
    {
      state := Terminal;
      terminalStatus := Some(status);
      leaseExpiresAt := None;
      heartbeatAt := Some(now);
    }

    method GiveBack()
      modifies this
      ensures View() == Released(old(View()))
    {
      state := Pending;
      ownerId := None;
      leaseExpiresAt := None;
      heartbeatAt := None;
      terminalStatus := None;
      failureReason := None;
    }
  }

  datatype RunDispatchClaim = RunDispatchClaim(message: Message, run: Run, dispatch: RunDispatchRecord, replayed: bool)

  // ---- A claim case by case ----

  lemma ClaimOfUsedIdentity(s: Store, r: Request, id: Id, ids: FreshIds, now: int)
    requires Inv(s) && id in s.dispatches && HasIdentity(s.dispatches[id], r)
    ensures Claim(s, r, ids, now) == Outcome(s, Replay(s, s.dispatches[id], r))
  {
    TheOnlyMatch(s, r, id);
  }

  lemma ClaimOfNewIdentity(s: Store, r: Request, ids: FreshIds, now: int)
    requires forall id | id in s.dispatches :: !HasIdentity(s.dispatches[id], r)
    ensures ClaimRun(s, r, ids.runId, now).Err? ==>
              Claim(s, r, ids, now) == Outcome(s, Err(ClaimRun(s, r, ids.runId, now).error))
    ensures ClaimRun(s, r, ids.runId, now).Ok? ==>
              var run := ClaimRun(s, r, ids.runId, now).value;
              && r.threadId in s.threads
              && Claim(s, r, ids, now)
                 == Outcome(AddDispatch(s, r, run, ids, now),
                            Ok(Claimed(Message(ids.messageId, r.text, now), run, NewDispatch(r, run, ids), false)))
  {
  }

  class ConversationStore {
    var threads: map<Id, ThreadRecord>
    var runs: map<Id, Run>
    var runDispatches: map<Id, RunDispatchRecord>
    var auditEvents: seq<AuditEvent>

    /** Records sit under their own identifiers, so no two entries share a record. */
    ghost predicate Keyed()
      reads this, threads.Values, runDispatches.Values
    {
      && (forall id | id in threads :: threads[id].id == id)
      && (forall id | id in runDispatches :: runDispatches[id].dispatchId == id)
    }

    ghost function View(): Store
      reads this, threads.Values, runDispatches.Values
    {
      Store(map id | id in threads :: threads[id].View(),
            runs,
            map id | id in runDispatches :: runDispatches[id].View(),
            auditEvents)
    }

    ghost predicate Valid()
      reads this, threads.Values, runDispatches.Values
    {
      Keyed() && Inv(View())
    }

    /** How the contents relate to the records. */
    lemma ViewFields()
      ensures View().runs == runs && View().audits == auditEvents
      ensures View().threads.Keys == threads.Keys && View().dispatches.Keys == runDispatches.Keys
      ensures forall id | id in threads :: View().threads[id] == threads[id].View()
      ensures forall id | id in runDispatches :: View().dispatches[id] == runDispatches[id].View()
    {
    }

    lemma OtherRecords(id: Id)
      requires Keyed() && id in runDispatches
      ensures forall k | k in runDispatches && k != id :: runDispatches[k] != runDispatches[id]
    {
    }

    lemma DistinctThreads(id: Id)
      requires Keyed() && id in threads
      ensures forall k | k in threads && k != id :: threads[k] != threads[id]
    {
    }

    /** Only the record of dispatch `id`, the runs and the events have changed. */
    twostate lemma OneRecordChanged(id: Id)
      requires old(Keyed()) && threads == old(threads) && runDispatches == old(runDispatches) && id in runDispatches
      requires forall k | k in threads :: unchanged(threads[k])
      requires forall k | k in runDispatches && k != id :: unchanged(runDispatches[k])
      ensures Keyed()
      ensures View()
              == Store(old(View()).threads, runs, old(View()).dispatches[id := runDispatches[id].View()], auditEvents)
    {
      assert View().threads == old(View()).threads;
      assert View().dispatches == old(View()).dispatches[id := runDispatches[id].View()];
    }

    /** Only a record has been added. */
    twostate lemma OneRecordAdded(id: Id)
      requires threads == old(threads) && runs == old(runs) && auditEvents == old(auditEvents)
      requires id in runDispatches && runDispatches == old(runDispatches)[id := runDispatches[id]]
      requires forall k | k in threads :: unchanged(threads[k])
      requires forall k | k in runDispatches && k != id :: unchanged(runDispatches[k])
      ensures View() == old(View()).(dispatches := old(View()).dispatches[id := runDispatches[id].View()])
    {
      assert View().threads == old(View()).threads;
      assert View().dispatches == old(View()).dispatches[id := runDispatches[id].View()];
    }

    /** Only the runs and the events have changed. */
    twostate lemma OnlyRunsAndEventsChanged()
      requires threads == old(threads) && runDispatches == old(runDispatches)
      requires forall k | k in threads :: unchanged(threads[k])
      requires forall k | k in runDispatches :: unchanged(runDispatches[k])
      ensures old(Keyed()) ==> Keyed()
      ensures View() == Store(old(View()).threads, runs, old(View()).dispatches, auditEvents)
    {
      assert View().threads == old(View()).threads;
      assert View().dispatches == old(View()).dispatches;
    }

    constructor ()
      ensures Valid() && View() == Store(map[], map[], map[], [])
    {
      threads := map[];
      runs := map[];
      runDispatches := map[];
      auditEvents := [];
    }

    /** Claim a dispatch for a request, once per producer, scope and identity. */
    method ClaimRunDispatchRequest(input: RawInput, ids: FreshIds, now: int)
      returns (r: Result<RunDispatchClaim, GatewayError>)
      requires Valid() && Unused(View(), ids)
      modifies this, threads.Values
      ensures Valid() && threads == old(threads)
      ensures Normalize(input).Err? ==> r == Err(Normalize(input).error) && View() == old(View())
      ensures Normalize(input).Ok? ==>
                var outcome := Claim(old(View()), Normalize(input).value, ids, now);
                && View() == outcome.store
                && (if r.Ok? then r.value.dispatch in runDispatches.Values
                                  && outcome.result
                                      == Ok(Claimed(r.value.message, r.value.run, r.value.dispatch.View(),
                                          r.value.replayed))
                    else outcome.result == Err(r.error))
    {
      hide Inv, Claim, ClaimRun, AddDispatch, Normalize, Scoped, Unused, View;
      ViewFields();
      var normalized := Normalize(input);
      if normalized.Err? {
        return Err(normalized.error);
      }
      var request := normalized.value;
      NormalizedIsScoped(input);
      ghost var before := View();
      ClaimKeepsInv(before, request, ids, now);
      NotInUse(before, ids);
      if id :| id in runDispatches && HasIdentity(runDispatches[id].View(), request) {
        ClaimOfUsedIdentity(before, request, id, ids, now);
        r := ReplayExisting(runDispatches[id], request);
        return;
      }
      ClaimOfNewIdentity(before, request, ids, now) by {
        assert forall id | id in before.dispatches :: !HasIdentity(before.dispatches[id], request);
      }
      var claimedRun := RunToClaim(request, ids, now);
      if claimedRun.Err? {
        return Err(claimedRun.error);
      }
      var run := claimedRun.value;
      r := AddClaim(request, run, ids, now);
    }

    /** The answer to a request whose identity has been used. */
    method ReplayExisting(existing: RunDispatchRecord, request: Request)
      returns (r: Result<RunDispatchClaim, GatewayError>)
      requires Keyed()
      ensures var answer := Replay(View(), existing.View(), request);
              if r.Ok? then r.value.dispatch == existing
                            && answer == Ok(Claimed(r.value.message, r.value.run, existing.View(), r.value.replayed))
              else answer == Err(r.error)
    {
      if existing.requestDigest != RequestDigest(request) || existing.threadId != request.threadId
         || (request.producerKind == ClarificationResolution && existing.runId != request.runId) {
        return Err(DispatchConflict);
      }
      var message := None;
      if existing.threadId in threads {
        var thread := threads[existing.threadId];
        if thread.ownerId != request.actorId {
          return Err(ThreadOwnerMismatch);
        }
        message := FindMessage(thread.messages, existing.messageId);
      }
      if existing.runId !in runs || message.None? {
        return Err(DispatchInvariantFailed);
      }
      return Ok(RunDispatchClaim(message.value, runs[existing.runId], existing, true));
    }

    /** The run a new dispatch is for. */
    method RunToClaim(request: Request, ids: FreshIds, now: int) returns (r: Result<Run, GatewayError>)
      requires Keyed()
      ensures r == ClaimRun(View(), request, ids.runId, now)
    {
      if request.threadId !in threads {
        return Err(ThreadNotFound);
      }
      if threads[request.threadId].ownerId != request.actorId {
        return Err(ThreadOwnerMismatch);
      }
      if request.producerKind == ThreadMessage {
        return Ok(Run(ids.runId, request.threadId, Queued, now, None));
      }
      if request.runId !in runs {
        return Err(RunNotFound);
      }
      var existingRun := runs[request.runId];
      if existingRun.threadId != request.threadId {
        return Err(DispatchConflict);
      }
      if existingRun.status != WaitingForClarification {
        return Err(ClarificationSourceNotWaiting);
      }
      if id :| id in runDispatches && runDispatches[id].runId == existingRun.id && IsActive(runDispatches[id].state) {
        assert View().dispatches[id].runId == existingRun.id;
        return Err(DispatchActiveConflict);
      }
      return Ok(existingRun);
    }

    /** Store the message, the run if it is new, the dispatch and the events of a new claim. */
    method AddClaim(request: Request, run: Run, ids: FreshIds, now: int)
      returns (r: Result<RunDispatchClaim, GatewayError>)
      requires Keyed() && request.threadId in threads && ids.dispatchId !in runDispatches
      modifies this, threads[request.threadId]
      ensures Keyed() && threads == old(threads)
      ensures View() == AddDispatch(old(View()), request, run, ids, now)
      ensures r.Ok? && r.value.dispatch in runDispatches.Values
      ensures r.value.message == Message(ids.messageId, request.text, now) && r.value.run == run && !r.value.replayed
      ensures r.value.dispatch.View() == NewDispatch(request, run, ids)
    {
      hide Keyed, View, ClaimAudits;
      ghost var before := View();
      ViewFields();
      var message := Message(ids.messageId, request.text, now);
      AppendMessage(request.threadId, message);
      var dispatch := new RunDispatchRecord(request, run, ids);
      AddRecord(dispatch);
      Record(run, run.id, request.producerKind == ThreadMessage, ClaimAudits(request, run, ids));
      r := Ok(RunDispatchClaim(message, run, dispatch, false));
    }

    method AppendMessage(threadId: Id, message: Message)
      requires Keyed() && threadId in threads
      modifies threads[threadId]
      ensures Keyed()
      ensures View() == old(View()).(threads := old(View()).threads[
                threadId := old(threads[threadId].View()).(messages := old(threads[threadId].messages) + [message])])
    {
      DistinctThreads(threadId);
      var thread := threads[threadId];
      thread.messages := thread.messages + [message];
      assert View().threads == old(View()).threads[threadId := thread.View()];
      assert View().dispatches == old(View()).dispatches;
    }

    method AddRecord(dispatch: RunDispatchRecord)
      requires Keyed() && dispatch.dispatchId !in runDispatches
      modifies this`runDispatches
      ensures Keyed() && dispatch in runDispatches.Values
      ensures View() == old(View()).(dispatches := old(View()).dispatches[dispatch.dispatchId := dispatch.View()])
    {
      hide View;
      runDispatches := runDispatches[dispatch.dispatchId := dispatch];
      assert runDispatches[dispatch.dispatchId] == dispatch;
      OneRecordAdded(dispatch.dispatchId);
    }

    /** Append events, and store the run they are about if it has changed. */
    method Record(run: Run, runId: Id, changed: bool, events: seq<AuditEvent>)
      modifies this`runs, this`auditEvents
      ensures old(Keyed()) ==> Keyed()
      ensures View() == old(View()).(runs := if changed then old(runs)[runId := run] else old(runs),
                                     audits := old(auditEvents) + events)
    {
      if changed {
        runs := runs[runId := run];
      }
      auditEvents := auditEvents + events;
      OnlyRunsAndEventsChanged();
    }

    // ---- Leases ----

    method AcquireRunDispatchLease(dispatchId: Id, runId: Id, ownerId: Id, now: int, leaseMs: int)
      returns (r: Result<Lease, GatewayError>)
      requires Valid() && leaseMs > 0
      modifies runDispatches.Values
      ensures Valid()
      ensures Outcome(View(), r) == Acquire(old(View()), dispatchId, runId, ownerId, now, leaseMs)
    {
      hide Inv, View;
      ghost var before := View();
      AcquireKeepsInv(before, dispatchId, runId, ownerId, now, leaseMs);
      ViewFields();
      if dispatchId !in runDispatches {
        return Err(DispatchNotFound);
      }
      var dispatch := runDispatches[dispatchId];
      if dispatch.runId != runId {
        return Err(DispatchConflict);
      }
      if runId !in runs {
        return Err(RunNotFound);
      }
      var run := runs[runId];
      if dispatch.state == Terminal {
        return Ok(Lease(dispatchId, false, None, dispatch.leaseEpoch, dispatch.state, AlreadyTerminal, run));
      }
      if dispatch.state == Started {
        return Ok(Lease(dispatchId, false, None, dispatch.leaseEpoch, dispatch.state, AlreadyRunning, run));
      }
      if !CanStart(dispatch.producerKind, run.status) {
        return Ok(Lease(dispatchId, false, None, dispatch.leaseEpoch, dispatch.state, RunNotDispatchable, run));
      }
      if dispatch.state == Leased && dispatch.leaseExpiresAt.Some? && dispatch.leaseExpiresAt.value > now {
        return Ok(Lease(dispatchId, false, None, dispatch.leaseEpoch, dispatch.state, ActiveLease, run));
      }
      dispatch.TakeLease(ownerId, now, leaseMs);
      OneRecordChanged(dispatchId);
      r := Ok(Lease(dispatchId, true, Some(ownerId), dispatch.leaseEpoch, Leased, Acquired, run));
    }

    method FailOwnedRunDispatch(h: Holder, reason: JsString) returns (r: Result<Run, GatewayError>)
      requires Valid()
      modifies this, runDispatches.Values
      ensures Valid() && runDispatches == old(runDispatches) && threads == old(threads)
      ensures Outcome(View(), r) == Fail(old(View()), h, reason)
    {
      hide Inv, View;
      ghost var before := View();
      FailKeepsInv(before, h, reason);
      ViewFields();
      if h.dispatchId !in runDispatches {
        return Err(DispatchNotFound);
      }
      var dispatch := runDispatches[h.dispatchId];
      if dispatch.runId != h.runId {
        return Err(DispatchConflict);
      }
      if h.runId !in runs {
        return Err(RunNotFound);
      }
      var current := runs[h.runId];
      if !(dispatch.state == Leased || dispatch.state == Started) || dispatch.ownerId != Some(h.ownerId)
         || dispatch.leaseEpoch != h.leaseEpoch || !IsUnsettled(current.status) {
        return Ok(current);
      }
      assert Fail(before, h, reason) == FailedBy(before, dispatch.View(), current, h, reason);
      hide Fail;
      r := StoreFailure(h, dispatch, current, reason);
    }

    method StoreFailure(h: Holder, dispatch: RunDispatchRecord, current: Run, reason: JsString)
      returns (r: Result<Run, GatewayError>)
      requires Keyed() && h.dispatchId in runDispatches && runDispatches[h.dispatchId] == dispatch
      requires h.runId in runs && runs[h.runId] == current
      modifies this`runs, this`auditEvents, dispatch
      ensures Keyed() && Outcome(View(), r) == FailedBy(old(View()), old(dispatch.View()), current, h, reason)
    {
      var preserveWaitingRun := dispatch.producerKind == ClarificationResolution
          && current.status == WaitingForClarification;
      assert preserveWaitingRun == KeepsWaiting(dispatch.View(), current);
      var failed := if preserveWaitingRun then current else current.(status := Failed, failureReason := Some(reason));
      OtherRecords(h.dispatchId);
      dispatch.EndAsFailed(reason);
      OneRecordChanged(h.dispatchId);
      hide Keyed, View;
      var events := (if preserveWaitingRun then [] else [RunStatusChanged(current.threadId, current.id, Failed)])
        + [RunDispatchFailed(current.threadId, current.id, h.dispatchId, reason, h.leaseEpoch)];
      assert runs[h.runId := current] == runs;
      Record(failed, h.runId, !preserveWaitingRun, events);
      r := Ok(failed);
    }

    method ObserveOwnedRunDispatchExit(h: Holder, failureReason: Option<JsString>)
      returns (r: Result<Run, GatewayError>)
      requires Valid()
      modifies this, runDispatches.Values
      ensures Valid() && runDispatches == old(runDispatches) && threads == old(threads)
      ensures Outcome(View(), r)
              == ObserveExit(old(View()), h, if failureReason.Some? then failureReason.value else WORKER_EXITED)
    {
      hide Inv, View, Fail;
      ghost var before := View();
      var reason := if failureReason.Some? then failureReason.value else WORKER_EXITED;
      ObserveExitKeepsInv(before, h, reason);
      ViewFields();
      if h.dispatchId !in runDispatches || h.runId !in runs || runDispatches[h.dispatchId].runId != h.runId {
        return Err(DispatchNotFound);
      }
      var dispatch, current := runDispatches[h.dispatchId], runs[h.runId];
      if dispatch.producerKind == ClarificationResolution && current.status == WaitingForClarification
         && (dispatch.state == Leased || dispatch.state == Started)
         && dispatch.ownerId == Some(h.ownerId) && dispatch.leaseEpoch == h.leaseEpoch {
        assert ObserveExit(before, h, reason) == ReleasedBy(before, dispatch.View(), current, h, reason);
        hide ObserveExit;
        r := StoreRelease(h, dispatch, current, reason);
      } else {
        assert ObserveExit(before, h, reason) == Fail(before, h, reason);
        hide ObserveExit;
        r := FailOwnedRunDispatch(h, reason);
      }
    }

    method StoreRelease(h: Holder, dispatch: RunDispatchRecord, current: Run, reason: JsString)
      returns (r: Result<Run, GatewayError>)
      requires Keyed() && h.dispatchId in runDispatches && runDispatches[h.dispatchId] == dispatch
      requires h.runId in runs && runs[h.runId] == current
      modifies this`runs, this`auditEvents, dispatch
      ensures Keyed() && Outcome(View(), r) == ReleasedBy(old(View()), old(dispatch.View()), current, h, reason)
    {
      OtherRecords(h.dispatchId);
      dispatch.GiveBack();
      OneRecordChanged(h.dispatchId);
      hide Keyed, View;
      Record(current, h.runId, false,
          [RecoveryRequested(current.threadId, current.id, h.dispatchId, reason, h.leaseEpoch)]);
      r := Ok(current);
    }

    method CompleteOwnedRunDispatch(h: Holder, runStatus: RunStatus, now: int) returns (r: Result<Run, GatewayError>)
      requires Valid()
      modifies this, runDispatches.Values
      ensures Valid() && runDispatches == old(runDispatches) && threads == old(threads)
      ensures Outcome(View(), r) == Complete(old(View()), h, runStatus, now)
    {
      hide Inv, View;
      ghost var before := View();
      CompleteKeepsInv(before, h, runStatus, now);
      ViewFields();
      if h.dispatchId !in runDispatches {
        return Err(DispatchNotFound);
      }
      var dispatch := runDispatches[h.dispatchId];
      if dispatch.runId != h.runId {
        return Err(DispatchConflict);
      }
      if h.runId !in runs {
        return Err(RunNotFound);
      }
      var current := runs[h.runId];
      if dispatch.ownerId != Some(h.ownerId) || dispatch.leaseEpoch != h.leaseEpoch || dispatch.state == Terminal {
        return Ok(current);
      }
      if !(dispatch.state == Leased || dispatch.state == Started) {
        return Err(DispatchStateInvalid);
      }
      assert Complete(before, h, runStatus, now) == CompletedBy(before, dispatch.View(), current, h, runStatus, now);
      hide Complete;
      r := StoreCompletion(h, dispatch, current, runStatus, now);
    }

    method StoreCompletion(h: Holder, dispatch: RunDispatchRecord, current: Run, runStatus: RunStatus, now: int)
      returns (r: Result<Run, GatewayError>)
      requires Keyed() && h.dispatchId in runDispatches && runDispatches[h.dispatchId] == dispatch
      requires h.runId in runs && runs[h.runId] == current
      modifies this`runs, this`auditEvents, dispatch
      ensures Keyed()
              && Outcome(View(), r) == CompletedBy(old(View()), old(dispatch.View()), current, h, runStatus, now)
    {
      var completed := if IsUnsettled(current.status) then current.(status := runStatus) else current;
      OtherRecords(h.dispatchId);
      dispatch.EndAsCompleted(completed.status, now);
      OneRecordChanged(h.dispatchId);
      hide Keyed, View;
      Record(completed, h.runId, true,
             [RunDispatchCompleted(completed.threadId, h.runId, h.dispatchId, completed.status, h.leaseEpoch)]);
      r := Ok(completed);
    }
  }

  /** "agent_core_worker_exited" */
  const WORKER_EXITED: JsString :=
    [97, 103, 101, 110, 116, 95, 99, 111, 114, 101, 95, 119, 111, 114, 107, 101, 114, 95, 101, 120, 105, 116, 101, 100]

  lemma AcquireKeepsInv(s: Store, dispatchId: Id, runId: Id, ownerId: Id, now: int, leaseMs: int)
    requires Inv(s)
    ensures Inv(Acquire(s, dispatchId, runId, ownerId, now, leaseMs).store)
  {
    AcquireTouches(s, dispatchId, runId, ownerId, now, leaseMs);
    StayOrTouchKeepsInv(s, Acquire(s, dispatchId, runId, ownerId, now, leaseMs).store, dispatchId);
  }

  lemma FailKeepsInv(s: Store, h: Holder, reason: JsString)
    requires Inv(s)
    ensures Inv(Fail(s, h, reason).store)
  {
    FailTouches(s, h, reason);
    StayOrTouchKeepsInv(s, Fail(s, h, reason).store, h.dispatchId);
  }

  lemma ObserveExitKeepsInv(s: Store, h: Holder, reason: JsString)
    requires Inv(s)
    ensures Inv(ObserveExit(s, h, reason).store)
  {
    ObserveExitTouches(s, h, reason);
    StayOrTouchKeepsInv(s, ObserveExit(s, h, reason).store, h.dispatchId);
  }

  lemma CompleteKeepsInv(s: Store, h: Holder, status: RunStatus, now: int)
    requires Inv(s)
    ensures Inv(Complete(s, h, status, now).store)
  {
    CompleteTouches(s, h, status, now);
    StayOrTouchKeepsInv(s, Complete(s, h, status, now).store, h.dispatchId);
  }

  lemma StayOrTouchKeepsInv(s: Store, t: Store, id: Id)
    requires Inv(s) && (t == s || Touches(s, t, id))
    ensures Inv(t)
  {
    if t != s { TouchKeepsInv(s, t, id); }
  }
}
