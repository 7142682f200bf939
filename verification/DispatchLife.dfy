/** From a message to its settled run: what each dispatch operation answers, told by the states of
  * runs and dispatches alone, and the courses that a request can take through them. */
module DispatchLife {
  import opened Wrappers
  import opened CodePoints
  import opened DispatchInput
  import opened RunDispatch
  import opened DispatchInvariants
  import opened DispatchLaws

  // ---- Claim ----

  /** Nobody has used the request's identity for its producer and scope. */
  ghost predicate IsFresh(s: Store, r: Request) {
    forall id | id in s.dispatches ::
      !(&& s.dispatches[id].producerKind == r.producerKind && s.dispatches[id].scopeRef == r.scopeRef
        && s.dispatches[id].requestIdentity == r.requestIdentity)
  }

  lemma FreshClaim(s: Store, r: Request, ids: FreshIds, now: int)
    requires IsFresh(s, r)
    ensures var run := ClaimRun(s, r, ids.runId, now);
      && (run.Err? ==> Claim(s, r, ids, now) == Outcome(s, Err(run.error)))
      && (run.Ok? ==>
            && r.threadId in s.threads
            && Claim(s, r, ids, now).store == AddDispatch(s, r, run.value, ids, now)
            && Claim(s, r, ids, now).result
               == Ok(Claimed(Message(ids.messageId, r.text, now), run.value, NewDispatch(r, run.value, ids), false)))
  {
    hide AddDispatch, NewDispatch;
    assert forall id | id in s.dispatches :: !HasIdentity(s.dispatches[id], r);
  }

  /** A fresh message is accepted exactly from the owner of an existing thread. It becomes the last message
    * of that thread, with a new queued run and a pending dispatch that nobody has leased. */
  lemma FreshMessageIsAccepted(s: Store, r: Request, ids: FreshIds, now: int)
    requires IsFresh(s, r) && r.producerKind == ThreadMessage
    ensures var outcome := Claim(s, r, ids, now);
      && (outcome.result == Err(ThreadNotFound) <==> r.threadId !in s.threads)
      && (outcome.result == Err(ThreadOwnerMismatch)
          <==> r.threadId in s.threads && s.threads[r.threadId].ownerId != r.actorId)
      && (outcome.result.Ok? <==> r.threadId in s.threads && s.threads[r.threadId].ownerId == r.actorId)
      && (outcome.result.Err? ==> outcome.store == s)
      && (outcome.result.Ok? ==>
            var thread := s.threads[r.threadId];
            var run := Run(ids.runId, r.threadId, Queued, now, None);
            var message := Message(ids.messageId, r.text, now);
            var d := Dispatch(ids.dispatchId, ThreadMessage, r.scopeRef, r.requestIdentity,
                              Digest(ThreadMessage, r.scopeRef, r.threadId, r.requestPayload), r.threadId, ids.runId,
                              ids.messageId, Pending, None, 0, None, None, None, None);
            && outcome.result.value == Claimed(message, run, d, false)
            && outcome.store == Store(
                 s.threads[r.threadId := thread.(messages := thread.messages + [message])],
                 s.runs[ids.runId := run], s.dispatches[ids.dispatchId := d],
                 s.audits + [MessageRecorded(r.actorId, r.threadId, ids.runId, ids.messageId, ids.dispatchId),
                             RunQueued(r.actorId, r.threadId, ids.runId, ids.dispatchId)]))
  {
    FreshClaim(s, r, ids, now);
  }

  /** Nothing is under way for the run. */
  ghost predicate IsIdle(s: Store, runId: Id) {
    forall id | id in s.dispatches && s.dispatches[id].runId == runId :: s.dispatches[id].state == Terminal
  }

  lemma IdleRun(s: Store, runId: Id)
    ensures HasActiveDispatch(s.dispatches, runId) <==> !IsIdle(s, runId)
  {
  }

  /** What stands against a fresh clarification, in the order in which it is looked for. */
  lemma FreshClarificationIsRefused(s: Store, r: Request, ids: FreshIds, now: int)
    requires Inv(s) && IsFresh(s, r) && r.producerKind == ClarificationResolution
    ensures var result := Claim(s, r, ids, now).result;
      if r.threadId !in s.threads then result == Err(ThreadNotFound)
      else if s.threads[r.threadId].ownerId != r.actorId then result == Err(ThreadOwnerMismatch)
      else if r.runId !in s.runs then result == Err(RunNotFound)
      else if s.runs[r.runId].threadId != r.threadId then result == Err(DispatchConflict)
      else if s.runs[r.runId].status != WaitingForClarification then result == Err(ClarificationSourceNotWaiting)
      else if !IsIdle(s, r.runId) then result == Err(DispatchActiveConflict)
      else result.Ok? && result.value.run == s.runs[r.runId]
  {
    FreshClaim(s, r, ids, now);
    if r.runId in s.runs {
      assert RunOk(s, r.runId);
      IdleRun(s, r.runId);
    }
    hide Inv, AddDispatch, NewDispatch, HasActiveDispatch;
  }

  /** The answer joins the thread and gets a pending dispatch of its own for the run that waits. */
  lemma FreshClarificationIsStored(s: Store, r: Request, ids: FreshIds, now: int)
    requires Inv(s) && IsFresh(s, r) && r.producerKind == ClarificationResolution
    requires Claim(s, r, ids, now).result.Ok?
    ensures var outcome, message := Claim(s, r, ids, now), Message(ids.messageId, r.text, now);
      var d := Dispatch(ids.dispatchId, ClarificationResolution, r.scopeRef, r.requestIdentity,
                        Digest(ClarificationResolution, r.scopeRef, r.threadId, r.requestPayload), r.threadId, r.runId,
                        ids.messageId, Pending, None, 0, None, None, None, None);
      && r.threadId in s.threads && r.runId in s.runs
      && outcome.result.value == Claimed(message, s.runs[r.runId], d, false)
      && outcome.store == Store(
           s.threads[r.threadId := s.threads[r.threadId].(messages := s.threads[r.threadId].messages + [message])],
           s.runs, s.dispatches[ids.dispatchId := d],
           s.audits + [MessageRecorded(r.actorId, r.threadId, r.runId, ids.messageId, ids.dispatchId),
                       RunDispatchQueued(r.actorId, r.threadId, r.runId, ids.dispatchId)])
  {
    FreshClaim(s, r, ids, now);
    if r.runId in s.runs { assert RunOk(s, r.runId); }
    hide Inv, HasActiveDispatch;
  }

  /** A request whose identity was used before is answered from what is stored, and nothing changes: for the
    * same producer, scope, thread and payload by the thread's owner with the message, run and dispatch that are
    * kept; for other content as a conflict; for another actor as not allowed. */
  lemma RepeatedRequestIsAnswered(s: Store, r: Request, id: Id, ids: FreshIds, now: int)
    requires Inv(s) && Scoped(r) && id in s.dispatches
    requires s.dispatches[id].producerKind == r.producerKind && s.dispatches[id].scopeRef == r.scopeRef
    requires s.dispatches[id].requestIdentity == r.requestIdentity
    ensures var d, outcome := s.dispatches[id], Claim(s, r, ids, now);
      && d.threadId in s.threads && d.runId in s.runs && outcome.store == s
      && (d.requestDigest != Digest(r.producerKind, r.scopeRef, r.threadId, r.requestPayload)
          ==> outcome.result == Err(DispatchConflict))
      && (d.requestDigest == Digest(r.producerKind, r.scopeRef, r.threadId, r.requestPayload) ==>
            if s.threads[d.threadId].ownerId != r.actorId then outcome.result == Err(ThreadOwnerMismatch)
            else
              && outcome.result.Ok? && outcome.result.value.replayed && outcome.result.value.dispatch == d
              && outcome.result.value.run == s.runs[d.runId] && outcome.result.value.message.id == d.messageId
              && outcome.result.value.message in s.threads[d.threadId].messages)
  {
    ReplayedClaim(s, r, id, ids, now);
    assert DispatchOk(s, id);
    FindMessageFinds(s.threads[s.dispatches[id].threadId].messages, s.dispatches[id].messageId);
    hide Inv, Claim, DispatchOk, OwnerShape, DispatchScoped;
  }

  // ---- Lease ----

  /** The lease of a message is granted exactly while its run is queued, that of a clarification exactly while
    * its run waits for it; in both cases only if the dispatch is pending or its lease has run out by now. */
  lemma GrantedExactlyWhen(s: Store, dispatchId: Id, runId: Id, ownerId: Id, now: int, leaseMs: int)
    requires Inv(s) && dispatchId in s.dispatches && s.dispatches[dispatchId].runId == runId
    ensures runId in s.runs
    ensures var d, status := s.dispatches[dispatchId], s.runs[runId].status;
      var outcome := Acquire(s, dispatchId, runId, ownerId, now, leaseMs);
      && outcome.result.Ok? && outcome.result.value.run == s.runs[runId]
      && (outcome.result.value.acquired
          <==> && (|| (d.producerKind == ThreadMessage && status == Queued)
                   || (d.producerKind == ClarificationResolution && status == WaitingForClarification))
               && (|| d.state == Pending
                   || (d.state == Leased && d.leaseExpiresAt.Some? && d.leaseExpiresAt.value <= now)))
      && outcome.store == (
           if !outcome.result.value.acquired then s
           else s.(dispatches := s.dispatches[dispatchId := d.(
                     state := Leased, ownerId := Some(ownerId), leaseEpoch := d.leaseEpoch + 1,
                     leaseExpiresAt := Some(now + leaseMs), heartbeatAt := Some(now))]))
      && (outcome.result.value.acquired ==>
            outcome.result.value
            == Lease(dispatchId, true, Some(ownerId), d.leaseEpoch + 1, Leased, Acquired, s.runs[runId]))
  {
    assert DispatchOk(s, dispatchId);
    hide Inv, DispatchOk;
  }

  /** Why a lease is not granted; the answer gives away neither owner nor a new epoch. */
  lemma RefusedBecause(s: Store, dispatchId: Id, runId: Id, ownerId: Id, now: int, leaseMs: int)
    requires Inv(s) && dispatchId in s.dispatches && s.dispatches[dispatchId].runId == runId
    requires Acquire(s, dispatchId, runId, ownerId, now, leaseMs).result.Ok?
    requires !Acquire(s, dispatchId, runId, ownerId, now, leaseMs).result.value.acquired
    ensures var d, lease := s.dispatches[dispatchId],
                            Acquire(s, dispatchId, runId, ownerId, now, leaseMs).result.value;
      && lease.ownerId == None && lease.leaseEpoch == d.leaseEpoch && lease.state == d.state
      && (lease.reason == AlreadyTerminal <==> d.state == Terminal)
      && (lease.reason == AlreadyRunning <==> d.state == Started)
      && (lease.reason == RunNotDispatchable
          <==> && (d.state == Pending || d.state == Leased)
               && (d.producerKind == ThreadMessage ==> lease.run.status != Queued)
               && (d.producerKind == ClarificationResolution ==> lease.run.status != WaitingForClarification))
      && (lease.reason == ActiveLease
          ==> d.state == Leased && d.leaseExpiresAt.Some? && d.leaseExpiresAt.value > now)
      && lease.reason != Acquired
  {
    assert DispatchOk(s, dispatchId);
    hide Inv, DispatchOk;
  }

  /** Whoever asks for a lease of an unknown dispatch, or names another run, is told so. */
  lemma WrongReferencesAreRefused(s: Store, dispatchId: Id, runId: Id, ownerId: Id, now: int, leaseMs: int)
    ensures var outcome := Acquire(s, dispatchId, runId, ownerId, now, leaseMs);
      && (dispatchId !in s.dispatches ==> outcome == Outcome(s, Err(DispatchNotFound)))
      && (dispatchId in s.dispatches && s.dispatches[dispatchId].runId != runId
          ==> outcome == Outcome(s, Err(DispatchConflict)))
  {
    hide LeasedTo;
  }

  // ---- Owner-checked endings ----

  /** The dispatch is worked on by this owner under this epoch. */
  predicate WorksOn(d: Dispatch, h: Holder) {
    (d.state == Leased || d.state == Started) && d.ownerId == Some(h.ownerId) && d.leaseEpoch == h.leaseEpoch
  }

  /** Completing ends exactly the dispatch that the caller works on. A run that is queued, running or waiting
    * takes the given status; any other keeps its own, and the dispatch ends with that. */
  lemma CompletedExactly(s: Store, h: Holder, status: RunStatus, now: int)
    requires Inv(s) && h.dispatchId in s.dispatches && s.dispatches[h.dispatchId].runId == h.runId
    ensures h.runId in s.runs
    ensures var d, run, outcome := s.dispatches[h.dispatchId], s.runs[h.runId], Complete(s, h, status, now);
      var isOpen := run.status in {Queued, Running, RunningWorkflow, WaitingForClarification};
      var ended := if isOpen then run.(status := status) else run;
      outcome == if !WorksOn(d, h) then Outcome(s, Ok(run)) else Outcome(
        s.(runs := s.runs[h.runId := ended],
           dispatches := s.dispatches[h.dispatchId := d.(state := Terminal, terminalStatus := Some(ended.status),
                                                         leaseExpiresAt := None, heartbeatAt := Some(now))],
           audits := s.audits
             + [RunDispatchCompleted(run.threadId, h.runId, h.dispatchId, ended.status, h.leaseEpoch)]),
        Ok(ended))
  {
    assert DispatchOk(s, h.dispatchId);
    hide Inv, DispatchOk;
  }

  /** Failing ends the dispatch that the caller works on if its run is queued, running or waiting. The run
    * fails with the reason, unless it waits for the very clarification that was dispatched. */
  lemma FailedExactly(s: Store, h: Holder, reason: JsString)
    requires Inv(s) && h.dispatchId in s.dispatches && s.dispatches[h.dispatchId].runId == h.runId
    ensures h.runId in s.runs
    ensures var d, run, outcome := s.dispatches[h.dispatchId], s.runs[h.runId], Fail(s, h, reason);
      var isOpen := run.status in {Queued, Running, RunningWorkflow, WaitingForClarification};
      var waits := d.producerKind == ClarificationResolution && run.status == WaitingForClarification;
      var failed := if waits then run else run.(status := Failed, failureReason := Some(reason));
      var event := RunDispatchFailed(run.threadId, h.runId, h.dispatchId, reason, h.leaseEpoch);
      outcome == if !WorksOn(d, h) || !isOpen then Outcome(s, Ok(run)) else Outcome(
        s.(runs := s.runs[h.runId := failed],
           dispatches := s.dispatches[h.dispatchId := d.(state := Terminal, terminalStatus := Some(Failed),
                                                         failureReason := Some(reason), leaseExpiresAt := None)],
           audits := s.audits
             + if waits then [event] else [RunStatusChanged(run.threadId, h.runId, Failed), event]),
        Ok(failed))
  {
    assert DispatchOk(s, h.dispatchId) && RunOk(s, h.runId);
    hide Inv, DispatchOk, RunOk;
  }

  /** When the worker of a clarification exits while the run still waits, its dispatch is handed back; with
    * any other dispatch, an exit is a failure. */
  lemma ExitExactly(s: Store, h: Holder, reason: JsString)
    requires Inv(s) && h.dispatchId in s.dispatches && s.dispatches[h.dispatchId].runId == h.runId
    ensures h.runId in s.runs
    ensures var d, run, outcome := s.dispatches[h.dispatchId], s.runs[h.runId], ObserveExit(s, h, reason);
      outcome == if && WorksOn(d, h)
                    && d.producerKind == ClarificationResolution && run.status == WaitingForClarification
        then Outcome(
          s.(dispatches := s.dispatches[h.dispatchId := d.(
               state := Pending, ownerId := None, leaseExpiresAt := None, heartbeatAt := None,
               terminalStatus := None, failureReason := None)],
             audits := s.audits + [RecoveryRequested(run.threadId, h.runId, h.dispatchId, reason, h.leaseEpoch)]),
          Ok(run))
        else Fail(s, h, reason)
  {
    assert DispatchOk(s, h.dispatchId) && RunOk(s, h.runId);
    hide Inv, DispatchOk, RunOk, Fail;
  }

  // ---- Courses ----

  lemma NewClaimStaysSound(s: Store, r: Request, ids: FreshIds, now: int)
    requires Inv(s) && Scoped(r) && Unused(s, ids) && IsFresh(s, r)
    ensures Inv(Claim(s, r, ids, now).store)
  {
    ClaimKeepsInv(s, r, ids, now);
  }

  /** The store after a message was accepted, as far as its dispatch and its run go. */
  lemma MessageIsClaimed(s: Store, r: Request, ids: FreshIds, now: int)
    requires Inv(s) && Scoped(r) && Unused(s, ids) && IsFresh(s, r) && r.producerKind == ThreadMessage
    requires r.threadId in s.threads && s.threads[r.threadId].ownerId == r.actorId
    ensures var run, claimed := Run(ids.runId, r.threadId, Queued, now, None), Claim(s, r, ids, now);
      && claimed.result.Ok? && claimed.result.value.run == run && Inv(claimed.store)
      && ids.runId in claimed.store.runs && claimed.store.runs[ids.runId] == run
      && ids.dispatchId in claimed.store.dispatches
      && var d := claimed.store.dispatches[ids.dispatchId];
         d.producerKind == ThreadMessage && d.state == Pending && d.runId == ids.runId && d.leaseEpoch == 0
    ensures Claim(s, r, ids, now).store.audits == s.audits
              + [MessageRecorded(r.actorId, r.threadId, ids.runId, ids.messageId, ids.dispatchId),
                 RunQueued(r.actorId, r.threadId, ids.runId, ids.dispatchId)]
  {
    hide Inv, Scoped, Unused, Claim, IsFresh;
    FreshMessageIsAccepted(s, r, ids, now);
    NewClaimStaysSound(s, r, ids, now);
  }

  /** Every message that is accepted can be dispatched: the first to ask for the lease gets it, under the
    * first epoch. */
  lemma AcceptedMessageIsDispatched(s: Store, r: Request, ids: FreshIds, now: int,
                                    ownerId: Id, later: int, leaseMs: int)
    requires Inv(s) && Scoped(r) && Unused(s, ids) && IsFresh(s, r) && r.producerKind == ThreadMessage
    requires r.threadId in s.threads && s.threads[r.threadId].ownerId == r.actorId
    ensures var claimed := Claim(s, r, ids, now);
      && claimed.result.Ok? && claimed.result.value.run.status == Queued
      && var lease := Acquire(claimed.store, ids.dispatchId, ids.runId, ownerId, later, leaseMs);
         && lease.result
            == Ok(Lease(ids.dispatchId, true, Some(ownerId), 1, Leased, Acquired, claimed.result.value.run))
         && ids.dispatchId in lease.store.dispatches
         && lease.store.dispatches[ids.dispatchId].leaseExpiresAt == Some(later + leaseMs)
  {
    hide *;
    MessageIsClaimed(s, r, ids, now);
    GrantedExactlyWhen(Claim(s, r, ids, now).store, ids.dispatchId, ids.runId, ownerId, later, leaseMs);
  }

  /** Likewise every clarification that is accepted. */
  lemma AcceptedClarificationIsDispatched(s: Store, r: Request, ids: FreshIds, now: int,
                                          ownerId: Id, later: int, leaseMs: int)
    requires Inv(s) && Scoped(r) && Unused(s, ids) && IsFresh(s, r) && r.producerKind == ClarificationResolution
    requires Claim(s, r, ids, now).result.Ok?
    ensures r.runId in s.runs && s.runs[r.runId].status == WaitingForClarification
    ensures Acquire(Claim(s, r, ids, now).store, ids.dispatchId, r.runId, ownerId, later, leaseMs).result
            == Ok(Lease(ids.dispatchId, true, Some(ownerId), 1, Leased, Acquired, s.runs[r.runId]))
  {
    FreshClarificationIsRefused(s, r, ids, now);
    FreshClarificationIsStored(s, r, ids, now);
    NewClaimStaysSound(s, r, ids, now);
    hide Inv, Scoped, Unused, Claim, Acquire, IsFresh, IsIdle;
    GrantedExactlyWhen(Claim(s, r, ids, now).store, ids.dispatchId, r.runId, ownerId, later, leaseMs);
  }

  /** Once the run of a message has left the queue, its dispatch is never leased again. */
  lemma MessageIsLeasedOnlyFromTheQueue(s: Store, dispatchId: Id, ownerId: Id, now: int, leaseMs: int)
    requires Inv(s) && dispatchId in s.dispatches && s.dispatches[dispatchId].producerKind == ThreadMessage
    requires s.dispatches[dispatchId].runId in s.runs && s.runs[s.dispatches[dispatchId].runId].status != Queued
    ensures var outcome := Acquire(s, dispatchId, s.dispatches[dispatchId].runId, ownerId, now, leaseMs);
            outcome.store == s && outcome.result.Ok? && !outcome.result.value.acquired
  {
    hide Inv, Acquire;
    GrantedExactlyWhen(s, dispatchId, s.dispatches[dispatchId].runId, ownerId, now, leaseMs);
  }

  /** A pending dispatch of a queued run, leased and completed. */
  lemma LeasedAndCompleted(s: Store, dispatchId: Id, ownerId: Id, later: int, leaseMs: int, status: RunStatus,
                           last: int)
    requires Inv(s) && dispatchId in s.dispatches && s.dispatches[dispatchId].runId in s.runs
    requires s.dispatches[dispatchId].producerKind == ThreadMessage && s.dispatches[dispatchId].state == Pending
    requires s.runs[s.dispatches[dispatchId].runId].status == Queued
    ensures var d := s.dispatches[dispatchId];
      var run := s.runs[d.runId];
      var t := Acquire(s, dispatchId, d.runId, ownerId, later, leaseMs).store;
      var u := Complete(t, Holder(dispatchId, d.runId, ownerId, d.leaseEpoch + 1), status, last).store;
      && u.runs == s.runs[d.runId := run.(status := status)]
      && dispatchId in u.dispatches && u.dispatches[dispatchId].state == Terminal
      && u.dispatches[dispatchId].terminalStatus == Some(status)
      && u.audits
         == s.audits + [RunDispatchCompleted(run.threadId, d.runId, dispatchId, status, d.leaseEpoch + 1)]
  {
    hide Inv, Acquire, Complete;
    var d := s.dispatches[dispatchId];
    GrantedExactlyWhen(s, dispatchId, d.runId, ownerId, later, leaseMs);
    AcquireStaysSound(s, dispatchId, d.runId, ownerId, later, leaseMs);
    CompletedExactly(Acquire(s, dispatchId, d.runId, ownerId, later, leaseMs).store,
                     Holder(dispatchId, d.runId, ownerId, d.leaseEpoch + 1), status, last);
  }

  /** The whole course of a message: accepted, leased, completed. Its run ends with the given status, and the
    * log has gained the three events of the course in order. */
  lemma MessageRunsItsCourse(s: Store, r: Request, ids: FreshIds, now: int, ownerId: Id, later: int, leaseMs: int,
                             status: RunStatus, last: int)
    requires Inv(s) && Scoped(r) && Unused(s, ids) && IsFresh(s, r) && r.producerKind == ThreadMessage
    requires r.threadId in s.threads && s.threads[r.threadId].ownerId == r.actorId
    ensures var t := Acquire(Claim(s, r, ids, now).store, ids.dispatchId, ids.runId, ownerId, later, leaseMs).store;
      var u := Complete(t, Holder(ids.dispatchId, ids.runId, ownerId, 1), status, last).store;
      && ids.runId in u.runs && u.runs[ids.runId] == Run(ids.runId, r.threadId, status, now, None)
      && ids.dispatchId in u.dispatches && u.dispatches[ids.dispatchId].terminalStatus == Some(status)
      && u.audits == s.audits
           + [MessageRecorded(r.actorId, r.threadId, ids.runId, ids.messageId, ids.dispatchId),
              RunQueued(r.actorId, r.threadId, ids.runId, ids.dispatchId)]
           + [RunDispatchCompleted(r.threadId, ids.runId, ids.dispatchId, status, 1)]
  {
    hide *;
    MessageIsClaimed(s, r, ids, now);
    LeasedAndCompleted(Claim(s, r, ids, now).store, ids.dispatchId, ownerId, later, leaseMs, status, last);
  }

  lemma AcquireStaysSound(s: Store, dispatchId: Id, runId: Id, ownerId: Id, now: int, leaseMs: int)
    requires Inv(s)
    ensures Inv(Acquire(s, dispatchId, runId, ownerId, now, leaseMs).store)
  {
    hide Inv, Acquire, Touches;
    AcquireTouches(s, dispatchId, runId, ownerId, now, leaseMs);
    var t := Acquire(s, dispatchId, runId, ownerId, now, leaseMs).store;
    if t != s { TouchKeepsInv(s, t, dispatchId); }
  }
}
