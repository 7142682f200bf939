/** What every operation on the store keeps. */
module DispatchInvariants {
  import opened Wrappers
  import opened CodePoints
  import opened DispatchInput
  import opened RunDispatch

  // ---- The invariant ----

  predicate Settles(e: AuditEvent, id: Id) {
    (e.RunDispatchFailed? || e.RunDispatchCompleted?) && e.dispatchId == id
  }

  /** How many events say that this dispatch has ended. */
  function Settlements(audits: seq<AuditEvent>, id: Id): nat {
    if audits == [] then 0
    else Settlements(audits[..|audits| - 1], id) + if Settles(audits[|audits| - 1], id) then 1 else 0
  }

  predicate HasMessage(messages: seq<Message>, id: Id) {
    exists i :: 0 <= i < |messages| && messages[i].id == id
  }

  ghost predicate ThreadOk(s: Store, id: Id)
    requires id in s.threads
  {
    var t := s.threads[id];
    t.id == id && forall i, j | 0 <= i < j < |t.messages| :: t.messages[i].id != t.messages[j].id
  }

  ghost predicate RunOk(s: Store, id: Id)
    requires id in s.runs
  {
    s.runs[id].id == id && s.runs[id].threadId in s.threads
  }

  /** The references of a dispatch resolve. */
  ghost predicate Anchored(s: Store, d: Dispatch) {
    && d.threadId in s.threads && d.runId in s.runs
    && s.runs[d.runId].threadId == d.threadId
    && HasMessage(s.threads[d.threadId].messages, d.messageId)
  }

  /** A dispatch has an owner and an expiry exactly while it is worked on, and a final status
    * exactly when it has ended. */
  ghost predicate OwnerShape(d: Dispatch) {
    && (d.state == Pending ==> d.ownerId.None? && d.leaseExpiresAt.None?)
    && (IsWorking(d) ==> d.ownerId.Some? && d.leaseExpiresAt.Some? && d.leaseEpoch >= 1)
    && (d.state == Terminal <==> d.terminalStatus.Some?)
  }

  /** The scope names the thread or the run, and the digest was taken from the fields kept beside it. */
  ghost predicate DispatchScoped(d: Dispatch) {
    && d.requestDigest == Digest(d.producerKind, d.scopeRef, d.threadId, d.requestDigest.requestPayload)
    && (d.producerKind == ThreadMessage ==> d.scopeRef == d.threadId)
    && (d.producerKind == ClarificationResolution ==> d.scopeRef == d.runId)
  }

  ghost predicate DispatchOk(s: Store, id: Id)
    requires id in s.dispatches
  {
    var d := s.dispatches[id];
    d.dispatchId == id && Anchored(s, d) && OwnerShape(d) && DispatchScoped(d)
  }

  predicate SameKey(d: Dispatch, e: Dispatch) {
    d.producerKind == e.producerKind && d.scopeRef == e.scopeRef && d.requestIdentity == e.requestIdentity
  }

  ghost predicate OnePerIdentity(s: Store) {
    forall a, b | a in s.dispatches && b in s.dispatches && a != b :: !SameKey(s.dispatches[a], s.dispatches[b])
  }

  ghost predicate OneActivePerRun(s: Store) {
    forall a, b | a in s.dispatches && b in s.dispatches && a != b
               && IsActive(s.dispatches[a].state) && IsActive(s.dispatches[b].state) ::
      s.dispatches[a].runId != s.dispatches[b].runId
  }

  function ExpectedSettlements(s: Store, id: Id): nat {
    if id in s.dispatches && s.dispatches[id].state == Terminal then 1 else 0
  }

  /** One settlement event per ended dispatch, none for any other. */
  ghost predicate SettledOnce(s: Store) {
    forall id :: Settlements(s.audits, id) == ExpectedSettlements(s, id)
  }

  ghost predicate Inv(s: Store) {
    && (forall id | id in s.threads :: ThreadOk(s, id))
    && (forall id | id in s.runs :: RunOk(s, id))
    && (forall id | id in s.dispatches :: DispatchOk(s, id))
    && OnePerIdentity(s)
    && OneActivePerRun(s)
    && SettledOnce(s)
  }

  // ---- Operations that work on one dispatch ----

  ghost predicate SameOrigin(d: Dispatch, e: Dispatch) {
    e == d.(state := e.state, ownerId := e.ownerId, leaseEpoch := e.leaseEpoch, leaseExpiresAt := e.leaseExpiresAt,
            heartbeatAt := e.heartbeatAt, terminalStatus := e.terminalStatus, failureReason := e.failureReason)
  }

  ghost predicate SameRunOrigin(r: Run, q: Run) {
    q.id == r.id && q.threadId == r.threadId && q.createdAt == r.createdAt
  }

  ghost predicate SettledRunsKept(s: Store, t: Store) {
    forall id | id in s.runs && !IsUnsettled(s.runs[id].status) :: id in t.runs && t.runs[id] == s.runs[id]
  }

  /** `t` differs from `s` in one dispatch that had not ended, in the status of its run if that was
    * unsettled, and by events that settle the dispatch exactly when it has ended. */
  ghost predicate Touches(s: Store, t: Store, id: Id) {
    && id in s.dispatches && s.dispatches[id].state != Terminal && s.dispatches[id].runId in s.runs
    && id in t.dispatches && SameOrigin(s.dispatches[id], t.dispatches[id]) && OwnerShape(t.dispatches[id])
    && s.dispatches[id].leaseEpoch <= t.dispatches[id].leaseEpoch
    && t.dispatches == s.dispatches[id := t.dispatches[id]]
    && t.threads == s.threads
    && s.dispatches[id].runId in t.runs
    && t.runs == s.runs[s.dispatches[id].runId := t.runs[s.dispatches[id].runId]]
    && SameRunOrigin(s.runs[s.dispatches[id].runId], t.runs[s.dispatches[id].runId])
    && (IsUnsettled(s.runs[s.dispatches[id].runId].status) || t.runs == s.runs)
    && Accounts(s.audits, t.audits, id, t.dispatches[id].state == Terminal)
  }

  /** Events were added, and among them one that settles `id` if it has ended and no other settlement. */
  ghost predicate Accounts(before: seq<AuditEvent>, after: seq<AuditEvent>, id: Id, ended: bool) {
    && before <= after
    && forall k :: Settlements(after, k) == Settlements(before, k) + if k == id && ended then 1 else 0
  }

  lemma SettlementsSnoc(audits: seq<AuditEvent>, e: AuditEvent, id: Id)
    ensures Settlements(audits + [e], id) == Settlements(audits, id) + if Settles(e, id) then 1 else 0
  {
    assert (audits + [e])[..|audits|] == audits;
  }

  lemma AccountsFor(audits: seq<AuditEvent>, e: AuditEvent, id: Id, ended: bool)
    requires forall k :: Settles(e, k) <==> k == id && ended
    ensures Accounts(audits, audits + [e], id, ended)
  {
    forall k ensures Settlements(audits + [e], k) == Settlements(audits, k) + if k == id && ended then 1 else 0 {
      SettlementsSnoc(audits, e, k);
    }
  }

  lemma AccountsForTwo(audits: seq<AuditEvent>, e: AuditEvent, f: AuditEvent, id: Id, ended: bool)
    requires forall k :: !Settles(e, k)
    requires forall k :: Settles(f, k) <==> k == id && ended
    ensures Accounts(audits, audits + [e] + [f], id, ended)
  {
    AccountsFor(audits, e, id, false);
    AccountsFor(audits + [e], f, id, ended);
  }

  lemma TouchKeepsDispatch(s: Store, t: Store, id: Id, k: Id)
    requires Inv(s) && Touches(s, t, id) && k in t.dispatches
    ensures k in s.dispatches && DispatchOk(t, k)
  {
    hide Accounts, OnePerIdentity, OneActivePerRun, SettledOnce;
    assert DispatchOk(s, k);
  }

  lemma TouchKeepsUniqueness(s: Store, t: Store, id: Id)
    requires Inv(s) && Touches(s, t, id)
    ensures OnePerIdentity(t) && OneActivePerRun(t)
  {
    hide Accounts, DispatchOk, ThreadOk, RunOk, SettledOnce;
  }

  lemma TouchKeepsSettlements(s: Store, t: Store, id: Id)
    requires Inv(s) && Touches(s, t, id)
    ensures SettledOnce(t)
  {
    hide ThreadOk, RunOk, DispatchOk, OnePerIdentity, OneActivePerRun, SameOrigin, OwnerShape, Settlements,
         SameRunOrigin;
    forall k ensures Settlements(t.audits, k) == ExpectedSettlements(t, k) {
      assert Settlements(s.audits, k) == ExpectedSettlements(s, k);
    }
  }

  lemma TouchKeepsInv(s: Store, t: Store, id: Id)
    requires Inv(s) && Touches(s, t, id)
    ensures Inv(t)
  {
    TouchKeepsUniqueness(s, t, id);
    TouchKeepsSettlements(s, t, id);
    hide Accounts, OnePerIdentity, OneActivePerRun, SettledOnce, DispatchOk;
    forall k | k in t.threads ensures ThreadOk(t, k) { assert ThreadOk(s, k); }
    forall k | k in t.runs ensures RunOk(t, k) { assert RunOk(s, k); }
    forall k | k in t.dispatches ensures DispatchOk(t, k) { TouchKeepsDispatch(s, t, id, k); }
  }

  lemma NothingToAccountFor(audits: seq<AuditEvent>, id: Id)
    ensures Accounts(audits, audits, id, false)
  {
  }

  lemma WorkedOnDispatch(s: Store, id: Id)
    requires Inv(s) && id in s.dispatches
    ensures OwnerShape(s.dispatches[id]) && s.dispatches[id].runId in s.runs
  {
    assert DispatchOk(s, id);
  }

  lemma AcquireTouches(s: Store, dispatchId: Id, runId: Id, ownerId: Id, now: int, leaseMs: int)
    requires Inv(s)
    ensures var t := Acquire(s, dispatchId, runId, ownerId, now, leaseMs).store;
            t == s || Touches(s, t, dispatchId)
  {
    hide Inv, Accounts;
    if dispatchId in s.dispatches {
      WorkedOnDispatch(s, dispatchId);
      NothingToAccountFor(s.audits, dispatchId);
    }
  }

  lemma FailTouches(s: Store, h: Holder, reason: JsString)
    requires Inv(s)
    ensures Fail(s, h, reason).store == s || Touches(s, Fail(s, h, reason).store, h.dispatchId)
  {
    hide Inv, Accounts;
    if h.dispatchId in s.dispatches && h.runId in s.runs {
      WorkedOnDispatch(s, h.dispatchId);
      var run := s.runs[h.runId];
      var event := RunDispatchFailed(run.threadId, run.id, h.dispatchId, reason, h.leaseEpoch);
      var changed := RunStatusChanged(run.threadId, run.id, Failed);
      AccountsFor(s.audits, event, h.dispatchId, true);
      AccountsForTwo(s.audits, changed, event, h.dispatchId, true);
      assert s.audits + ([] + [event]) == s.audits + [event];
      assert s.audits + ([changed] + [event]) == s.audits + [changed] + [event];
    }
  }

  lemma ObserveExitTouches(s: Store, h: Holder, reason: JsString)
    requires Inv(s)
    ensures ObserveExit(s, h, reason).store == s || Touches(s, ObserveExit(s, h, reason).store, h.dispatchId)
  {
    hide Inv, Accounts, Fail;
    FailTouches(s, h, reason);
    if h.dispatchId in s.dispatches && h.runId in s.runs {
      WorkedOnDispatch(s, h.dispatchId);
      var run := s.runs[h.runId];
      AccountsFor(s.audits, RecoveryRequested(run.threadId, run.id, h.dispatchId, reason, h.leaseEpoch), h.dispatchId,
          false);
    }
  }

  lemma CompleteTouches(s: Store, h: Holder, status: RunStatus, now: int)
    requires Inv(s)
    ensures Complete(s, h, status, now).store == s || Touches(s, Complete(s, h, status, now).store, h.dispatchId)
  {
    hide Inv, Accounts, Holds;
    if h.dispatchId in s.dispatches && h.runId in s.runs {
      WorkedOnDispatch(s, h.dispatchId);
      var run := s.runs[h.runId];
      var completed := if IsUnsettled(run.status) then run.(status := status) else run;
      AccountsFor(s.audits,
          RunDispatchCompleted(completed.threadId, h.runId, h.dispatchId, completed.status, h.leaseEpoch),
                  h.dispatchId, true);
    }
  }

  // ---- Claim ----

  /** The identifiers drawn by a claim are not in use. */
  ghost predicate Unused(s: Store, ids: FreshIds) {
    && ids.runId !in s.runs && ids.dispatchId !in s.dispatches
    && forall t | t in s.threads :: !HasMessage(s.threads[t].messages, ids.messageId)
  }

  lemma NotInUse(s: Store, ids: FreshIds)
    requires Unused(s, ids)
    ensures ids.runId !in s.runs && ids.dispatchId !in s.dispatches
  {
  }

  lemma HasMessageSnoc(messages: seq<Message>, m: Message, id: Id)
    ensures HasMessage(messages + [m], id) <==> HasMessage(messages, id) || m.id == id
  {
    if HasMessage(messages, id) {
      var i :| 0 <= i < |messages| && messages[i].id == id;
      assert (messages + [m])[i].id == id;
    }
    assert (messages + [m])[|messages|] == m;
  }

  ghost predicate IsNewClaim(s: Store, r: Request, run: Run, ids: FreshIds, now: int) {
    && Inv(s) && Scoped(r) && Unused(s, ids)
    && (forall id | id in s.dispatches :: !HasIdentity(s.dispatches[id], r))
    && ClaimRun(s, r, ids.runId, now) == Ok(run)
  }

  lemma NewClaimKeepsRecords(s: Store, r: Request, run: Run, ids: FreshIds, now: int)
    requires IsNewClaim(s, r, run, ids, now)
    ensures var t := AddDispatch(s, r, run, ids, now);
      && (forall id | id in t.threads :: ThreadOk(t, id))
      && (forall id | id in t.runs :: RunOk(t, id))
      && run.id in t.runs && t.runs[run.id] == run && run.threadId == r.threadId
  {
    var t := AddDispatch(s, r, run, ids, now);
    assert ThreadOk(s, r.threadId);
    forall id | id in t.threads ensures ThreadOk(t, id) {
      assert ThreadOk(s, id);
      assert !HasMessage(s.threads[id].messages, ids.messageId);
    }
    forall id | id in t.runs ensures RunOk(t, id) {
      if id in s.runs { assert RunOk(s, id); }
    }
    if r.producerKind == ClarificationResolution { assert RunOk(s, r.runId); }
  }

  lemma NewClaimKeepsDispatch(s: Store, r: Request, run: Run, ids: FreshIds, now: int, id: Id)
    requires IsNewClaim(s, r, run, ids, now)
    requires id in AddDispatch(s, r, run, ids, now).dispatches
    ensures DispatchOk(AddDispatch(s, r, run, ids, now), id)
  {
    NewClaimKeepsRecords(s, r, run, ids, now);
    var t := AddDispatch(s, r, run, ids, now);
    var message := Message(ids.messageId, r.text, now);
    if id == ids.dispatchId {
      HasMessageSnoc(s.threads[r.threadId].messages, message, ids.messageId);
    } else {
      assert DispatchOk(s, id);
      var d := s.dispatches[id];
      HasMessageSnoc(s.threads[d.threadId].messages, message, d.messageId);
      assert d.runId != ids.runId;
    }
  }

  lemma NewClaimKeepsUniqueness(s: Store, r: Request, run: Run, ids: FreshIds, now: int)
    requires IsNewClaim(s, r, run, ids, now)
    ensures OnePerIdentity(AddDispatch(s, r, run, ids, now))
    ensures OneActivePerRun(AddDispatch(s, r, run, ids, now))
  {
    var t := AddDispatch(s, r, run, ids, now);
    var d := NewDispatch(r, run, ids);
    forall id | id in s.dispatches ensures !SameKey(s.dispatches[id], d) && !SameKey(d, s.dispatches[id]) {
      assert !HasIdentity(s.dispatches[id], r);
    }
    forall id | id in s.dispatches && IsActive(s.dispatches[id].state) ensures s.dispatches[id].runId != run.id {
      assert DispatchOk(s, id);
      if r.producerKind == ClarificationResolution { assert RunOk(s, r.runId); }
    }
  }

  lemma NewClaimKeepsSettlements(s: Store, r: Request, run: Run, ids: FreshIds, now: int)
    requires IsNewClaim(s, r, run, ids, now)
    ensures SettledOnce(AddDispatch(s, r, run, ids, now))
  {
    var t := AddDispatch(s, r, run, ids, now);
    var events := ClaimAudits(r, run, ids);
    assert t.audits == s.audits + [events[0]] + [events[1]];
    AccountsForTwo(s.audits, events[0], events[1], ids.dispatchId, false);
    forall id ensures Settlements(t.audits, id) == ExpectedSettlements(t, id) {
      assert Settlements(s.audits, id) == ExpectedSettlements(s, id);
    }
  }

  lemma ClaimKeepsInv(s: Store, r: Request, ids: FreshIds, now: int)
    requires Inv(s) && Scoped(r) && Unused(s, ids)
    ensures Inv(Claim(s, r, ids, now).store)
  {
    if forall id | id in s.dispatches :: !HasIdentity(s.dispatches[id], r) {
      var run := ClaimRun(s, r, ids.runId, now);
      if run.Ok? {
        NewClaimKeepsRecords(s, r, run.value, ids, now);
        forall id | id in AddDispatch(s, r, run.value, ids, now).dispatches
          ensures DispatchOk(AddDispatch(s, r, run.value, ids, now), id)
        {
          NewClaimKeepsDispatch(s, r, run.value, ids, now, id);
        }
        NewClaimKeepsUniqueness(s, r, run.value, ids, now);
        NewClaimKeepsSettlements(s, r, run.value, ids, now);
      }
    }
  }
}
