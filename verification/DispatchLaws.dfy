/** What a caller of the dispatch operations can rely on. */
module DispatchLaws {
  import opened Wrappers
  import opened CodePoints
  import opened DispatchInput
  import opened RunDispatch
  import opened DispatchInvariants

  // ---- Claiming is idempotent ----

  lemma {:induction false} FindMessageFinds(messages: seq<Message>, id: Id)
    requires HasMessage(messages, id)
    ensures FindMessage(messages, id).Some? && FindMessage(messages, id).value.id == id
    ensures FindMessage(messages, id).value in messages
  {
    if messages[0].id != id {
      var i :| 0 <= i < |messages| && messages[i].id == id;
      assert messages[1..][i - 1].id == id;
      FindMessageFinds(messages[1..], id);
    }
  }

  lemma TheOnlyMatch(s: Store, r: Request, id: Id)
    requires OnePerIdentity(s) && id in s.dispatches && HasIdentity(s.dispatches[id], r)
    ensures forall k | k in s.dispatches && HasIdentity(s.dispatches[k], r) :: k == id
  {
    forall k | k in s.dispatches && HasIdentity(s.dispatches[k], r) ensures k == id {
      assert k == id || !SameKey(s.dispatches[k], s.dispatches[id]);
    }
  }

  /** What a claim answers when its identity has been used for dispatch `d`. */
  ghost function ReplayAnswer(s: Store, d: Dispatch, r: Request): Result<Claimed, GatewayError>
    requires Anchored(s, d)
  {
    if d.requestDigest != RequestDigest(r) then Err(DispatchConflict)
    else if s.threads[d.threadId].ownerId != r.actorId then Err(ThreadOwnerMismatch)
    else
      FindMessageFinds(s.threads[d.threadId].messages, d.messageId);
      Ok(Claimed(FindMessage(s.threads[d.threadId].messages, d.messageId).value, s.runs[d.runId], d, true))
  }

  /** A second claim with an identity already used never changes the store. With the same content
    * and the same actor it returns the message, run and dispatch of that identity; with other
    * content it is a conflict; by another actor it is refused. No other answer is possible. */
  lemma ReplayedClaim(s: Store, r: Request, id: Id, ids: FreshIds, now: int)
    requires Inv(s) && Scoped(r) && id in s.dispatches && HasIdentity(s.dispatches[id], r)
    ensures DispatchOk(s, id)
    ensures Claim(s, r, ids, now) == Outcome(s, ReplayAnswer(s, s.dispatches[id], r))
    ensures Claim(s, r, ids, now).result.Ok? ==>
              Claim(s, r, ids, now).result.value.message.id == s.dispatches[id].messageId
  {
    TheOnlyMatch(s, r, id);
    var d := s.dispatches[id];
    assert DispatchOk(s, id);
    FindMessageFinds(s.threads[d.threadId].messages, d.messageId);
  }

  /** Claiming again right after a successful claim returns what the first claim returned. */
  lemma ClaimTwice(s: Store, r: Request, ids: FreshIds, now: int, ids': FreshIds, now': int)
    requires Inv(s) && Scoped(r) && Unused(s, ids)
    requires Claim(s, r, ids, now).result.Ok?
    ensures var first := Claim(s, r, ids, now);
            Claim(first.store, r, ids', now') == Outcome(first.store, Ok(first.result.value.(replayed := true)))
  {
    if exists id :: id in s.dispatches && HasIdentity(s.dispatches[id], r) {
      var id :| id in s.dispatches && HasIdentity(s.dispatches[id], r);
      ReplayedClaim(s, r, id, ids, now);
      ReplayedClaim(s, r, id, ids', now');
    } else {
      NewClaimThenReplay(s, r, ClaimRun(s, r, ids.runId, now).value, ids, now, ids', now');
    }
  }

  lemma NewClaimThenReplay(s: Store, r: Request, run: Run, ids: FreshIds, now: int, ids': FreshIds, now': int)
    requires IsNewClaim(s, r, run, ids, now)
    ensures var t := AddDispatch(s, r, run, ids, now);
            Claim(t, r, ids', now')
            == Outcome(t, Ok(Claimed(Message(ids.messageId, r.text, now), run, NewDispatch(r, run, ids), true)))
  {
    var t := AddDispatch(s, r, run, ids, now);
    ClaimKeepsInv(s, r, ids, now);
    assert t == Claim(s, r, ids, now).store;
    NewClaimKeepsRecords(s, r, run, ids, now);
    FindAppended(s.threads[r.threadId].messages, Message(ids.messageId, r.text, now));
    ReplayedClaim(t, r, ids.dispatchId, ids', now');
  }

  lemma FindAppended(messages: seq<Message>, m: Message)
    requires !HasMessage(messages, m.id)
    ensures FindMessage(messages + [m], m.id) == Some(m)
  {
    if messages == [] {
      assert messages + [m] == [m];
    } else {
      assert messages[0].id != m.id;
      assert (messages + [m])[1..] == messages[1..] + [m];
      FindAppended(messages[1..], m);
    }
  }

  /** The error that would mean a damaged store cannot come from a sound one. */
  lemma ClaimFindsItsRecords(s: Store, r: Request, ids: FreshIds, now: int)
    requires Inv(s) && Scoped(r)
    ensures Claim(s, r, ids, now).result != Err(DispatchInvariantFailed)
  {
    if exists id :: id in s.dispatches && HasIdentity(s.dispatches[id], r) {
      var id :| id in s.dispatches && HasIdentity(s.dispatches[id], r);
      ReplayedClaim(s, r, id, ids, now);
    }
  }

  /** Nor can the one that would mean a dispatch held without being worked on. */
  lemma CompleteFindsAState(s: Store, h: Holder, status: RunStatus, now: int)
    requires Inv(s)
    ensures Complete(s, h, status, now).result != Err(DispatchStateInvalid)
  {
    if h.dispatchId in s.dispatches {
      assert DispatchOk(s, h.dispatchId);
    }
  }

  /** What a new claim stores: the text as the last message of the caller's own thread, a pending
    * dispatch that names message, run and request, and a queued run or the waiting run as it is. */
  ghost predicate StoresClaim(s: Store, t: Store, r: Request, c: Claimed) {
    && r.threadId in s.threads && s.threads[r.threadId].ownerId == r.actorId
    && c.message.text == r.text && !HasMessage(s.threads[r.threadId].messages, c.message.id)
    && t.threads
        == s.threads[r.threadId := s.threads[r.threadId].(messages := s.threads[r.threadId].messages + [c.message])]
    && c.dispatch.dispatchId !in s.dispatches && t.dispatches == s.dispatches[c.dispatch.dispatchId := c.dispatch]
    && HasIdentity(c.dispatch, r) && c.dispatch.requestDigest == RequestDigest(r)
    && c.dispatch.threadId == r.threadId && c.dispatch.messageId == c.message.id && c.dispatch.runId == c.run.id
    && c.dispatch.state == Pending && c.dispatch.leaseEpoch == 0
    && (match r.producerKind
        case ThreadMessage =>
          && c.run.id !in s.runs && c.run.threadId == r.threadId && c.run.status == Queued
          && t.runs == s.runs[c.run.id := c.run]
        case ClarificationResolution =>
          && r.runId in s.runs && c.run == s.runs[r.runId] && c.run.status == WaitingForClarification
          && c.run.threadId == r.threadId && !HasActiveDispatch(s.dispatches, r.runId) && t.runs == s.runs)
    && |t.audits| == |s.audits| + 2 && s.audits <= t.audits
  }

  /** A claim either stores a new claim, or stores nothing. */
  lemma ClaimStoresOrChangesNothing(s: Store, r: Request, ids: FreshIds, now: int)
    requires Inv(s) && Scoped(r) && Unused(s, ids)
    ensures var outcome := Claim(s, r, ids, now);
            if outcome.result.Ok? && !outcome.result.value.replayed
            then StoresClaim(s, outcome.store, r, outcome.result.value)
            else outcome.store == s
  {
    assert OnePerIdentity(s);
    hide Inv, Unused, StoresClaim, ClaimRun, OnePerIdentity;
    if exists id :: id in s.dispatches && HasIdentity(s.dispatches[id], r) {
      var id :| id in s.dispatches && HasIdentity(s.dispatches[id], r);
      TheOnlyMatch(s, r, id);
    } else {
      var run := ClaimRun(s, r, ids.runId, now);
      if run.Ok? { NewClaimIsStored(s, r, run.value, ids, now); }
    }
  }

  lemma NewClaimIsStored(s: Store, r: Request, run: Run, ids: FreshIds, now: int)
    requires Inv(s) && Scoped(r) && Unused(s, ids) && ClaimRun(s, r, ids.runId, now) == Ok(run)
    ensures StoresClaim(s, AddDispatch(s, r, run, ids, now), r,
                        Claimed(Message(ids.messageId, r.text, now), run, NewDispatch(r, run, ids), false))
  {
    if r.producerKind == ClarificationResolution { assert RunOk(s, r.runId); }
    hide Inv;
  }

  // ---- Ownership ----

  /** Whoever does not hold the current lease of a dispatch that is being worked on can change
    * nothing: no run, no dispatch, no thread and no event. */
  lemma NotTheHolder(s: Store, h: Holder, reason: JsString, status: RunStatus, now: int)
    requires Inv(s)
    requires h.dispatchId in s.dispatches
             ==> !(IsWorking(s.dispatches[h.dispatchId]) && Holds(s.dispatches[h.dispatchId], h))
    ensures Fail(s, h, reason).store == s
    ensures ObserveExit(s, h, reason).store == s
    ensures Complete(s, h, status, now).store == s
  {
    if h.dispatchId in s.dispatches {
      assert DispatchOk(s, h.dispatchId);
    }
  }

  /** A lease is granted exactly on a dispatch whose run can start and that is pending or leased to an
    * owner whose time is up; the grant raises the epoch by one and touches nothing else. */
  lemma AcquiredExactlyWhen(s: Store, dispatchId: Id, runId: Id, ownerId: Id, now: int, leaseMs: int)
    requires Inv(s) && dispatchId in s.dispatches && s.dispatches[dispatchId].runId == runId
    ensures var d, outcome := s.dispatches[dispatchId], Acquire(s, dispatchId, runId, ownerId, now, leaseMs);
      && runId in s.runs && (d.state == Leased ==> d.leaseExpiresAt.Some?) && outcome.result.Ok?
      && (outcome.result.value.acquired
          <==> CanStart(d.producerKind, s.runs[runId].status)
               && (d.state == Pending || (d.state == Leased && d.leaseExpiresAt.value <= now)))
      && (outcome.result.value.acquired ==>
            var e := outcome.store.dispatches[dispatchId];
            && e.state == Leased && e.ownerId == Some(ownerId) && e.leaseEpoch == d.leaseEpoch + 1
            && e.leaseExpiresAt == Some(now + leaseMs)
            && outcome.result.value.leaseEpoch == e.leaseEpoch && outcome.result.value.ownerId == e.ownerId
            && outcome.store == s.(dispatches := s.dispatches[dispatchId := e]))
      && (!outcome.result.value.acquired ==> outcome.store == s)
  {
    assert DispatchOk(s, dispatchId);
    hide Inv, DispatchOk;
  }

  /** The holder always gets its dispatch ended by completing it. */
  lemma HolderCompletes(s: Store, h: Holder, status: RunStatus, now: int)
    requires Inv(s) && h.dispatchId in s.dispatches && s.dispatches[h.dispatchId].runId == h.runId
    requires IsWorking(s.dispatches[h.dispatchId]) && Holds(s.dispatches[h.dispatchId], h)
    ensures var t := Complete(s, h, status, now).store;
      && t.dispatches[h.dispatchId].state == Terminal
      && t.dispatches[h.dispatchId].terminalStatus == Some(t.runs[h.runId].status)
      && t.runs[h.runId].status == (if IsUnsettled(s.runs[h.runId].status) then status else s.runs[h.runId].status)
      && Settlements(t.audits, h.dispatchId) == 1
      && t.audits
         == s.audits + [RunDispatchCompleted(t.runs[h.runId].threadId, h.runId, h.dispatchId, t.runs[h.runId].status,
                                             h.leaseEpoch)]
  {
    assert DispatchOk(s, h.dispatchId);
    CompleteTouches(s, h, status, now);
    assert Settlements(s.audits, h.dispatchId) == ExpectedSettlements(s, h.dispatchId);
    hide Inv, DispatchOk;
  }

  /** The holder's failure changes nothing once the run has settled. Until then it ends the dispatch with
    * the reason; the run fails with it, unless it waits for the answer to a clarification. */
  lemma HolderFails(s: Store, h: Holder, reason: JsString)
    requires Inv(s) && h.dispatchId in s.dispatches && s.dispatches[h.dispatchId].runId == h.runId
    requires IsWorking(s.dispatches[h.dispatchId]) && Holds(s.dispatches[h.dispatchId], h)
    ensures h.runId in s.runs
    ensures !IsUnsettled(s.runs[h.runId].status) ==> Fail(s, h, reason).store == s
    ensures IsUnsettled(s.runs[h.runId].status) ==>
      var t := Fail(s, h, reason).store;
      var e := t.dispatches[h.dispatchId];
      && e.state == Terminal && e.terminalStatus == Some(Failed) && e.failureReason == Some(reason)
      && Settlements(t.audits, h.dispatchId) == 1
      && (if KeepsWaiting(s.dispatches[h.dispatchId], s.runs[h.runId]) then t.runs == s.runs
          else t.runs[h.runId].status == Failed && t.runs[h.runId].failureReason == Some(reason))
  {
    assert DispatchOk(s, h.dispatchId);
    FailTouches(s, h, reason);
    assert Settlements(s.audits, h.dispatchId) == ExpectedSettlements(s, h.dispatchId);
    assert s.runs[h.runId := s.runs[h.runId]] == s.runs;
    hide Inv, DispatchOk;
  }

  // ---- Settled runs and ended dispatches ----

  lemma ClaimKeepsSettledRuns(s: Store, r: Request, ids: FreshIds, now: int)
    requires Unused(s, ids)
    ensures SettledRunsKept(s, Claim(s, r, ids, now).store)
  {
  }

  lemma HolderKeepsSettledRuns(s: Store, h: Holder, reason: JsString, status: RunStatus, now: int)
    ensures SettledRunsKept(s, Fail(s, h, reason).store)
    ensures SettledRunsKept(s, ObserveExit(s, h, reason).store)
    ensures SettledRunsKept(s, Complete(s, h, status, now).store)
  {
  }

  // ---- Recovery ----

  /** When the dispatch of a clarification fails while its run waits, the run is still waiting and
    * the thread's owner can claim again under any identity not used before. */
  lemma FailedClarificationCanBeClaimedAgain(s: Store, h: Holder, reason: JsString, r: Request, ids: FreshIds, now: int)
    requires Inv(s) && h.dispatchId in s.dispatches && s.dispatches[h.dispatchId].runId == h.runId
    requires var d := s.dispatches[h.dispatchId];
      IsWorking(d) && Holds(d, h) && KeepsWaiting(d, s.runs[h.runId])
    requires Scoped(r) && r.producerKind == ClarificationResolution && r.runId == h.runId
    requires r.threadId == s.dispatches[h.dispatchId].threadId && r.actorId == s.threads[r.threadId].ownerId
    requires forall id | id in s.dispatches :: !HasIdentity(s.dispatches[id], r)
    ensures var t := Fail(s, h, reason).store;
      && t.runs == s.runs && t.dispatches[h.dispatchId].state == Terminal
      && Claim(t, r, ids, now).result.Ok? && !Claim(t, r, ids, now).result.value.replayed
      && Claim(t, r, ids, now).result.value.run == s.runs[h.runId]
  {
    var t := Fail(s, h, reason).store;
    assert DispatchOk(s, h.dispatchId) && RunOk(s, h.runId);
    assert t.runs == s.runs;
    forall id | id in t.dispatches
      ensures !HasIdentity(t.dispatches[id], r)
      ensures !(t.dispatches[id].runId == h.runId && IsActive(t.dispatches[id].state))
    {
      assert id in s.dispatches && !HasIdentity(s.dispatches[id], r);
      if id != h.dispatchId && IsActive(s.dispatches[id].state) {
        assert s.dispatches[id].runId != s.dispatches[h.dispatchId].runId;
      }
    }
  }

  /** After the worker of a waiting clarification exits, its dispatch is pending again, the former
    * holder has no power over it, and the next acquisition succeeds with the next epoch. */
  lemma ReleasedDispatchCanBeAcquired(s: Store, h: Holder, reason: JsString, ownerId: Id, now: int, leaseMs: int)
    requires Inv(s) && h.dispatchId in s.dispatches && h.runId in s.runs && s.dispatches[h.dispatchId].runId == h.runId
    requires Releases(s.dispatches[h.dispatchId], s.runs[h.runId], h)
    ensures var t := ObserveExit(s, h, reason).store;
      && t.dispatches[h.dispatchId].state == Pending && !Holds(t.dispatches[h.dispatchId], h)
      && t.runs == s.runs
      && var result := Acquire(t, h.dispatchId, h.runId, ownerId, now, leaseMs).result;
         result.Ok? && result.value.acquired && result.value.leaseEpoch == h.leaseEpoch + 1
         && result.value.ownerId == Some(ownerId)
  {
    assert DispatchOk(s, h.dispatchId);
  }
}
