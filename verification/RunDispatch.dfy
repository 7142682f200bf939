/** The run-dispatch operations of the in-memory store, as functions of its contents
  * (`claimRunDispatchRequest`, `acquireRunDispatchLease`, `failOwnedRunDispatch`,
  * `observeOwnedRunDispatchExit`, `completeOwnedRunDispatch`). */
module RunDispatch {
  import opened Wrappers
  import opened CodePoints
  import opened DispatchInput

  type Id = JsString

  datatype RunStatus =
    | Queued | Running | RunningWorkflow | InteractionCompleted | WaitingForClarification | Planned
    | EvidenceReady | AuthoritySealed | NarrativeReady | Completed | Failed

  datatype DispatchState = Pending | Leased | Started | Terminal

  datatype Message = Message(id: Id, text: JsString, createdAt: int)

  datatype Thread = Thread(id: Id, ownerId: Id, messages: seq<Message>)

  datatype Run = Run(id: Id, threadId: Id, status: RunStatus, createdAt: int, failureReason: Option<JsString>)

  datatype Dispatch = Dispatch(
    dispatchId: Id,
    producerKind: ProducerKind,
    scopeRef: JsString,
    requestIdentity: JsString,
    requestDigest: Digest,
    threadId: Id,
    runId: Id,
    messageId: Id,
    state: DispatchState,
    ownerId: Option<Id>,
    leaseEpoch: nat,
    leaseExpiresAt: Option<int>,
    heartbeatAt: Option<int>,
    terminalStatus: Option<RunStatus>,
    failureReason: Option<JsString>)

  datatype AuditEvent =
    | MessageRecorded(actorId: Id, threadId: Id, runId: Id, messageId: Id, dispatchId: Id)
    | RunQueued(actorId: Id, threadId: Id, runId: Id, dispatchId: Id)
    | RunDispatchQueued(actorId: Id, threadId: Id, runId: Id, dispatchId: Id)
    | RunStatusChanged(threadId: Id, runId: Id, status: RunStatus)
    | RunDispatchFailed(threadId: Id, runId: Id, dispatchId: Id, reason: JsString, leaseEpoch: nat)
    | RunDispatchCompleted(threadId: Id, runId: Id, dispatchId: Id, status: RunStatus, leaseEpoch: nat)
    | RecoveryRequested(threadId: Id, runId: Id, dispatchId: Id, reason: JsString, leaseEpoch: nat)
    | ThreadCreated(actorId: Id, threadId: Id)
    | ClarificationSaved(threadId: Id, runId: Id)
    | RequestFailed(context: RequestContext, internalCode: JsString)

  /** What is known of a request that failed. */
  datatype RequestContext = RequestContext(actor: Option<Id>, thread: Option<Id>, run: Option<Id>)

  datatype Store = Store(
    threads: map<Id, Thread>,
    runs: map<Id, Run>,
    dispatches: map<Id, Dispatch>,
    audits: seq<AuditEvent>)

  datatype Outcome<+T> = Outcome(store: Store, result: Result<T, GatewayError>)

  datatype Claimed = Claimed(message: Message, run: Run, dispatch: Dispatch, replayed: bool)

  datatype LeaseReason = Acquired | ActiveLease | AlreadyRunning | AlreadyTerminal | RunNotDispatchable

  datatype Lease = Lease(
    dispatchId: Id, acquired: bool, ownerId: Option<Id>, leaseEpoch: nat,
    state: DispatchState, reason: LeaseReason, run: Run)

  /** The identifiers a claim draws (`crypto.randomUUID`). */
  datatype FreshIds = FreshIds(runId: Id, messageId: Id, dispatchId: Id)

  /** What the holder of a lease presents. */
  datatype Holder = Holder(dispatchId: Id, runId: Id, ownerId: Id, leaseEpoch: nat)

  predicate IsUnsettled(status: RunStatus) {
    status == Queued || status == Running || status == RunningWorkflow || status == WaitingForClarification
  }

  predicate IsActive(state: DispatchState) { state != Terminal }

  predicate CanStart(producerKind: ProducerKind, status: RunStatus) {
    match producerKind
    case ThreadMessage => status == Queued
    case ClarificationResolution => status == WaitingForClarification
  }

  predicate HasIdentity(d: Dispatch, r: Request) {
    d.producerKind == r.producerKind && d.scopeRef == r.scopeRef && d.requestIdentity == r.requestIdentity
  }

  predicate HasActiveDispatch(dispatches: map<Id, Dispatch>, runId: Id) {
    exists id :: id in dispatches && dispatches[id].runId == runId && IsActive(dispatches[id].state)
  }

  // ---- Claim ----

  function FindMessage(messages: seq<Message>, id: Id): Option<Message> {
    if messages == [] then None
    else if messages[0].id == id then Some(messages[0])
    else FindMessage(messages[1..], id)
  }

  /** The dispatch already made for this producer, scope and identity. */
  function Replay(s: Store, d: Dispatch, r: Request): Result<Claimed, GatewayError> {
    if d.requestDigest != RequestDigest(r) || d.threadId != r.threadId
       || (r.producerKind == ClarificationResolution && d.runId != r.runId) then Err(DispatchConflict)
    else if d.threadId in s.threads && s.threads[d.threadId].ownerId != r.actorId then Err(ThreadOwnerMismatch)
    else
      var message := if d.threadId in s.threads then FindMessage(s.threads[d.threadId].messages, d.messageId) else None;
      if d.runId !in s.runs || message.None? then Err(DispatchInvariantFailed)
      else Ok(Claimed(message.value, s.runs[d.runId], d, true))
  }

  /** The run a new dispatch is for: the waiting run, or a queued one still to be stored. */
  function ClaimRun(s: Store, r: Request, freshRunId: Id, now: int): Result<Run, GatewayError> {
    if r.threadId !in s.threads then Err(ThreadNotFound)
    else if s.threads[r.threadId].ownerId != r.actorId then Err(ThreadOwnerMismatch)
    else if r.producerKind == ThreadMessage then Ok(Run(freshRunId, r.threadId, Queued, now, None))
    else if r.runId !in s.runs then Err(RunNotFound)
    else if s.runs[r.runId].threadId != r.threadId then Err(DispatchConflict)
    else if s.runs[r.runId].status != WaitingForClarification then Err(ClarificationSourceNotWaiting)
    else if HasActiveDispatch(s.dispatches, s.runs[r.runId].id) then Err(DispatchActiveConflict)
    else Ok(s.runs[r.runId])
  }

  function NewDispatch(r: Request, run: Run, ids: FreshIds): Dispatch {
    Dispatch(ids.dispatchId, r.producerKind, r.scopeRef, r.requestIdentity, RequestDigest(r), r.threadId, run.id,
             ids.messageId, Pending, None, 0, None, None, None, None)
  }

  function ClaimAudits(r: Request, run: Run, ids: FreshIds): seq<AuditEvent> {
    [MessageRecorded(r.actorId, r.threadId, run.id, ids.messageId, ids.dispatchId),
     if r.producerKind == ThreadMessage then RunQueued(r.actorId, r.threadId, run.id, ids.dispatchId)
     else RunDispatchQueued(r.actorId, r.threadId, run.id, ids.dispatchId)]
  }

  function AddDispatch(s: Store, r: Request, run: Run, ids: FreshIds, now: int): Store
    requires r.threadId in s.threads
  {
    var thread := s.threads[r.threadId];
    var message := Message(ids.messageId, r.text, now);
    Store(
      s.threads[r.threadId := thread.(messages := thread.messages + [message])],
      if r.producerKind == ThreadMessage then s.runs[run.id := run] else s.runs,
      s.dispatches[ids.dispatchId := NewDispatch(r, run, ids)],
      s.audits + ClaimAudits(r, run, ids))
  }

  ghost function Claim(s: Store, r: Request, ids: FreshIds, now: int): Outcome<Claimed> {
    if exists id :: id in s.dispatches && HasIdentity(s.dispatches[id], r) then
      var id :| id in s.dispatches && HasIdentity(s.dispatches[id], r);
      Outcome(s, Replay(s, s.dispatches[id], r))
    else
      var run := ClaimRun(s, r, ids.runId, now);
      if run.Err? then Outcome(s, Err(run.error))
      else
        Outcome(AddDispatch(s, r, run.value, ids, now),
                Ok(Claimed(Message(ids.messageId, r.text, now), run.value, NewDispatch(r, run.value, ids), false)))
  }

  // ---- Lease ----

  function Refused(d: Dispatch, reason: LeaseReason, run: Run): Lease {
    Lease(d.dispatchId, false, None, d.leaseEpoch, d.state, reason, run)
  }

  function LeasedTo(d: Dispatch, ownerId: Id, now: int, leaseMs: int): Dispatch {
    d.(state := Leased, ownerId := Some(ownerId), leaseEpoch := d.leaseEpoch + 1,
       leaseExpiresAt := Some(now + leaseMs), heartbeatAt := Some(now))
  }

  predicate LeaseIsActive(d: Dispatch, now: int) {
    d.state == Leased && d.leaseExpiresAt.Some? && d.leaseExpiresAt.value > now
  }

  function Acquire(s: Store, dispatchId: Id, runId: Id, ownerId: Id, now: int, leaseMs: int): Outcome<Lease> {
    if dispatchId !in s.dispatches then Outcome(s, Err(DispatchNotFound))
    else
      var d := s.dispatches[dispatchId];
      if d.runId != runId then Outcome(s, Err(DispatchConflict))
      else if runId !in s.runs then Outcome(s, Err(RunNotFound))
      else
        var run := s.runs[runId];
        if d.state == Terminal then Outcome(s, Ok(Refused(d, AlreadyTerminal, run)))
        else if d.state == Started then Outcome(s, Ok(Refused(d, AlreadyRunning, run)))
        else if !CanStart(d.producerKind, run.status) then Outcome(s, Ok(Refused(d, RunNotDispatchable, run)))
        else if LeaseIsActive(d, now) then Outcome(s, Ok(Refused(d, ActiveLease, run)))
        else
          var leased := LeasedTo(d, ownerId, now, leaseMs);
          Outcome(s.(dispatches := s.dispatches[dispatchId := leased]),
                  Ok(Lease(dispatchId, true, Some(ownerId), leased.leaseEpoch, Leased, Acquired, run)))
  }

  // ---- Owner-checked endings ----

  predicate Holds(d: Dispatch, h: Holder) {
    d.ownerId == Some(h.ownerId) && d.leaseEpoch == h.leaseEpoch
  }

  predicate IsWorking(d: Dispatch) { d.state == Leased || d.state == Started }

  /** A clarification that still waits for its answer keeps its run when its dispatch fails. */
  predicate KeepsWaiting(d: Dispatch, run: Run) {
    d.producerKind == ClarificationResolution && run.status == WaitingForClarification
  }

  function EndedFailed(d: Dispatch, reason: JsString): Dispatch {
    d.(state := Terminal, terminalStatus := Some(Failed), failureReason := Some(reason), leaseExpiresAt := None)
  }

  function EndedCompleted(d: Dispatch, status: RunStatus, now: int): Dispatch {
    d.(state := Terminal, terminalStatus := Some(status), leaseExpiresAt := None, heartbeatAt := Some(now))
  }

  function Fail(s: Store, h: Holder, reason: JsString): Outcome<Run> {
    if h.dispatchId !in s.dispatches then Outcome(s, Err(DispatchNotFound))
    else
      var d := s.dispatches[h.dispatchId];
      if d.runId != h.runId then Outcome(s, Err(DispatchConflict))
      else if h.runId !in s.runs then Outcome(s, Err(RunNotFound))
      else
        var run := s.runs[h.runId];
        if !IsWorking(d) || !Holds(d, h) || !IsUnsettled(run.status) then Outcome(s, Ok(run))
        else
          FailedBy(s, d, run, h, reason)
  }

  function FailedBy(s: Store, d: Dispatch, run: Run, h: Holder, reason: JsString): Outcome<Run> {
    var failed := if KeepsWaiting(d, run) then run else run.(status := Failed, failureReason := Some(reason));
    var changes := if KeepsWaiting(d, run) then [] else [RunStatusChanged(run.threadId, run.id, Failed)];
    Outcome(
      s.(runs := s.runs[h.runId := failed],
         dispatches := s.dispatches[h.dispatchId := EndedFailed(d, reason)],
         audits := s.audits
                   + (changes + [RunDispatchFailed(run.threadId, run.id, h.dispatchId, reason, h.leaseEpoch)])),
      Ok(failed))
  }

  predicate Releases(d: Dispatch, run: Run, h: Holder) {
    KeepsWaiting(d, run) && IsWorking(d) && Holds(d, h)
  }

  function Released(d: Dispatch): Dispatch {
    d.(state := Pending, ownerId := None, leaseExpiresAt := None, heartbeatAt := None, terminalStatus := None,
        failureReason := None)
  }

  function ObserveExit(s: Store, h: Holder, reason: JsString): Outcome<Run> {
    if h.dispatchId !in s.dispatches || h.runId !in s.runs || s.dispatches[h.dispatchId].runId != h.runId then
      Outcome(s, Err(DispatchNotFound))
    else
      var d, run := s.dispatches[h.dispatchId], s.runs[h.runId];
      if Releases(d, run, h) then ReleasedBy(s, d, run, h, reason)
      else Fail(s, h, reason)
  }

  function ReleasedBy(s: Store, d: Dispatch, run: Run, h: Holder, reason: JsString): Outcome<Run> {
    Outcome(
      s.(dispatches := s.dispatches[h.dispatchId := Released(d)],
         audits := s.audits + [RecoveryRequested(run.threadId, run.id, h.dispatchId, reason, h.leaseEpoch)]),
      Ok(run))
  }

  function Complete(s: Store, h: Holder, status: RunStatus, now: int): Outcome<Run> {
    if h.dispatchId !in s.dispatches then Outcome(s, Err(DispatchNotFound))
    else
      var d := s.dispatches[h.dispatchId];
      if d.runId != h.runId then Outcome(s, Err(DispatchConflict))
      else if h.runId !in s.runs then Outcome(s, Err(RunNotFound))
      else
        var run := s.runs[h.runId];
        if !Holds(d, h) || d.state == Terminal then Outcome(s, Ok(run))
        else if !IsWorking(d) then Outcome(s, Err(DispatchStateInvalid))
        else CompletedBy(s, d, run, h, status, now)
  }

  function CompletedBy(s: Store, d: Dispatch, run: Run, h: Holder, status: RunStatus, now: int): Outcome<Run> {
    var completed := if IsUnsettled(run.status) then run.(status := status) else run;
    Outcome(
      s.(runs := s.runs[h.runId := completed],
         dispatches := s.dispatches[h.dispatchId := EndedCompleted(d, completed.status, now)],
         audits := s.audits + [RunDispatchCompleted(completed.threadId, h.runId, h.dispatchId, completed.status,
             h.leaseEpoch)]),
      Ok(completed))
  }
}
