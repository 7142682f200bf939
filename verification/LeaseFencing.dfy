/** The history of leases: who was granted what, and why a superseded holder is powerless. */
module LeaseFencing {
  import opened Wrappers
  import opened CodePoints
  import opened DispatchInput
  import opened RunDispatch
  import opened DispatchInvariants
  import opened DispatchLaws
  import opened DispatchSystem

  /** How many leases on this dispatch have been granted. */
  function GrantsOf(grants: seq<Grant>, id: Id): nat {
    if grants == [] then 0
    else GrantsOf(grants[..|grants| - 1], id) + if grants[|grants| - 1].dispatchId == id then 1 else 0
  }

  ghost predicate Numbered(grants: seq<Grant>) {
    forall i | 0 <= i < |grants| :: grants[i].epoch == GrantsOf(grants[..i], grants[i].dispatchId) + 1
  }

  ghost predicate Dated(c: System) {
    forall g | g in c.grants :: g.dispatchId in c.store.dispatches && g.at <= c.now && g.at < g.expiresAt
  }

  ghost predicate Counted(c: System) {
    forall id | id in c.store.dispatches :: c.store.dispatches[id].leaseEpoch == GrantsOf(c.grants, id)
  }

  /** The lease recorded in a dispatch that is worked on is the last one granted, and it has not been handed back. */
  ghost predicate HeldByLastGrant(c: System, id: Id)
    requires id in c.store.dispatches
  {
    var d := c.store.dispatches[id];
    && (IsWorking(d) ==>
          && (id, d.leaseEpoch) !in c.released
          && exists g :: g in c.grants && g.dispatchId == id && g.epoch == d.leaseEpoch
                         && d.ownerId == Some(g.ownerId) && d.leaseExpiresAt == Some(g.expiresAt))
    && (d.state == Pending && d.leaseEpoch > 0 ==> (id, d.leaseEpoch) in c.released)
  }

  ghost predicate ReleasedWereGranted(c: System) {
    forall p | p in c.released :: p.0 in c.store.dispatches && p.1 <= c.store.dispatches[p.0].leaseEpoch
  }

  /** When a lease is granted, every earlier one on the dispatch has expired or been handed back. */
  ghost predicate Succession(c: System) {
    forall i, j | 0 <= i < j < |c.grants| && c.grants[i].dispatchId == c.grants[j].dispatchId ::
      (c.grants[i].dispatchId, c.grants[i].epoch) in c.released || c.grants[i].expiresAt <= c.grants[j].at
  }

  ghost predicate Fenced(c: System) {
    && Inv(c.store) && Numbered(c.grants) && Dated(c) && Counted(c)
    && (forall id | id in c.store.dispatches :: HeldByLastGrant(c, id))
    && ReleasedWereGranted(c) && Succession(c)
  }

  // ---- Epochs ----

  lemma GrantsOfSnoc(grants: seq<Grant>, g: Grant, id: Id)
    ensures GrantsOf(grants + [g], id) == GrantsOf(grants, id) + if g.dispatchId == id then 1 else 0
  {
    assert (grants + [g])[..|grants|] == grants;
  }

  lemma {:induction false} GrantsOfMonotone(grants: seq<Grant>, i: nat, j: nat, id: Id)
    requires i <= j <= |grants|
    ensures GrantsOf(grants[..i], id) <= GrantsOf(grants[..j], id)
    decreases j
  {
    if i < j {
      assert grants[..j][..j - 1] == grants[..j - 1];
      GrantsOfMonotone(grants, i, j - 1, id);
    }
  }

  /** Later leases on a dispatch have larger epochs, so an epoch has one owner. */
  lemma EpochsAscend(grants: seq<Grant>, i: nat, j: nat)
    requires Numbered(grants) && i < j < |grants| && grants[i].dispatchId == grants[j].dispatchId
    ensures grants[i].epoch < grants[j].epoch
  {
    var id := grants[i].dispatchId;
    assert grants[..i + 1] == grants[..i] + [grants[i]];
    GrantsOfSnoc(grants[..i], grants[i], id);
    GrantsOfMonotone(grants, i + 1, j, id);
  }

  lemma EpochWithinCount(grants: seq<Grant>, i: nat)
    requires Numbered(grants) && i < |grants|
    ensures 1 <= grants[i].epoch <= GrantsOf(grants, grants[i].dispatchId)
  {
    var id := grants[i].dispatchId;
    assert grants[..i + 1] == grants[..i] + [grants[i]];
    GrantsOfSnoc(grants[..i], grants[i], id);
    GrantsOfMonotone(grants, i + 1, |grants|, id);
    assert grants[..|grants|] == grants;
  }

  lemma {:induction false} NoGrants(grants: seq<Grant>, id: Id)
    requires forall g | g in grants :: g.dispatchId != id
    ensures GrantsOf(grants, id) == 0
  {
    if grants != [] {
      NoGrants(grants[..|grants| - 1], id);
      assert grants[|grants| - 1] in grants;
    }
  }

  lemma {:induction false} LastGrantOf(grants: seq<Grant>, id: Id) returns (k: nat)
    requires Numbered(grants) && GrantsOf(grants, id) > 0
    ensures k < |grants| && grants[k].dispatchId == id && grants[k].epoch == GrantsOf(grants, id)
  {
    var n := |grants| - 1;
    if grants[n].dispatchId == id {
      k := n;
    } else {
      assert Numbered(grants[..n]) by {
        forall i | 0 <= i < n
          ensures grants[..n][i].epoch == GrantsOf(grants[..n][..i], grants[..n][i].dispatchId) + 1
        {
          assert grants[..n][..i] == grants[..i];
        }
      }
      k := LastGrantOf(grants[..n], id);
    }
  }

  // ---- Steps that grant and release nothing ----

  ghost predicate QuietFor(s: Store, t: Store, id: Id)
    requires id in t.dispatches
  {
    if id in s.dispatches then
      var d, e := s.dispatches[id], t.dispatches[id];
      && e.leaseEpoch == d.leaseEpoch
      && (IsWorking(e) ==> IsWorking(d) && e.ownerId == d.ownerId && e.leaseExpiresAt == d.leaseExpiresAt)
      && (e.state == Pending ==> d.state == Pending)
    else t.dispatches[id].state == Pending && t.dispatches[id].leaseEpoch == 0
  }

  ghost predicate Quiet(c: System, e: System) {
    && e.grants == c.grants && e.released == c.released && c.now <= e.now
    && (forall id | id in c.store.dispatches :: id in e.store.dispatches)
    && (forall id | id in e.store.dispatches :: QuietFor(c.store, e.store, id))
  }

  lemma QuietKeepsFenced(c: System, e: System)
    requires Fenced(c) && Quiet(c, e) && Inv(e.store)
    ensures Fenced(e)
  {
    hide Inv;
    forall id | id in e.store.dispatches
      ensures HeldByLastGrant(e, id) && e.store.dispatches[id].leaseEpoch == GrantsOf(e.grants, id)
    {
      assert QuietFor(c.store, e.store, id);
      if id in c.store.dispatches {
        assert HeldByLastGrant(c, id);
      } else {
        NoGrants(c.grants, id);
      }
    }
  }

  lemma QuietTouch(c: System, t: Store, id: Id)
    requires t == c.store || (Touches(c.store, t, id) && QuietFor(c.store, t, id))
    ensures Quiet(c, c.(store := t))
  {
    forall k | k in t.dispatches ensures QuietFor(c.store, t, k) {
    }
  }

  lemma ClaimIsQuiet(c: System, r: Request, ids: FreshIds)
    requires Unused(c.store, ids)
    ensures Quiet(c, c.(store := Claim(c.store, r, ids, c.now).store))
  {
    hide Unused, Replay, ClaimRun;
    assert ids.dispatchId !in c.store.dispatches by { NotInUse(c.store, ids); }
  }

  lemma FailIsQuiet(s: Store, h: Holder, reason: JsString)
    requires h.dispatchId in s.dispatches
    ensures h.dispatchId in Fail(s, h, reason).store.dispatches && QuietFor(s, Fail(s, h, reason).store, h.dispatchId)
  {
  }

  lemma CompleteIsQuiet(s: Store, h: Holder, status: RunStatus, now: int)
    requires h.dispatchId in s.dispatches
    ensures h.dispatchId in Complete(s, h, status, now).store.dispatches
    ensures QuietFor(s, Complete(s, h, status, now).store, h.dispatchId)
  {
  }

  // ---- Granting ----

  lemma GrantSucceeds(c: System, id: Id, g: Grant, i: nat)
    requires Fenced(c) && id in c.store.dispatches && g.dispatchId == id && g.at == c.now
    requires !IsWorking(c.store.dispatches[id])
             || (c.store.dispatches[id].state == Leased && !LeaseIsActive(c.store.dispatches[id], c.now))
    requires c.store.dispatches[id].state != Terminal
    requires i < |c.grants| && c.grants[i].dispatchId == id
    ensures (id, c.grants[i].epoch) in c.released || c.grants[i].expiresAt <= g.at
  {
    hide Inv;
    var d := c.store.dispatches[id];
    assert HeldByLastGrant(c, id);
    EpochWithinCount(c.grants, i);
    var k := LastGrantOf(c.grants, id);
    if i < k {
      assert (id, c.grants[i].epoch) in c.released || c.grants[i].expiresAt <= c.grants[k].at;
      assert c.grants[k] in c.grants;
    } else {
      if k < i { EpochsAscend(c.grants, k, i); }
      assert i == k;
      if IsWorking(d) {
        var held :| held in c.grants && held.dispatchId == id && held.epoch == d.leaseEpoch
                    && d.ownerId == Some(held.ownerId) && d.leaseExpiresAt == Some(held.expiresAt);
        var n :| 0 <= n < |c.grants| && c.grants[n] == held;
        SameEpochSameGrant(c.grants, n, k);
      }
    }
  }

  lemma SameEpochSameGrant(grants: seq<Grant>, i: nat, j: nat)
    requires Numbered(grants) && i < |grants| && j < |grants|
    requires grants[i].dispatchId == grants[j].dispatchId && grants[i].epoch == grants[j].epoch
    ensures i == j
  {
    if i < j { EpochsAscend(grants, i, j); } else if j < i { EpochsAscend(grants, j, i); }
  }

  ghost predicate Granting(c: System, e: System, g: Grant) {
    var id := g.dispatchId;
    && id in c.store.dispatches
    && (c.store.dispatches[id].state == Pending
        || (c.store.dispatches[id].state == Leased && !LeaseIsActive(c.store.dispatches[id], c.now)))
    && g.epoch == c.store.dispatches[id].leaseEpoch + 1 && g.at == c.now < g.expiresAt
    && e.now == c.now && e.grants == c.grants + [g] && e.released == c.released
    && id in e.store.dispatches && e.store.dispatches == c.store.dispatches[id := e.store.dispatches[id]]
    && e.store.dispatches[id].state == Leased && e.store.dispatches[id].leaseEpoch == g.epoch
    && e.store.dispatches[id].ownerId == Some(g.ownerId) && e.store.dispatches[id].leaseExpiresAt == Some(g.expiresAt)
  }

  lemma GrantKeepsNumbers(c: System, e: System, g: Grant)
    requires Fenced(c) && Granting(c, e, g)
    ensures Numbered(e.grants) && Counted(e)
  {
    hide Inv, HeldByLastGrant, Succession;
    forall i | 0 <= i < |e.grants| ensures e.grants[i].epoch == GrantsOf(e.grants[..i], e.grants[i].dispatchId) + 1 {
      if i < |c.grants| {
        assert e.grants[..i] == c.grants[..i];
      } else {
        assert e.grants[..i] == c.grants;
      }
    }
    forall id | id in e.store.dispatches ensures e.store.dispatches[id].leaseEpoch == GrantsOf(e.grants, id) {
      GrantsOfSnoc(c.grants, g, id);
    }
  }

  lemma GrantKeepsSuccession(c: System, e: System, g: Grant)
    requires Fenced(c) && Granting(c, e, g)
    ensures Succession(e)
  {
    hide Inv, HeldByLastGrant, Numbered, Counted, Dated;
    forall i, j | 0 <= i < j < |e.grants| && e.grants[i].dispatchId == e.grants[j].dispatchId
      ensures (e.grants[i].dispatchId, e.grants[i].epoch) in e.released || e.grants[i].expiresAt <= e.grants[j].at
    {
      assert e.grants[i] == c.grants[i];
      if j < |c.grants| {
        assert e.grants[j] == c.grants[j];
      } else {
        GrantSucceeds(c, g.dispatchId, g, i);
      }
    }
  }

  lemma GrantKeepsHolders(c: System, e: System, g: Grant, id: Id)
    requires Fenced(c) && Granting(c, e, g) && id in e.store.dispatches
    ensures HeldByLastGrant(e, id)
  {
    hide Inv, Numbered, Counted, Succession, Dated;
    assert g in e.grants;
    if id == g.dispatchId {
      assert (id, g.epoch) !in c.released;
    } else {
      assert HeldByLastGrant(c, id);
    }
  }

  lemma GrantKeepsFenced(c: System, e: System, g: Grant)
    requires Fenced(c) && Granting(c, e, g) && Inv(e.store)
    ensures Fenced(e)
  {
    hide *;
    GrantKeepsNumbers(c, e, g);
    GrantKeepsSuccession(c, e, g);
    GrantKeepsDates(c, e, g);
    forall id | id in e.store.dispatches ensures HeldByLastGrant(e, id) { GrantKeepsHolders(c, e, g, id); }
    FencedFromParts(e);
  }

  lemma GrantKeepsDates(c: System, e: System, g: Grant)
    requires Fenced(c) && Granting(c, e, g)
    ensures Dated(e) && ReleasedWereGranted(e)
  {
    hide Inv, HeldByLastGrant, Numbered, Counted, Succession;
  }

  // ---- Handing back ----

  ghost predicate HandingBack(c: System, e: System, id: Id) {
    && id in c.store.dispatches && IsWorking(c.store.dispatches[id])
    && e.now == c.now && e.grants == c.grants && e.released == c.released + {(id, c.store.dispatches[id].leaseEpoch)}
    && id in e.store.dispatches && e.store.dispatches == c.store.dispatches[id := e.store.dispatches[id]]
    && e.store.dispatches[id].state == Pending && e.store.dispatches[id].leaseEpoch == c.store.dispatches[id].leaseEpoch
  }

  lemma HandingBackKeepsHolders(c: System, e: System, id: Id, k: Id)
    requires Fenced(c) && HandingBack(c, e, id) && k in e.store.dispatches
    ensures HeldByLastGrant(e, k)
  {
    hide Inv, Numbered, Counted, Succession, Dated, ReleasedWereGranted;
    assert HeldByLastGrant(c, k);
  }

  lemma HandingBackKeepsHistory(c: System, e: System, id: Id)
    requires Fenced(c) && HandingBack(c, e, id)
    ensures Numbered(e.grants) && Dated(e) && Counted(e) && ReleasedWereGranted(e) && Succession(e)
  {
    hide Inv, HeldByLastGrant, Numbered;
  }

  lemma HandingBackKeepsFenced(c: System, e: System, id: Id)
    requires Fenced(c) && HandingBack(c, e, id) && Inv(e.store)
    ensures Fenced(e)
  {
    HandingBackKeepsHistory(c, e, id);
    hide *;
    HandingBackKeepsHoldersAll(c, e, id);
    FencedFromParts(e);
  }

  lemma HandingBackKeepsHoldersAll(c: System, e: System, id: Id)
    requires Fenced(c) && HandingBack(c, e, id)
    ensures forall k | k in e.store.dispatches :: HeldByLastGrant(e, k)
  {
    forall k | k in e.store.dispatches ensures HeldByLastGrant(e, k) {
      hide *;
      HandingBackKeepsHolders(c, e, id, k);
    }
  }

  lemma FencedFromParts(e: System)
    requires Inv(e.store) && Numbered(e.grants) && Dated(e) && Counted(e) && ReleasedWereGranted(e) && Succession(e)
    requires forall k | k in e.store.dispatches :: HeldByLastGrant(e, k)
    ensures Fenced(e)
  {
  }

  // ---- Every step, every run ----

  lemma AcquireGrants(c: System, dispatchId: Id, runId: Id, ownerId: Id, leaseMs: int)
    requires leaseMs > 0
    ensures var e := After(c, Acquires(dispatchId, runId, ownerId, leaseMs));
      || e == c
      || (dispatchId in c.store.dispatches
          && Granting(c, e,
              Grant(dispatchId, c.store.dispatches[dispatchId].leaseEpoch + 1, ownerId, c.now, c.now + leaseMs)))
  {
  }

  lemma AcquireKeepsFenced(c: System, dispatchId: Id, runId: Id, ownerId: Id, leaseMs: int)
    requires Fenced(c) && leaseMs > 0
    requires Inv(After(c, Acquires(dispatchId, runId, ownerId, leaseMs)).store)
    ensures Fenced(After(c, Acquires(dispatchId, runId, ownerId, leaseMs)))
  {
    hide Inv, Fenced, Granting, After;
    var e := After(c, Acquires(dispatchId, runId, ownerId, leaseMs));
    AcquireGrants(c, dispatchId, runId, ownerId, leaseMs);
    if e != c {
      GrantKeepsFenced(c, e,
          Grant(dispatchId, c.store.dispatches[dispatchId].leaseEpoch + 1, ownerId, c.now, c.now + leaseMs));
    }
  }

  lemma ExitHandsBack(c: System, h: Holder, reason: JsString)
    requires ReleasesNow(c.store, h)
    ensures HandingBack(c, After(c, Exits(h, reason)), h.dispatchId)
  {
  }

  lemma ExitWithoutRelease(s: Store, h: Holder, reason: JsString)
    requires !ReleasesNow(s, h)
    ensures ObserveExit(s, h, reason).store == s || ObserveExit(s, h, reason).store == Fail(s, h, reason).store
  {
  }

  lemma ExitKeepsFenced(c: System, h: Holder, reason: JsString)
    requires Fenced(c) && Inv(After(c, Exits(h, reason)).store)
    ensures Fenced(After(c, Exits(h, reason)))
  {
    hide Inv, HeldByLastGrant, Succession, Dated, Counted, Numbered, ReleasedWereGranted, ReleasesNow;
    var e := After(c, Exits(h, reason));
    if ReleasesNow(c.store, h) {
      ExitHandsBack(c, h, reason);
      HandingBackKeepsFenced(c, e, h.dispatchId);
    } else {
      hide ObserveExit;
      ExitWithoutRelease(c.store, h, reason);
      FailStepIsQuiet(c, h, reason);
      QuietReflexive(c);
      hide Fail;
      QuietKeepsFenced(c, e);
    }
  }

  lemma QuietReflexive(c: System)
    ensures Quiet(c, c)
  {
  }

  lemma FailStepIsQuiet(c: System, h: Holder, reason: JsString)
    requires Inv(c.store)
    ensures Quiet(c, c.(store := Fail(c.store, h, reason).store))
  {
    FailTouches(c.store, h, reason);
    if h.dispatchId in c.store.dispatches { FailIsQuiet(c.store, h, reason); }
    hide Inv, Fail, Touches, QuietFor;
    QuietTouch(c, Fail(c.store, h, reason).store, h.dispatchId);
  }

  lemma CompleteStepIsQuiet(c: System, h: Holder, status: RunStatus)
    requires Inv(c.store)
    ensures Quiet(c, c.(store := Complete(c.store, h, status, c.now).store))
  {
    CompleteTouches(c.store, h, status, c.now);
    if h.dispatchId in c.store.dispatches { CompleteIsQuiet(c.store, h, status, c.now); }
    hide Inv, Complete, Touches, QuietFor;
    QuietTouch(c, Complete(c.store, h, status, c.now).store, h.dispatchId);
  }

  lemma StartStepIsQuiet(c: System, id: Id)
    requires Inv(c.store) && Enabled(c, WorkerStarts(id))
    ensures Quiet(c, After(c, WorkerStarts(id)))
  {
    StartTouches(c, id);
    hide Inv, Touches;
    QuietTouch(c, After(c, WorkerStarts(id)).store, id);
  }

  lemma EnvironmentIsQuiet(c: System, step: Step)
    requires Enabled(c, step) && IsEnvironment(step)
    ensures Quiet(c, After(c, step))
  {
  }

  lemma StepIsQuiet(c: System, step: Step)
    requires Inv(c.store) && Enabled(c, step) && !step.Acquires? && !step.Exits?
    ensures Quiet(c, After(c, step))
  {
    hide Inv, Quiet, Claim, Fail, Complete, Unused;
    match step
    case Claims(r, ids) => ClaimIsQuiet(c, r, ids);
    case Fails(h, reason) => FailStepIsQuiet(c, h, reason);
    case Completes(h, status) => CompleteStepIsQuiet(c, h, status);
    case WorkerStarts(id) => StartStepIsQuiet(c, id);
    case _ => EnvironmentIsQuiet(c, step);
  }

  lemma StepKeepsFenced(c: System, step: Step)
    requires Fenced(c) && Enabled(c, step)
    ensures Fenced(After(c, step))
  {
    StepEvolves(c, step);
    hide HeldByLastGrant, Succession, Dated, Counted, Numbered, ReleasedWereGranted, Inv, Evolves, After, Quiet,
         Enabled;
    match step
    case Acquires(dispatchId, runId, ownerId, leaseMs) =>
      LeaseMsPositive(c, step);
      AcquireKeepsFenced(c, dispatchId, runId, ownerId, leaseMs);
    case Exits(h, reason) => ExitKeepsFenced(c, h, reason);
    case _ =>
      StepIsQuiet(c, step);
      QuietKeepsFenced(c, After(c, step));
  }

  lemma LeaseMsPositive(c: System, step: Step)
    requires Enabled(c, step) && step.Acquires?
    ensures step.leaseMs > 0
  {
  }

  const Start := System(EmptyStore, 0, [], {})

  lemma StartIsFenced()
    ensures Fenced(Start)
  {
    EmptyStoreIsSound();
  }

  /** Over every interleaving of gateway, worker, clock and conversation the store is sound and
    * the lease history is fenced. */
  lemma {:induction false} EveryRunIsFenced(c: System, steps: seq<Step>)
    requires Fenced(c) && Legal(c, steps)
    ensures Fenced(Perform(c, steps))
    decreases |steps|
  {
    if steps != [] {
      StepKeepsFenced(c, steps[0]);
      EveryRunIsFenced(After(c, steps[0]), steps[1..]);
    }
  }

  // ---- What fencing gives ----

  /** A lease is live until it expires or its holder hands it back. */
  ghost predicate Live(c: System, i: nat)
    requires i < |c.grants|
  {
    c.now < c.grants[i].expiresAt && (c.grants[i].dispatchId, c.grants[i].epoch) !in c.released
  }

  /** No dispatch ever has two live leases, and no epoch of a dispatch has two owners. */
  lemma OneLiveLease(steps: seq<Step>, i: nat, j: nat)
    requires Legal(Start, steps)
    requires var c := Perform(Start, steps);
      i < |c.grants| && j < |c.grants| && c.grants[i].dispatchId == c.grants[j].dispatchId
    ensures var c := Perform(Start, steps);
      && (Live(c, i) && Live(c, j) ==> i == j)
      && (c.grants[i].epoch == c.grants[j].epoch ==> i == j)
  {
    StartIsFenced();
    EveryRunIsFenced(Start, steps);
    LiveLeaseIsLast(Perform(Start, steps), i, j);
    LiveLeaseIsLast(Perform(Start, steps), j, i);
  }

  lemma LiveLeaseIsLast(c: System, i: nat, j: nat)
    requires Fenced(c) && i < |c.grants| && j < |c.grants| && c.grants[i].dispatchId == c.grants[j].dispatchId
    ensures i < j ==> !Live(c, i) && c.grants[i].epoch < c.grants[j].epoch
  {
    hide Inv, HeldByLastGrant;
    if i < j {
      EpochsAscend(c.grants, i, j);
      assert c.grants[j] in c.grants;
    }
  }

  /** The epoch of a dispatch is the number of leases granted on it, in every reachable state. */
  lemma EpochCountsGrants(steps: seq<Step>, id: Id)
    requires Legal(Start, steps) && id in Perform(Start, steps).store.dispatches
    ensures Perform(Start, steps).store.dispatches[id].leaseEpoch == GrantsOf(Perform(Start, steps).grants, id)
  {
    StartIsFenced();
    EveryRunIsFenced(Start, steps);
  }

  /** Once another lease has been granted on its dispatch, or it has been handed back, a lease gives
    * its owner no power: failing, reporting an exit and completing change no run, no dispatch, no
    * thread and no event. */
  lemma SupersededOwnerIsPowerless(steps: seq<Step>, i: nat, h: Holder, reason: JsString, status: RunStatus)
    requires Legal(Start, steps) && i < |Perform(Start, steps).grants|
    requires var c := Perform(Start, steps); var g := c.grants[i];
      && h.dispatchId == g.dispatchId && h.ownerId == g.ownerId && h.leaseEpoch == g.epoch
      && ((g.dispatchId, g.epoch) in c.released
          || exists j :: i < j < |c.grants| && c.grants[j].dispatchId == g.dispatchId)
    ensures var c := Perform(Start, steps);
      && Fail(c.store, h, reason).store == c.store
      && ObserveExit(c.store, h, reason).store == c.store
      && Complete(c.store, h, status, c.now).store == c.store
  {
    StartIsFenced();
    EveryRunIsFenced(Start, steps);
    var c := Perform(Start, steps);
    SupersededDoesNotHold(c, i, h);
    NotTheHolder(c.store, h, reason, status, c.now);
  }

  lemma SupersededDoesNotHold(c: System, i: nat, h: Holder)
    requires Fenced(c) && i < |c.grants|
    requires h.dispatchId == c.grants[i].dispatchId && h.leaseEpoch == c.grants[i].epoch
    requires (c.grants[i].dispatchId, c.grants[i].epoch) in c.released
          || exists j :: i < j < |c.grants| && c.grants[j].dispatchId == c.grants[i].dispatchId
    ensures h.dispatchId in c.store.dispatches
    ensures !(IsWorking(c.store.dispatches[h.dispatchId]) && Holds(c.store.dispatches[h.dispatchId], h))
  {
    hide Inv;
    assert c.grants[i] in c.grants;
    assert HeldByLastGrant(c, h.dispatchId);
    if exists j :: i < j < |c.grants| && c.grants[j].dispatchId == c.grants[i].dispatchId {
      var j :| i < j < |c.grants| && c.grants[j].dispatchId == c.grants[i].dispatchId;
      EpochsAscend(c.grants, i, j);
      EpochWithinCount(c.grants, j);
    }
  }

  /** A lease is only ever handed back by the owner it was granted to. */
  lemma OnlyTheGranteeHandsBack(c: System, h: Holder)
    requires Fenced(c) && ReleasesNow(c.store, h)
    ensures exists g ::
              g in c.grants && g.dispatchId == h.dispatchId && g.epoch == h.leaseEpoch && g.ownerId == h.ownerId
  {
    assert HeldByLastGrant(c, h.dispatchId);
  }
}
