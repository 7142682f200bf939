/** What the budget of customer event streams keeps through every sequence of acquisitions and releases. */
module BudgetLedger {
  import opened Wrappers
  import opened Totals
  import opened References
  import opened CanonicalJson

  datatype BudgetError = ConfigurationInvalid | CapacityExceeded

  /** An environment variable: absent, not a row of digits, or a number. */
  datatype Setting = Unset | Malformed | Digits(value: nat)

  function BoundedInteger(setting: Setting, fallback: nat, minimum: nat, maximum: nat): (r: Result<nat, BudgetError>)
    requires minimum <= fallback <= maximum
    ensures r.Ok? ==> minimum <= r.value <= maximum
    ensures r.Err? ==> r.error == ConfigurationInvalid
  {
    match setting
    case Unset => Ok(fallback)
    case Malformed => Err(ConfigurationInvalid)
    case Digits(value) =>
      if value > MAX_SAFE_INTEGER || value < minimum || value > maximum then Err(ConfigurationInvalid)
      else Ok(value)
  }

  datatype Settings = Settings(maxConnections: Setting, maxConnectionsPerActor: Setting, connectionTtlMs: Setting)

  function GlobalLimit(s: Settings): Result<nat, BudgetError> { BoundedInteger(s.maxConnections, 128, 1, 4096) }
  function ActorLimit(s: Settings): Result<nat, BudgetError> { BoundedInteger(s.maxConnectionsPerActor, 4, 1, 32) }
  function Ttl(s: Settings): Result<nat, BudgetError> { BoundedInteger(s.connectionTtlMs, 300000, 10000, 1800000) }

  /** A lease that was handed out. */
  datatype LeaseRecord = LeaseRecord(actorId: string, released: bool)

  /** The two counters, and the leases in the order in which they were handed out. */
  datatype Ledger = Ledger(total: int, byActor: map<string, int>, leases: seq<LeaseRecord>)

  const EmptyLedger: Ledger := Ledger(0, map[], [])

  function Count(l: Ledger, actorId: string): int { if actorId in l.byActor then l.byActor[actorId] else 0 }

  /** Both limits are set properly and leave room. */
  predicate HasRoom(l: Ledger, actorId: string, s: Settings) {
    && GlobalLimit(s).Ok? && ActorLimit(s).Ok?
    && l.total < GlobalLimit(s).value && Count(l, actorId) < ActorLimit(s).value
  }

  /** `Releases(k)` calls the release of the lease handed out as number `k`. */
  datatype Operation = Acquires(actorId: string, settings: Settings) | Releases(lease: nat)

  /** A slot is taken before the lifetime is read: when that setting is invalid, no lease is handed out
    * and the slot stays taken. */
  function AcquireSlot(l: Ledger, actorId: string, s: Settings): Ledger {
    if !HasRoom(l, actorId, s) then l
    else
      Ledger(l.total + 1, l.byActor[actorId := Count(l, actorId) + 1],
             if Ttl(s).Ok? then l.leases + [LeaseRecord(actorId, false)] else l.leases)
  }

  function NotBelowZero(n: int): int { if n > 0 then n else 0 }

  function ReleaseSlot(l: Ledger, k: nat): Ledger {
    if k >= |l.leases| || l.leases[k].released then l
    else
      var actorId := l.leases[k].actorId;
      var next := NotBelowZero((if actorId in l.byActor then l.byActor[actorId] else 1) - 1);
      Ledger(NotBelowZero(l.total - 1), if next == 0 then l.byActor - {actorId} else l.byActor[actorId := next],
             l.leases[k := LeaseRecord(actorId, true)])
  }

  function After(l: Ledger, op: Operation): Ledger {
    match op
    case Acquires(actorId, s) => AcquireSlot(l, actorId, s)
    case Releases(k) => ReleaseSlot(l, k)
  }

  /** The ledger after a sequence of operations from the empty one. */
  function Perform(ops: seq<Operation>): Ledger {
    if ops == [] then EmptyLedger else After(Perform(ops[..|ops| - 1]), ops[|ops| - 1])
  }

  lemma PerformSnoc(ops: seq<Operation>, op: Operation)
    ensures Perform(ops + [op]) == After(Perform(ops), op)
  {
    assert (ops + [op])[..|ops|] == ops;
  }

  lemma AcquireUnfold(l: Ledger, actorId: string, s: Settings)
    ensures !HasRoom(l, actorId, s) ==> After(l, Acquires(actorId, s)) == l
    ensures HasRoom(l, actorId, s) ==>
              After(l, Acquires(actorId, s))
              == Ledger(l.total + 1, l.byActor[actorId := Count(l, actorId) + 1],
                        if Ttl(s).Ok? then l.leases + [LeaseRecord(actorId, false)] else l.leases)
  {
    hide BoundedInteger;
  }

  lemma ReleaseUnfold(l: Ledger, k: nat)
    requires k < |l.leases|
    ensures l.leases[k].released ==> After(l, Releases(k)) == l
    ensures !l.leases[k].released ==> After(l, Releases(k)) == ReleaseSlot(l, k)
  {
    hide NotBelowZero;
  }

  // ---- What the counters count ----

  /** The leases that are out: handed out and not given back. */
  function Out(leases: seq<LeaseRecord>): nat {
    if leases == [] then 0
    else Out(leases[..|leases| - 1]) + if leases[|leases| - 1].released then 0 else 1
  }

  predicate IsOutOf(r: LeaseRecord, actorId: string) { r.actorId == actorId && !r.released }

  function OutOf(leases: seq<LeaseRecord>, actorId: string): nat {
    if leases == [] then 0
    else OutOf(leases[..|leases| - 1], actorId) + if IsOutOf(leases[|leases| - 1], actorId) then 1 else 0
  }

  /** An acquisition that finds room while the lifetime setting is invalid. */
  predicate LosesSlot(l: Ledger, op: Operation) {
    op.Acquires? && HasRoom(l, op.actorId, op.settings) && Ttl(op.settings).Err?
  }

  function Lost(ops: seq<Operation>): nat {
    if ops == [] then 0
    else
      var front, op := ops[..|ops| - 1], ops[|ops| - 1];
      Lost(front) + if LosesSlot(Perform(front), op) then 1 else 0
  }

  function LostOf(ops: seq<Operation>, actorId: string): nat {
    if ops == [] then 0
    else
      var front, op := ops[..|ops| - 1], ops[|ops| - 1];
      LostOf(front, actorId) + if LosesSlot(Perform(front), op) && op.actorId == actorId then 1 else 0
  }

  /** The counters count the leases that are out and the slots that were lost. */
  ghost predicate Accounts(l: Ledger, lost: nat, lostOf: string -> nat) {
    && l.total == Out(l.leases) + lost
    && (forall a :: Count(l, a) == OutOf(l.leases, a) + lostOf(a))
    && (forall a | a in l.byActor :: l.byActor[a] > 0)
  }

  lemma OutSnoc(leases: seq<LeaseRecord>, r: LeaseRecord, actorId: string)
    ensures Out(leases + [r]) == Out(leases) + if r.released then 0 else 1
    ensures OutOf(leases + [r], actorId) == OutOf(leases, actorId) + if IsOutOf(r, actorId) then 1 else 0
  {
    assert (leases + [r])[..|leases|] == leases;
  }

  lemma {:induction false} OutReleased(leases: seq<LeaseRecord>, k: nat, actorId: string)
    requires k < |leases| && !leases[k].released
    ensures var after := leases[k := LeaseRecord(leases[k].actorId, true)];
      && Out(after) == Out(leases) - 1
      && OutOf(after, actorId) == OutOf(leases, actorId) - if leases[k].actorId == actorId then 1 else 0
  {
    var n := |leases| - 1;
    var gone := LeaseRecord(leases[k].actorId, true);
    if k < n {
      OutReleased(leases[..n], k, actorId);
      assert leases[k := gone][..n] == leases[..n][k := gone];
    } else {
      assert leases[k := gone][..n] == leases[..n];
    }
  }

  lemma {:induction false} OutOfOne(leases: seq<LeaseRecord>, k: nat)
    requires k < |leases| && !leases[k].released
    ensures Out(leases) >= 1 && OutOf(leases, leases[k].actorId) >= 1
  {
    OutReleased(leases, k, leases[k].actorId);
  }

  /** A release of a lease that is out lowers both counters by one, and neither clamp changes a value. */
  lemma ReleaseTakesOne(l: Ledger, k: nat, lost: nat, lostOf: string -> nat)
    requires Accounts(l, lost, lostOf) && k < |l.leases| && !l.leases[k].released
    ensures var actorId, after := l.leases[k].actorId, After(l, Releases(k));
      && actorId in l.byActor && after.total == l.total - 1 >= 0
      && forall a :: Count(after, a) == Count(l, a) - if a == actorId then 1 else 0
  {
    OutOfOne(l.leases, k);
    var actorId := l.leases[k].actorId;
    assert Count(l, actorId) == OutOf(l.leases, actorId) + lostOf(actorId);
  }

  lemma ReleaseKeepsAccounts(l: Ledger, k: nat, lost: nat, lostOf: string -> nat)
    requires Accounts(l, lost, lostOf)
    ensures Accounts(After(l, Releases(k)), lost, lostOf)
  {
    if k < |l.leases| && !l.leases[k].released {
      ReleaseTakesOne(l, k, lost, lostOf);
      var after := After(l, Releases(k));
      forall a ensures Count(after, a) == OutOf(after.leases, a) + lostOf(a) {
        OutReleased(l.leases, k, a);
        assert Count(l, a) == OutOf(l.leases, a) + lostOf(a);
      }
      OutReleased(l.leases, k, l.leases[k].actorId);
      hide Out, OutOf, Count;
      assert forall a | a in after.byActor :: a in l.byActor || a == l.leases[k].actorId;
    }
  }

  lemma AcquireKeepsAccounts(l: Ledger, op: Operation, lost: nat, lostOf: string -> nat, lost': nat,
                             lostOf': string -> nat)
    requires Accounts(l, lost, lostOf) && op.Acquires?
    requires lost' == lost + if LosesSlot(l, op) then 1 else 0
    requires forall a :: lostOf'(a) == lostOf(a) + if LosesSlot(l, op) && op.actorId == a then 1 else 0
    ensures Accounts(After(l, op), lost', lostOf')
  {
    hide BoundedInteger, Out, OutOf;
    var after := After(l, op);
    var granted := LeaseRecord(op.actorId, false);
    forall a ensures Count(after, a) == OutOf(after.leases, a) + lostOf'(a) {
      OutSnoc(l.leases, granted, a);
      assert Count(l, a) == OutOf(l.leases, a) + lostOf(a);
    }
    OutSnoc(l.leases, granted, op.actorId);
  }

  function LostPerActor(ops: seq<Operation>): string -> nat { a => LostOf(ops, a) }

  /** Over every sequence of operations the counters count the leases that are out and the slots lost. */
  lemma {:induction false} EveryRunAccounts(ops: seq<Operation>)
    ensures Accounts(Perform(ops), Lost(ops), LostPerActor(ops))
  {
    if ops != [] {
      var front, op := ops[..|ops| - 1], ops[|ops| - 1];
      EveryRunAccounts(front);
      hide Accounts, LosesSlot, After;
      match op
      case Acquires(_, _) =>
        AcquireKeepsAccounts(Perform(front), op, Lost(front), LostPerActor(front), Lost(ops), LostPerActor(ops));
      case Releases(k) =>
        NothingLost(Perform(front), op);
        ReleaseKeepsAccounts(Perform(front), k, Lost(front), LostPerActor(front));
        SameAccounts(Perform(ops), Lost(ops), LostPerActor(front), LostPerActor(ops));
    }
  }

  lemma NothingLost(l: Ledger, op: Operation)
    requires op.Releases?
    ensures !LosesSlot(l, op)
  {
  }

  lemma SameAccounts(l: Ledger, lost: nat, f: string -> nat, g: string -> nat)
    requires Accounts(l, lost, f) && forall a :: g(a) == f(a)
    ensures Accounts(l, lost, g)
  {
    forall a ensures Count(l, a) == OutOf(l.leases, a) + g(a) { assert Count(l, a) == OutOf(l.leases, a) + f(a); }
  }

  // ---- Lost slots ----

  ghost predicate LosesNone(ops: seq<Operation>) {
    forall k | 0 <= k < |ops| :: !LosesSlot(Perform(ops[..k]), ops[k])
  }

  lemma LosesNoneSnoc(front: seq<Operation>, op: Operation)
    ensures LosesNone(front + [op]) <==> LosesNone(front) && !LosesSlot(Perform(front), op)
  {
    hide LosesSlot, Perform;
    var ops, n := front + [op], |front|;
    assert ops[..n] == front;
    forall k | 0 <= k < n ensures ops[..k] == front[..k] && ops[k] == front[k] {
    }
  }

  lemma {:induction false} LostNone(ops: seq<Operation>)
    ensures Lost(ops) == 0 <==> LosesNone(ops)
  {
    if ops != [] {
      var front, op := ops[..|ops| - 1], ops[|ops| - 1];
      assert ops == front + [op];
      LostNone(front);
      hide LosesSlot, Perform;
      LosesNoneSnoc(front, op);
    }
  }

  lemma {:induction false} LostOfAtMost(ops: seq<Operation>, actorId: string)
    ensures LostOf(ops, actorId) <= Lost(ops)
  {
    hide LosesSlot, Perform;
    if ops != [] { LostOfAtMost(ops[..|ops| - 1], actorId); }
  }

  lemma {:induction false} Loser(ops: seq<Operation>) returns (actorId: string)
    requires Lost(ops) > 0
    ensures LostOf(ops, actorId) > 0
  {
    var front, op := ops[..|ops| - 1], ops[|ops| - 1];
    if LosesSlot(Perform(front), op) {
      actorId := op.actorId;
    } else {
      actorId := Loser(front);
    }
  }

  /** The counters count the leases that are out, in all and for each actor, exactly when no acquisition
    * with room was made while the lifetime setting was invalid. */
  lemma CountsLeasesExactlyWhenNoneLost(ops: seq<Operation>)
    ensures Perform(ops).total == Out(Perform(ops).leases) <==> LosesNone(ops)
    ensures (forall a :: Count(Perform(ops), a) == OutOf(Perform(ops).leases, a)) <==> LosesNone(ops)
  {
    EveryRunAccounts(ops);
    LostNone(ops);
    if Lost(ops) > 0 {
      var a := Loser(ops);
      CountsWhatIsLost(ops, a);
    } else {
      forall a ensures Count(Perform(ops), a) == OutOf(Perform(ops).leases, a) {
        LostOfAtMost(ops, a);
        CountsWhatIsLost(ops, a);
      }
    }
  }

  lemma CountsWhatIsLost(ops: seq<Operation>, actorId: string)
    ensures Count(Perform(ops), actorId) == OutOf(Perform(ops).leases, actorId) + LostOf(ops, actorId)
  {
    EveryRunAccounts(ops);
    var l, lostOf := Perform(ops), LostPerActor(ops);
    hide Perform, Lost, LostOf, Out, OutOf, Count;
    assert Count(l, actorId) == OutOf(l.leases, actorId) + lostOf(actorId);
  }

  lemma {:induction false} LostStays(ops: seq<Operation>, more: seq<Operation>)
    ensures Lost(ops + more) >= Lost(ops)
  {
    hide LosesSlot, Perform;
    if more == [] {
      assert ops + more == ops;
    } else {
      var n := |more| - 1;
      assert (ops + more)[..|ops| + n] == ops + more[..n];
      LostStays(ops, more[..n]);
    }
  }

  /** Slots that were lost do not come back: once as many as the limit are, every acquisition is refused,
    * whatever is released. */
  lemma LostSlotsRefuse(ops: seq<Operation>, more: seq<Operation>, actorId: string, s: Settings)
    requires GlobalLimit(s).Ok? ==> Lost(ops) >= GlobalLimit(s).value
    ensures !HasRoom(Perform(ops + more), actorId, s)
    ensures After(Perform(ops + more), Acquires(actorId, s)) == Perform(ops + more)
  {
    EveryRunAccounts(ops + more);
    LostStays(ops, more);
    hide Perform, Lost, Out, OutOf;
  }

  /** One acquisition with a malformed lifetime: a slot is counted and no lease is out. */
  lemma OneSlotIsLost(actorId: string)
    ensures var l := Perform([Acquires(actorId, Settings(Unset, Unset, Malformed))]);
      l.total == 1 && Count(l, actorId) == 1 && l.leases == []
  {
    var op := Acquires(actorId, Settings(Unset, Unset, Malformed));
    PerformSnoc([], op);
    assert [] + [op] == [op];
  }

  // ---- Limits ----

  ghost predicate Within(l: Ledger, globalLimit: nat, actorLimit: nat) {
    l.total <= globalLimit && forall a :: Count(l, a) <= actorLimit
  }

  /** The limits an operation is made under are at most these. */
  predicate AllowsAtMost(op: Operation, globalLimit: nat, actorLimit: nat) {
    op.Acquires? ==>
      && (GlobalLimit(op.settings).Ok? ==> GlobalLimit(op.settings).value <= globalLimit)
      && (ActorLimit(op.settings).Ok? ==> ActorLimit(op.settings).value <= actorLimit)
  }

  lemma StepStaysWithin(l: Ledger, op: Operation, globalLimit: nat, actorLimit: nat)
    requires Within(l, globalLimit, actorLimit) && AllowsAtMost(op, globalLimit, actorLimit)
    ensures Within(After(l, op), globalLimit, actorLimit)
  {
    hide BoundedInteger;
    var after := After(l, op);
    forall a ensures Count(after, a) <= actorLimit { assert Count(l, a) <= actorLimit; }
  }

  /** Whatever is acquired and released under limits of at most these, the counters stay within them. */
  lemma {:induction false} EveryRunStaysWithin(ops: seq<Operation>, globalLimit: nat, actorLimit: nat)
    requires forall op | op in ops :: AllowsAtMost(op, globalLimit, actorLimit)
    ensures Within(Perform(ops), globalLimit, actorLimit)
  {
    hide After, AllowsAtMost;
    if ops != [] {
      var front, op := ops[..|ops| - 1], ops[|ops| - 1];
      assert forall o | o in front :: o in ops;
      assert op in ops;
      EveryRunStaysWithin(front, globalLimit, actorLimit);
      hide Within;
      StepStaysWithin(Perform(front), op, globalLimit, actorLimit);
    }
  }

  /** As many leases are never out either. */
  lemma LeasesStayWithin(ops: seq<Operation>, globalLimit: nat, actorLimit: nat, actorId: string)
    requires forall op | op in ops :: AllowsAtMost(op, globalLimit, actorLimit)
    ensures Out(Perform(ops).leases) <= globalLimit && OutOf(Perform(ops).leases, actorId) <= actorLimit
  {
    EveryRunStaysWithin(ops, globalLimit, actorLimit);
    EveryRunAccounts(ops);
    var l := Perform(ops);
    hide Perform, Lost, LostOf, Out, OutOf, AllowsAtMost;
    assert Count(l, actorId) == OutOf(l.leases, actorId) + LostPerActor(ops)(actorId);
    assert Count(l, actorId) <= actorLimit;
  }

  // ---- The counts of the actors ----

  function CountIn(byActor: map<string, int>): string -> real { a => if a in byActor then byActor[a] as real else 0.0 }

  /** Over any list that has every actor with an entry once. */
  ghost predicate AddsUp(l: Ledger) {
    forall actors: seq<string> | Distinct(actors) && Covers(actors, l.byActor) ::
        Total(actors, CountIn(l.byActor)) == l.total as real
  }

  ghost predicate Covers(actors: seq<string>, byActor: map<string, int>) {
    forall a | a in byActor :: a in actors
  }

  lemma {:induction false} TotalChangesAt(actors: seq<string>, f: string -> real, g: string -> real, a: string, d: real)
    requires Distinct(actors) && forall b :: g(b) == f(b) + if b == a then d else 0.0
    ensures Total(actors, g) == Total(actors, f) + if a in actors then d else 0.0
  {
    if actors != [] {
      var n := |actors| - 1;
      var front, last := actors[..n], actors[n];
      assert actors == front + [last];
      DistinctSnoc(front, last);
      TotalChangesAt(front, f, g, a, d);
      TotalSnoc(front, last, f);
      TotalSnoc(front, last, g);
    }
  }

  /** A change of one actor's count with the total keeps the sum. */
  lemma ChangeKeepsSum(l: Ledger, e: Ledger, a: string, d: int)
    requires AddsUp(l) && e.total == l.total + d
    requires forall b :: Count(e, b) == Count(l, b) + if b == a then d else 0
    requires forall b | b in l.byActor && b != a :: b in e.byActor
    ensures AddsUp(e)
  {
    var f, g := CountIn(l.byActor), CountIn(e.byActor);
    forall b ensures g(b) == f(b) + if b == a then d as real else 0.0 {
      assert Count(e, b) == Count(l, b) + if b == a then d else 0;
    }
    forall actors: seq<string> | Distinct(actors) && Covers(actors, e.byActor)
      ensures Total(actors, g) == e.total as real
    {
      assert Count(e, a) == Count(l, a) + d;
      hide Total, Distinct;
      TotalChangesAt(actors, f, g, a, d as real);
      if a in actors {
        assert Covers(actors, l.byActor);
      } else {
        DistinctSnoc(actors, a);
        TotalSnoc(actors, a, f);
        assert Covers(actors + [a], l.byActor);
      }
    }
  }

  lemma StepKeepsSum(l: Ledger, op: Operation, lost: nat, lostOf: string -> nat)
    requires Accounts(l, lost, lostOf) && AddsUp(l)
    ensures AddsUp(After(l, op))
  {
    hide AddsUp, BoundedInteger;
    var e := After(l, op);
    match op
    case Acquires(a, s) => if HasRoom(l, a, s) { ChangeKeepsSum(l, e, a, 1); }
    case Releases(k) =>
      if k < |l.leases| && !l.leases[k].released {
        ReleaseTakesOne(l, k, lost, lostOf);
        hide Accounts;
        ChangeKeepsSum(l, e, l.leases[k].actorId, -1);
      }
  }

  /** Over every sequence of operations the counts of the actors add up to the total. */
  lemma {:induction false} ActorsAddUp(ops: seq<Operation>)
    ensures AddsUp(Perform(ops))
  {
    if ops == [] {
      forall actors: seq<string> ensures Total(actors, CountIn(map[])) == 0.0 {
        TotalConstant(actors, CountIn(map[]), 0.0);
      }
    } else {
      var front := ops[..|ops| - 1];
      ActorsAddUp(front);
      EveryRunAccounts(front);
      hide AddsUp, Accounts, After;
      StepKeepsSum(Perform(front), ops[|ops| - 1], Lost(front), LostPerActor(front));
    }
  }
}
