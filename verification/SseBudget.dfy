/** The budget of customer event streams (`acquireCustomerSseLease` and the `release` it hands out). */
module SseBudget {
  import opened Wrappers
  import opened BudgetLedger

  class Budget {
    var total: int
    var byActor: map<string, int>

    /** Every lease handed out, and every call so far. */
    ghost var leases: seq<Lease>
    ghost var history: seq<Operation>

    ghost function View(): Ledger
      reads this, leases
    {
      Ledger(total, byActor, Records(leases))
    }

    /** The counters and leases are those of the calls made so far. */
    ghost predicate Valid()
      reads this, leases
    {
      && (forall i | 0 <= i < |leases| :: leases[i].budget == this && leases[i].place == i)
      && View() == Perform(history)
    }

    constructor ()
      ensures Valid() && fresh(this) && history == [] && leases == []
    {
      total := 0;
      byActor := map[];
      leases := [];
      history := [];
    }

    /** A lease exactly when all settings are valid and both limits leave room; the slot is taken before
      * the lifetime is read. */
    method Acquire(actorId: string, settings: Settings, now: int) returns (r: Result<Lease, BudgetError>)
      requires Valid()
      modifies this
      ensures Valid() && history == old(history) + [Acquires(actorId, settings)]
      ensures View() == After(old(View()), Acquires(actorId, settings))
      ensures r.Ok? <==> HasRoom(old(View()), actorId, settings) && Ttl(settings).Ok?
      ensures r.Ok? ==>
                && fresh(r.value) && leases == old(leases) + [r.value] && r.value.IsOf(this)
                && r.value.actorId == actorId && !r.value.released && r.value.expiresAt == now + Ttl(settings).value
      ensures r.Err? ==>
                && leases == old(leases)
                && (r.error == CapacityExceeded <==>
                      GlobalLimit(settings).Ok? && ActorLimit(settings).Ok? && !HasRoom(old(View()), actorId, settings))
      ensures forall g, a | AllowsAtMost(Acquires(actorId, settings), g, a) && Within(old(View()), g, a) ::
                Within(View(), g, a)
    {
      hide BoundedInteger, Perform, Within, AllowsAtMost, After, Records;
      ghost var op, before := Acquires(actorId, settings), View();
      PerformSnoc(history, op);
      AcquireUnfold(before, actorId, settings);
      history := history + [op];
      StaysWithinAll(before, op);
      var globalLimit := GlobalLimit(settings);
      if globalLimit.Err? {
        return Err(globalLimit.error);
      }
      var actorLimit := ActorLimit(settings);
      if actorLimit.Err? {
        return Err(actorLimit.error);
      }
      var actorCount := if actorId in byActor then byActor[actorId] else 0;
      if total >= globalLimit.value || actorCount >= actorLimit.value {
        return Err(CapacityExceeded);
      }
      total := total + 1;
      byActor := byActor[actorId := actorCount + 1];
      var ttl := Ttl(settings);
      if ttl.Err? {
        return Err(ttl.error);
      }
      var lease := new Lease(this, actorId, now + ttl.value, |leases|);
      leases := leases + [lease];
      assert View().leases == before.leases + [LeaseRecord(actorId, false)];
      r := Ok(lease);
    }

    /** Every theorem about the ledger of a run is one about this budget. */
    lemma CountsItsLeases()
      requires Valid()
      ensures total == Out(View().leases) <==> LosesNone(history)
      ensures total == Out(View().leases) + Lost(history) && AddsUp(View())
    {
      CountsLeasesExactlyWhenNoneLost(history);
      EveryRunAccounts(history);
      ActorsAddUp(history);
      hide Perform, Out, Lost, LosesNone, AddsUp;
    }
  }

  ghost function Records(leases: seq<Lease>): (r: seq<LeaseRecord>)
    reads leases
    ensures |r| == |leases| && forall i | 0 <= i < |leases| ::
              r[i] == LeaseRecord(leases[i].actorId, leases[i].released)
  {
    if leases == [] then []
    else
      var last := leases[|leases| - 1];
      Records(leases[..|leases| - 1]) + [LeaseRecord(last.actorId, last.released)]
  }

  lemma StaysWithinAll(l: Ledger, op: Operation)
    ensures forall g, a | AllowsAtMost(op, g, a) && Within(l, g, a) :: Within(After(l, op), g, a)
  {
    forall g, a | AllowsAtMost(op, g, a) && Within(l, g, a) ensures Within(After(l, op), g, a) {
      hide *;
      StepStaysWithin(l, op, g, a);
    }
  }

  class Lease {
    const budget: Budget
    const actorId: string
    const expiresAt: int
    ghost const place: nat
    var released: bool

    constructor (budget: Budget, actorId: string, expiresAt: int, ghost place: nat)
      ensures this.budget == budget && this.actorId == actorId && this.expiresAt == expiresAt && !released
      ensures this.place == place
    {
      this.budget := budget;
      this.actorId := actorId;
      this.expiresAt := expiresAt;
      this.place := place;
      released := false;
    }

    /** The budget handed out this lease. */
    ghost predicate IsOf(b: Budget)
      reads b
    {
      budget == b && place < |b.leases| && b.leases[place] == this
    }

    /** The first call gives the slot back, and neither clamp changes a value; later calls do nothing. */
    method Release()
      requires budget.Valid() && IsOf(budget)
      modifies this, budget
      ensures budget.Valid() && budget.history == old(budget.history) + [Releases(place)]
      ensures budget.View() == After(old(budget.View()), Releases(place))
      ensures released && budget.leases == old(budget.leases)
      ensures old(released) ==> budget.View() == old(budget.View())
      ensures !old(released) ==>
                && budget.total == old(budget.total) - 1 >= 0
                && forall a :: Count(budget.View(), a) == Count(old(budget.View()), a) - if a == actorId then 1 else 0
      ensures forall g, a | Within(old(budget.View()), g, a) :: Within(budget.View(), g, a)
    {
      hide Perform, Within, Accounts, After, Records, Lost, LostOf, LostPerActor;
      ghost var op, before := Releases(place), budget.View();
      ReleaseUnfold(before, place);
      PerformSnoc(budget.history, op);
      EveryRunAccounts(budget.history);
      StaysWithinAll(before, op);
      budget.history := budget.history + [op];
      if released {
        return;
      }
      ReleaseTakesOne(before, place, Lost(old(budget.history)), LostPerActor(old(budget.history)));
      var nextTotal := if budget.total - 1 > 0 then budget.total - 1 else 0;
      var current := if actorId in budget.byActor then budget.byActor[actorId] else 1;
      var nextActorCount := if current - 1 > 0 then current - 1 else 0;
      released := true;
      budget.total := nextTotal;
      if nextActorCount == 0 {
        budget.byActor := budget.byActor - {actorId};
      } else {
        budget.byActor := budget.byActor[actorId := nextActorCount];
      }
      assert budget.View().leases == before.leases[place := LeaseRecord(actorId, true)];
    }
  }
}
