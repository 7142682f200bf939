/** What the budget of customer event streams allows, by the numbers: its limits, their defaults and their
  * bounds, and when a stream is admitted. */
module BudgetLimits {
  import opened Wrappers
  import opened CanonicalJson
  import opened BudgetLedger

  /** The number in effect: the default, or a number given within the bounds. */
  predicate IsSetTo(setting: Setting, fallback: nat, least: nat, most: nat, n: nat) {
    (setting.Unset? && n == fallback) || (setting.Digits? && setting.value == n && least <= n <= most)
  }

  lemma BoundedExactly(setting: Setting, fallback: nat, least: nat, most: nat, n: nat)
    requires least <= fallback <= most <= MAX_SAFE_INTEGER
    ensures BoundedInteger(setting, fallback, least, most) == Ok(n) <==> IsSetTo(setting, fallback, least, most, n)
  {
  }

  /** 128 streams in all unless 1 to 4096 are set, 4 for each customer unless 1 to 32 are, and five minutes for
    * each unless ten seconds to half an hour are. */
  lemma LimitsExactly(s: Settings, n: nat)
    ensures GlobalLimit(s) == Ok(n) <==> IsSetTo(s.maxConnections, 128, 1, 4096, n)
    ensures ActorLimit(s) == Ok(n) <==> IsSetTo(s.maxConnectionsPerActor, 4, 1, 32, n)
    ensures Ttl(s) == Ok(n) <==> IsSetTo(s.connectionTtlMs, 300000, 10000, 1800000, n)
  {
    BoundedExactly(s.maxConnections, 128, 1, 4096, n);
    BoundedExactly(s.maxConnectionsPerActor, 4, 1, 32, n);
    BoundedExactly(s.connectionTtlMs, 300000, 10000, 1800000, n);
  }

  ghost predicate Admits(l: Ledger, actorId: string, s: Settings) {
    exists all, own :: IsSetTo(s.maxConnections, 128, 1, 4096, all) && IsSetTo(s.maxConnectionsPerActor, 4, 1, 32, own)
                       && l.total < all && Count(l, actorId) < own
  }

  ghost predicate LivesLong(s: Settings, ttl: nat) { IsSetTo(s.connectionTtlMs, 300000, 10000, 1800000, ttl) }

  lemma AdmitsExactly(l: Ledger, actorId: string, s: Settings)
    ensures HasRoom(l, actorId, s) <==> Admits(l, actorId, s)
  {
    if HasRoom(l, actorId, s) {
      LimitsExactly(s, GlobalLimit(s).value);
      LimitsExactly(s, ActorLimit(s).value);
    }
    if Admits(l, actorId, s) {
      var all, own :| IsSetTo(s.maxConnections, 128, 1, 4096, all) && IsSetTo(s.maxConnectionsPerActor, 4, 1, 32, own)
                      && l.total < all && Count(l, actorId) < own;
      LimitsExactly(s, all);
      LimitsExactly(s, own);
    }
  }

  lemma LivesExactly(s: Settings)
    ensures Ttl(s).Ok? <==> exists ttl :: LivesLong(s, ttl)
  {
    if Ttl(s).Ok? {
      LimitsExactly(s, Ttl(s).value);
      assert LivesLong(s, Ttl(s).value);
    }
    if ttl :| LivesLong(s, ttl) { LimitsExactly(s, ttl); }
  }

  /** A stream takes a slot exactly when both limits are numbers within their bounds and leave room, and it gets
    * a lease exactly when its lifetime is one as well. */
  lemma AcquireExactly(l: Ledger, actorId: string, s: Settings)
    ensures var t := AcquireSlot(l, actorId, s);
      && (Admits(l, actorId, s) ==>
            && t.total == l.total + 1 && Count(t, actorId) == Count(l, actorId) + 1
            && (forall other | other != actorId :: Count(t, other) == Count(l, other))
            && t.leases == l.leases
                 + if exists ttl :: LivesLong(s, ttl) then [LeaseRecord(actorId, false)] else [])
      && (!Admits(l, actorId, s) ==> t == l)
  {
    AdmitsExactly(l, actorId, s);
    LivesExactly(s);
    hide GlobalLimit, ActorLimit, Ttl, LivesLong, Admits, HasRoom;
  }
}
