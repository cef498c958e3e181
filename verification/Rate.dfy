/** How often the inventory is read. docs/harmony-g2.md says that the session and the inventory are rechecked at
    most once per minute; that is true of `refresh` (Runs.RefreshRateIsBounded) and false of commands. */
module Rate {
  import opened Wrappers
  import opened Calendar
  import opened Session
  import opened Transport
  import opened Client
  import opened Store
  import opened Model
  import opened Backend
  import opened Safety
  import opened Outcomes
  import opened Runs

  /** How many times a history starts to read the inventory, from its first page. */
  function Sweeps(trace: seq<Event>): nat {
    if trace == [] then 0
    else
      var last := trace[|trace| - 1];
      Sweeps(trace[..|trace| - 1]) + if last.Sent? && last.request.Inventory? && last.request.page == 1 then 1 else 0
  }

  lemma SweepsOfOneMore(trace: seq<Event>, e: Event)
    ensures Sweeps(trace + [e])
         == Sweeps(trace) + if e.Sent? && e.request.Inventory? && e.request.page == 1 then 1 else 0
  {
    assert (trace + [e])[..|trace|] == trace;
  }

  lemma {:induction false} SweepsOfAsked(trace: seq<Event>, token: Token, n: nat)
    requires n <= MAX_INVENTORY_PAGES
    ensures Sweeps(Asked(trace, token, n)) == Sweeps(trace) + if n == 0 then 0 else 1
  {
    if n > 0 {
      SweepsOfAsked(trace, token, n - 1);
      SweepsOfOneMore(Asked(trace, token, n - 1), Sent(Inventory(n, token)));
    }
  }

  predicate RotationDue(env: Env, s: Sys) {
    s.g.forceRenew || NeedsRenewal(s.g.session, env.clock(s.w.ticks))
  }

  /** The renewal that a maintenance step starts with, if one is due, fails. */
  predicate RotationFails(env: Env, s: Sys) {
    RotationDue(env, s) && Rotate(env, s.(w := Tick(s.w)), env.clock(s.w.ticks)).1.Some?
  }

  predicate InventoryStale(env: Env, s: Sys) {
    env.clock(s.w.ticks) - s.g.inventoryAt >= INVENTORY_FRESHNESS
  }

  lemma RotationReadsNothing(env: Env, s: Sys, now: Instant)
    ensures Sweeps(Rotate(env, s, now).0.w.trace) == Sweeps(s.w.trace)
  {
    hide Renew, Save, Sweeps;
    var (sent, renewed) := Renew(env.gateway, s.w.trace, s.g.session, now);
    RenewSendsOnce(env.gateway, s.w.trace, s.g.session, now);
    SweepsOfOneMore(s.w.trace, Sent(Renewal(s.g.session.accessToken, s.g.session.refreshToken)));
    if renewed.Success? {
      SaveReturnsCommitted(env.fs, s.w.store, sent, renewed.value);
      SweepsOfOneMore(sent, Committed(renewed.value));
    }
  }

  lemma RediscoveryReadsOnce(env: Env, s: Sys, now: Instant)
    ensures Sweeps(Rediscover(env, s, now).0.w.trace) == Sweeps(s.w.trace) + 1
  {
    hide Endpoints, Snapshot, MarkIds, Sweeps;
    var trace, token := s.w.trace, s.g.session.accessToken;
    InventoryIsExact(env.gateway, trace, token);
    var k :| 1 <= k <= MAX_INVENTORY_PAGES && Endpoints(env.gateway, trace, token).0 == Asked(trace, token, k);
    SweepsOfAsked(trace, token, k);
  }

  /** A maintenance step reads the inventory exactly when no renewal fails before it and the inventory is a
      minute old or some device is offline; then it reads it once. */
  lemma MaintenanceReads(env: Env, s: Sys)
    requires Configured(env, s.g) && Sound(s.w.trace, s.g.session)
    ensures Sweeps(Maintain(env, s).0.w.trace)
         == Sweeps(s.w.trace) + if !RotationFails(env, s) && (InventoryStale(env, s) || AnyOffline(s.g)) then 1 else 0
  {
    hide Rotate, Rediscover, Sweeps, AnyOffline, Sound, Configured;
    var now := env.clock(s.w.ticks);
    var s0 := s.(w := Tick(s.w));
    RotationReadsNothing(env, s0, now);
    RotateIsSound(env, s0, now);
    var s1 := if RotationDue(env, s) then Rotate(env, s0, now).0 else s0;
    assert RotationDue(env, s) && !RotationFails(env, s) ==>
      s1.g == s.g.(session := s1.g.session, forceRenew := false);
    assert !RotationFails(env, s) ==> AnyOffline(s1.g) == AnyOffline(s.g) by { OfflineIgnoresSession(s.g, s1.g); }
    RediscoveryReadsOnce(env, s1, now);
  }

  lemma OfflineIgnoresSession(g: G2, h: G2)
    ensures g.availability == h.availability ==> AnyOffline(g) == AnyOffline(h)
  {
  }

  // ---- commands are not held to a minute ----

  /** From this state on, the gateway answers inventory reads with a server error and the clock stands still. */
  ghost predicate Stuck(env: Env, s: Sys, now: Instant) {
    && (forall n | n >= s.w.ticks :: env.clock(n) == now)
    && (forall later | s.w.trace <= later ::
          Outcome(env.gateway(later + [Sent(Inventory(1, s.g.session.accessToken))])) == Failure(Response(Some(500))))
  }

  /** The same command, `n` times over. */
  function Repeated(c: Command, n: nat): seq<Op> {
    seq(n, _ => DoSet(c))
  }

  /** The state in which one command after the other reads the inventory in vain. */
  ghost predicate Waiting(env: Env, s: Sys, c: Command, now: Instant) {
    && Inv(env, s) && Problem(s.g, c).None?
    && !s.g.forceRenew && !NeedsRenewal(s.g.session, now)
    && (now - s.g.inventoryAt >= INVENTORY_FRESHNESS || AllAre(s.g, Offline))
  }

  lemma FailedSweep(env: Env, s: Sys, now: Instant)
    requires Outcome(env.gateway(s.w.trace + [Sent(Inventory(1, s.g.session.accessToken))]))
             == Failure(Response(Some(500)))
    ensures Rediscover(env, s, now).1 == Some(Response(Some(500)))
    ensures Rediscover(env, s, now).0.g == s.g && s.w.trace < Rediscover(env, s, now).0.w.trace
    ensures Rediscover(env, s, now).0.w.ticks == s.w.ticks
  {
    hide Outcome, Snapshot, MarkIds;
    var r := Inventory(1, s.g.session.accessToken);
    SendAlwaysSends(env.gateway, s.w.trace, r);
    assert s.w.trace < s.w.trace + [Sent(r)];
  }

  /** One such command: rejected after one more inventory read, and the next one will fare the same. */
  lemma CommandRereads(env: Env, s: Sys, c: Command, now: Instant)
    requires Stuck(env, s, now) && Waiting(env, s, c, now)
    ensures var r := SetDesired(env, s, c).0;
            && Waiting(env, r, c, now) && Stuck(env, r, now)
            && Sweeps(r.w.trace) == Sweeps(s.w.trace) + 1 && Posts(r.w.trace) == Posts(s.w.trace)
  {
    hide Outcome, Rediscover, Sweeps, Posts, Sound, Rotate, AssertedDevices, BindsConfiguration, Submit, MarkAll;
    var s0 := s.(w := Tick(s.w));
    FailedSweep(env, s0, now);
    assert AllAre(s.g, Offline) ==> AnyOffline(s.g) by {
      assert c.deviceId in s.g.availability;
    }
    assert Maintain(env, s) == Rediscover(env, s0, now);
    MaintenanceReads(env, s);
    MaintainIsSound(env, s);
    var m := Maintain(env, s).0;
    FailureIsSound(env, m, Response(Some(500)));
    MarkAllIsUniform(env, m, Offline);
    SameKeys(env, s.g, m.g);
    MarkingTakesTime(env, m.(g := m.g.(forceRenew := m.g.forceRenew || IsAuthRefusal(Response(Some(500))))), Offline);
  }

  lemma MarkingTakesTime(env: Env, s: Sys, state: AvailabilityState)
    ensures MarkAll(env, s, state).w.ticks >= s.w.ticks
  {
  }

  /** From any state of a run whose inventory is a minute old, or whose devices are offline, with no renewal due:
      if the gateway only answers with server errors, `n` commands read the inventory `n` times within a single
      clock reading, and none of them switches anything. */
  lemma {:induction false} CommandsAreNotRateLimited(env: Env, s: Sys, c: Command, now: Instant, n: nat)
    requires Stuck(env, s, now) && Waiting(env, s, c, now)
    ensures var r := Run(env, s, Repeated(c, n));
            && Sweeps(r.w.trace) == Sweeps(s.w.trace) + n && Posts(r.w.trace) == Posts(s.w.trace)
            && Waiting(env, r, c, now) && Stuck(env, r, now)
  {
    hide Outcome, Sweeps, Posts, SetDesired, Waiting, Stuck;
    if n > 0 {
      CommandsAreNotRateLimited(env, s, c, now, n - 1);
      assert Repeated(c, n)[..n - 1] == Repeated(c, n - 1);
      CommandRereads(env, Run(env, s, Repeated(c, n - 1)), c, now);
    }
  }
}
