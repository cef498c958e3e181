/** What every operation of the gateway backend keeps. */
module Safety {
  import opened Wrappers
  import opened Identity
  import opened Calendar
  import opened Session
  import opened Transport
  import opened Client
  import opened Store
  import opened Model
  import opened Backend

  // ---- the recorded history ----

  /** A session holding these credentials was read from or committed to the session file. */
  ghost predicate Backed(trace: seq<Event>, r: Request) {
    exists i :: 0 <= i < |trace| && Backs(trace[i], r)
  }

  predicate Backs(e: Event, r: Request) {
    && !e.Sent? && e.session.accessToken == r.accessToken
    && (r.Renewal? ==> e.session.refreshToken == r.refreshToken)
  }

  /** No request carries a credential that was not durable before the request was made. */
  ghost predicate PersistedFirst(trace: seq<Event>) {
    forall i | 0 <= i < |trace| && trace[i].Sent? :: Backed(trace[..i], trace[i].request)
  }

  ghost predicate Held(trace: seq<Event>, s: LocalSession) {
    exists i :: 0 <= i < |trace| && !trace[i].Sent? && trace[i].session == s
  }

  /** The command requests of a history, in order. */
  function Posts(trace: seq<Event>): seq<Request> {
    if trace == [] then []
    else
      var last := trace[|trace| - 1];
      Posts(trace[..|trace| - 1]) + if last.Sent? && last.request.Switch? then [last.request] else []
  }

  /** `later` continues `earlier` without any command request. */
  ghost predicate Quiet(earlier: seq<Event>, later: seq<Event>) {
    earlier <= later && Posts(later) == Posts(earlier)
  }

  lemma Append(trace: seq<Event>, e: Event)
    requires PersistedFirst(trace)
    requires e.Sent? ==> Backed(trace, e.request)
    ensures PersistedFirst(trace + [e])
    ensures trace <= trace + [e]
    ensures Posts(trace + [e]) == Posts(trace) + if e.Sent? && e.request.Switch? then [e.request] else []
    ensures forall s :: Held(trace, s) ==> Held(trace + [e], s)
    ensures !e.Sent? ==> Held(trace + [e], e.session)
  {
    var longer := trace + [e];
    assert longer[..|trace|] == trace && longer[|trace|] == e;
    forall i | 0 <= i < |longer| && longer[i].Sent? ensures Backed(longer[..i], longer[i].request) {
      assert i < |trace| ==> longer[..i] == trace[..i] && longer[i] == trace[i];
    }
    forall s | Held(trace, s) ensures Held(longer, s) {
      var i :| 0 <= i < |trace| && !trace[i].Sent? && trace[i].session == s;
      assert longer[i] == trace[i];
    }
  }

  lemma HeldBacks(trace: seq<Event>, s: LocalSession, r: Request)
    requires Held(trace, s) && r.accessToken == s.accessToken && (r.Renewal? ==> r.refreshToken == s.refreshToken)
    ensures Backed(trace, r)
  {
    var i :| 0 <= i < |trace| && !trace[i].Sent? && trace[i].session == s;
    assert Backs(trace[i], r);
  }

  /** A history that may be continued with requests of the held session. */
  ghost predicate Sound(trace: seq<Event>, s: LocalSession) {
    PersistedFirst(trace) && Held(trace, s)
  }

  /** A request of the held session, other than a command, extends a sound history quietly. */
  lemma SendKeepsSound(trace: seq<Event>, s: LocalSession, r: Request)
    requires Sound(trace, s)
    requires r.accessToken == s.accessToken && (r.Renewal? ==> r.refreshToken == s.refreshToken)
    ensures Sound(trace + [Sent(r)], s)
    ensures !r.Switch? ==> Quiet(trace, trace + [Sent(r)])
    ensures r.Switch? ==> Posts(trace + [Sent(r)]) == Posts(trace) + [r]
  {
    HeldBacks(trace, s, r);
    Append(trace, Sent(r));
  }

  /** Committing a session makes it the one that may be used. */
  lemma CommitKeepsSound(trace: seq<Event>, s: LocalSession, next: LocalSession)
    requires Sound(trace, s)
    ensures Sound(trace + [Committed(next)], next) && Sound(trace + [Committed(next)], s)
    ensures Quiet(trace, trace + [Committed(next)])
  {
    Append(trace, Committed(next));
  }

  lemma {:induction false} AskingIsSound(trace: seq<Event>, s: LocalSession, n: nat)
    requires Sound(trace, s) && n <= MAX_INVENTORY_PAGES
    ensures Sound(Asked(trace, s.accessToken, n), s) && Quiet(trace, Asked(trace, s.accessToken, n))
  {
    if n > 0 {
      AskingIsSound(trace, s, n - 1);
      SendKeepsSound(Asked(trace, s.accessToken, n - 1), s, Inventory(n, s.accessToken));
    }
  }

  lemma SweepIsSound(env: Env, trace: seq<Event>, s: LocalSession)
    requires Sound(trace, s)
    ensures var sent := Endpoints(env.gateway, trace, s.accessToken).0;
            Sound(sent, s) && Quiet(trace, sent)
  {
    hide Endpoints;
    InventoryIsExact(env.gateway, trace, s.accessToken);
    var k :| 1 <= k <= MAX_INVENTORY_PAGES
        && Endpoints(env.gateway, trace, s.accessToken).0 == Asked(trace, s.accessToken, k);
    AskingIsSound(trace, s, k);
  }

  // ---- binding ----

  /** The devices and bindings are the configured ones. */
  ghost predicate Configured(env: Env, g: G2) {
    && env.settings != []
    && AssertedDevices(env.settings, env.profiles) == Some(g.devices)
    && g.availability.Keys == g.bindings.Keys
    && BindsConfiguration(env.settings, g.bindings)
  }

  /** Exactly the configured ids are bound, each to its own hardware id and component. */
  ghost predicate BindsConfiguration(settings: seq<Setting>, bindings: map<DeviceId, G2Endpoint>) {
    && (forall id :: id in bindings <==> exists i :: 0 <= i < |settings| && settings[i].deviceId == id)
    && (forall i | 0 <= i < |settings| :: BoundTo(settings[i], bindings))
  }

  predicate BoundTo(c: Setting, bindings: map<DeviceId, G2Endpoint>) {
    && c.deviceId in bindings
    && bindings[c.deviceId].deviceId == c.deviceId
    && bindings[c.deviceId].componentId == c.componentId
  }

  lemma {:induction false} FilterMembers<T>(s: seq<T>, admits: T -> bool, p: T)
    ensures p in Filter(s, admits) <==> p in s && admits(p)
  {
    if s != [] {
      FilterMembers(s[..|s| - 1], admits, p);
      assert s == s[..|s| - 1] + [s[|s| - 1]];
    }
  }

  lemma MatchesAreExact(endpoints: seq<G2Endpoint>, c: Setting, p: G2Endpoint)
    ensures p in Matches(endpoints, c) <==> p in endpoints && p.deviceId == c.deviceId && p.componentId == c.componentId
  {
    FilterMembers(endpoints, HasPairOf(c), p);
  }

  lemma BindsOneMore(front: seq<Setting>, c: Setting, so: map<DeviceId, G2Endpoint>, matched: G2Endpoint)
    requires BindsConfiguration(front, so) && c.deviceId !in so
    requires matched.deviceId == c.deviceId && matched.componentId == c.componentId
    ensures BindsConfiguration(front + [c], so[c.deviceId := matched])
    ensures forall i | 0 <= i < |front| :: front[i].deviceId != c.deviceId
  {
    var settings, bindings := front + [c], so[c.deviceId := matched];
    assert settings[|front|] == c;
    forall i | 0 <= i < |settings| ensures BoundTo(settings[i], bindings) {
      assert i < |front| ==> settings[i] == front[i] && BoundTo(front[i], so);
    }
    forall id ensures id in bindings <==> exists i :: 0 <= i < |settings| && settings[i].deviceId == id {
      if id in so {
        var i :| 0 <= i < |front| && front[i].deviceId == id;
        assert settings[i].deviceId == id;
      }
    }
  }

  lemma NothingBound()
    ensures BindsConfiguration([], map[])
  {
  }

  /** A successful snapshot has the asserted devices, binds exactly the configuration, and means that no id
      was configured twice. */
  lemma {:induction false} BindIsFaithful(settings: seq<Setting>, profiles: seq<Profile>, endpoints: seq<G2Endpoint>)
    requires Bind(settings, profiles, endpoints).Some?
    ensures AssertedDevices(settings, profiles) == Some(Bind(settings, profiles, endpoints).value.devices)
    ensures BindsConfiguration(settings, Bind(settings, profiles, endpoints).value.bindings)
    ensures forall i, j | 0 <= i < j < |settings| :: settings[i].deviceId != settings[j].deviceId
  {
    hide FindProfile, AssertedDevice, Matches, BindsConfiguration;
    if settings == [] {
      NothingBound();
    } else {
      var front, c := settings[..|settings| - 1], settings[|settings| - 1];
      BindIsFaithful(front, profiles, endpoints);
      var so := Bind(front, profiles, endpoints).value;
      var matched := Matches(endpoints, c)[0];
      MatchesAreExact(endpoints, c, matched);
      BindsOneMore(front, c, so.bindings, matched);
      assert settings == front + [c];
      assert forall i | 0 <= i < |front| :: settings[i] == front[i];
    }
  }

  // ---- availability ----

  ghost predicate AllAre(g: G2, state: AvailabilityState) {
    forall id | id in g.availability :: g.availability[id].state == state
  }

  /** All devices share one availability state, online or offline. */
  ghost predicate Uniform(g: G2) {
    AllAre(g, Online) || AllAre(g, Offline)
  }

  lemma {:induction false} MarkIdsIsExact(clock: nat -> Instant, availability: map<DeviceId, Availability>,
                                          ids: seq<DeviceId>, state: AvailabilityState, ticks: nat)
    ensures var marked := MarkIds(clock, availability, ids, state, ticks);
            && (forall id :: id in marked <==> id in availability || id in ids)
            && (forall id | id in ids :: marked[id].state == state)
            && (forall id | id in availability && id !in ids :: marked[id] == availability[id])
  {
    if ids != [] {
      var n := |ids| - 1;
      MarkIdsIsExact(clock, availability, ids[..n], state, ticks);
      assert ids == ids[..n] + [ids[n]];
    }
  }

  /** Each device is marked at a clock reading of its own, in order. */
  lemma {:induction false} MarkedInOrder(clock: nat -> Instant, availability: map<DeviceId, Availability>,
                                         ids: seq<DeviceId>, state: AvailabilityState, ticks: nat, i: nat)
    requires i < |ids| && forall j | i < j < |ids| :: ids[j] != ids[i]
    ensures var marked := MarkIds(clock, availability, ids, state, ticks);
            ids[i] in marked && marked[ids[i]] == Availability(state, clock(ticks + i))
  {
    if i < |ids| - 1 {
      MarkedInOrder(clock, availability, ids[..|ids| - 1], state, ticks, i);
    }
  }

  lemma {:induction false} AssertedIds(settings: seq<Setting>, profiles: seq<Profile>)
    requires AssertedDevices(settings, profiles).Some?
    ensures var devices := AssertedDevices(settings, profiles).value;
            |devices| == |settings| && forall i | 0 <= i < |settings| :: devices[i].deviceId == settings[i].deviceId
  {
    hide FindProfile, AssertedDevice;
    if settings != [] {
      var front, c := settings[..|settings| - 1], settings[|settings| - 1];
      AssertedIds(front, profiles);
      assert forall i | 0 <= i < |front| :: front[i] == settings[i];
    }
  }

  lemma ConfiguredIds(env: Env, g: G2)
    requires Configured(env, g)
    ensures forall id :: id in g.availability <==> id in Ids(g.devices)
  {
    AssertedIds(env.settings, env.profiles);
    forall id ensures id in g.bindings <==> id in Ids(g.devices) {
      if id in g.bindings {
        var i :| 0 <= i < |env.settings| && env.settings[i].deviceId == id;
        assert Ids(g.devices)[i] == id;
      }
      if id in Ids(g.devices) {
        var i :| 0 <= i < |g.devices| && Ids(g.devices)[i] == id;
        assert env.settings[i].deviceId == id;
      }
    }
  }

  /** Marking all devices changes their availability and nothing else. */
  lemma MarkAllIsUniform(env: Env, s: Sys, state: AvailabilityState)
    requires Configured(env, s.g)
    ensures var r := MarkAll(env, s, state);
            && r.g == s.g.(availability := r.g.availability)
            && r.w == s.w.(ticks := r.w.ticks)
            && Configured(env, r.g) && AllAre(r.g, state)
  {
    ConfiguredIds(env, s.g);
    MarkIdsIsExact(env.clock, s.g.availability, Ids(s.g.devices), state, s.w.ticks);
    assert MarkAll(env, s, state).g.availability.Keys == s.g.availability.Keys;
  }

  // ---- the invariant ----

  /** What holds of every reachable state of the backend. */
  ghost predicate Inv(env: Env, s: Sys) {
    && Configured(env, s.g)
    && Uniform(s.g)
    && (s.g.forceRenew ==> AllAre(s.g, Offline))
    && (s.g.closed ==> AllAre(s.g, Offline))
    && Sound(s.w.trace, s.g.session)
  }

  lemma RotateIsSound(env: Env, s: Sys, now: Instant)
    requires Sound(s.w.trace, s.g.session)
    ensures var (r, e) := Rotate(env, s, now);
            && Sound(r.w.trace, r.g.session) && Quiet(s.w.trace, r.w.trace)
            && r.w.ticks == s.w.ticks
            && (e.Some? ==> r.g == s.g)
            && (e.None? ==> r.g == s.g.(session := r.g.session, forceRenew := false)
                            && |s.w.trace| < |r.w.trace| && r.w.trace[|r.w.trace| - 1] == Committed(r.g.session))
  {
    hide Sound, Posts, Renew, Save;
    var (sent, renewed) := Renew(env.gateway, s.w.trace, s.g.session, now);
    RenewSendsOnce(env.gateway, s.w.trace, s.g.session, now);
    SendKeepsSound(s.w.trace, s.g.session, Renewal(s.g.session.accessToken, s.g.session.refreshToken));
    if renewed.Success? {
      CommitKeepsSound(sent, s.g.session, renewed.value);
      SaveReturnsCommitted(env.fs, s.w.store, sent, renewed.value);
    }
  }

  lemma RenewSendsOnce(gateway: Gateway, trace: seq<Event>, s: LocalSession, now: Instant)
    ensures Renew(gateway, trace, s, now).0 == trace + [Sent(Renewal(s.accessToken, s.refreshToken))]
  {
    hide ParseRefreshed, Outcome;
    SendAlwaysSends(gateway, trace, Renewal(s.accessToken, s.refreshToken));
  }

  lemma SaveReturnsCommitted(fs: FileSystem, store: StoreState, trace: seq<Event>, next: LocalSession)
    ensures var (_, saved, ok) := Save(fs, store, trace, next);
            (saved == trace || saved == trace + [Committed(next)]) && (ok ==> saved == trace + [Committed(next)])
  {
    hide Encode;
  }

  lemma RediscoverIsSound(env: Env, s: Sys, now: Instant)
    requires Configured(env, s.g) && Sound(s.w.trace, s.g.session)
    ensures var (r, e) := Rediscover(env, s, now);
            && Sound(r.w.trace, r.g.session) && Quiet(s.w.trace, r.w.trace)
            && (e.Some? ==> r.g == s.g && r.w.ticks == s.w.ticks)
            && (e.None? ==>
                  && Configured(env, r.g) && AllAre(r.g, Online)
                  && r.g == s.g.(bindings := r.g.bindings, inventoryAt := now, availability := r.g.availability))
  {
    hide Endpoints, Bind, AssertedDevices, MarkIds;
    SweepIsSound(env, s.w.trace, s.g.session);
    var (sent, listed) := Endpoints(env.gateway, s.w.trace, s.g.session.accessToken);
    if listed.Success? && Snapshot(env.settings, env.profiles, listed.value).Some? {
      var found := Snapshot(env.settings, env.profiles, listed.value).value;
      BindIsFaithful(env.settings, env.profiles, listed.value);
      assert found.devices == s.g.devices;
      var bound := s.(w := s.w.(trace := sent),
                      g := s.g.(devices := found.devices, bindings := found.bindings, inventoryAt := now));
      assert s.g.availability.Keys == found.bindings.Keys;
      MarkAllIsUniform(env, bound, Online);
    }
  }

  /** What one maintenance step guarantees: on success no renewal is pending, every device is online, the
      inventory is fresh and so is the session; on failure nothing about the devices has changed. */
  ghost predicate Maintained(env: Env, s: Sys, r: Sys, e: Option<Error>, now: Instant) {
    && Configured(env, r.g)
    && Sound(r.w.trace, r.g.session) && Quiet(s.w.trace, r.w.trace)
    && r.g.closed == s.g.closed && r.g.nextRefreshAt == s.g.nextRefreshAt && r.g.devices == s.g.devices
    && (e.None? ==>
          && !r.g.forceRenew && AllAre(r.g, Online)
          && now - r.g.inventoryAt < INVENTORY_FRESHNESS
          && (|| (r.g.session == s.g.session && r.g.session.expiresAt > now + SESSION_REFRESH_MARGIN)
              || RenewedSince(s.w.trace, r.w.trace, r.g.session)))
    && (e.Some? ==> r.g.availability == s.g.availability && (r.g.forceRenew ==> s.g.forceRenew))
  }

  /** The session was committed to the file after the earlier history. */
  ghost predicate RenewedSince(earlier: seq<Event>, later: seq<Event>, s: LocalSession) {
    exists i :: |earlier| <= i < |later| && later[i] == Committed(s)
  }

  lemma QuietIsTransitive(a: seq<Event>, b: seq<Event>, c: seq<Event>)
    requires Quiet(a, b) && Quiet(b, c)
    ensures Quiet(a, c)
  {
  }

  lemma MaintainIsSound(env: Env, s: Sys)
    requires Configured(env, s.g) && Sound(s.w.trace, s.g.session)
    ensures Maintained(env, s, Maintain(env, s).0, Maintain(env, s).1, env.clock(s.w.ticks))
  {
    hide Rotate, Rediscover, Posts, AssertedDevices, PersistedFirst;
    var now := env.clock(s.w.ticks);
    var s0 := s.(w := Tick(s.w));
    var rotates := s.g.forceRenew || NeedsRenewal(s.g.session, now);
    if rotates {
      RotateIsSound(env, s0, now);
    }
    var (s1, e1) := if rotates then Rotate(env, s0, now) else (s0, None);
    assert Quiet(s.w.trace, s1.w.trace);
    assert Configured(env, s1.g);
    if e1.None? && rotates {
      assert s1.w.trace[|s1.w.trace| - 1] == Committed(s1.g.session);
    }
    if e1.None? && !(now - s1.g.inventoryAt < INVENTORY_FRESHNESS && !AnyOffline(s1.g)) {
      RediscoverIsSound(env, s1, now);
      var (s2, e2) := Rediscover(env, s1, now);
      QuietIsTransitive(s.w.trace, s1.w.trace, s2.w.trace);
      if rotates {
        assert s2.w.trace[|s1.w.trace| - 1] == Committed(s1.g.session);
      }
    }
  }
}
