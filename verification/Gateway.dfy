/** `HarmonyG2Backend` as the object it is: fields updated in place by its methods
    (backends/harmony_g2/backend.py). */
module Gateway {
  import opened Wrappers
  import opened Identity
  import opened Calendar
  import opened Session
  import opened Transport
  import opened Client
  import opened Store
  import opened Model
  import opened Backend

  /** An arbitrary clock: each call consumes the next reading. */
  class Clock {
    const readings: nat -> Instant
    var ticks: nat

    constructor (readings: nat -> Instant)
      ensures this.readings == readings && ticks == 0
    {
      this.readings := readings;
      ticks := 0;
    }

    method Now() returns (t: Instant)
      modifies this
      ensures t == readings(old(ticks)) && ticks == old(ticks) + 1
    {
      t := readings(ticks);
      ticks := ticks + 1;
    }
  }

  lemma {:induction false} BindPrefix(settings: seq<Setting>, profiles: seq<Profile>, endpoints: seq<G2Endpoint>,
                                      i: nat)
    requires i <= |settings| && Bind(settings[..i], profiles, endpoints).None?
    ensures Bind(settings, profiles, endpoints).None?
  {
    hide Matches, FindProfile, AssertedDevice;
    if i < |settings| {
      assert settings[..|settings| - 1][..i] == settings[..i];
      BindPrefix(settings[..|settings| - 1], profiles, endpoints, i);
    } else {
      assert settings[..i] == settings;
    }
  }

  /** `_snapshot`, with its growing list and dictionary. */
  method TakeSnapshot(settings: seq<Setting>, profiles: seq<Profile>, endpoints: seq<G2Endpoint>)
    returns (r: Option<Bound>)
    ensures r == Snapshot(settings, profiles, endpoints)
  {
    hide Matches, FindProfile, AssertedDevice;
    if settings == [] {
      return None;
    }
    var devices: seq<RuntimeDevice>, bindings: map<DeviceId, G2Endpoint> := [], map[];
    for i := 0 to |settings|
      invariant Bind(settings[..i], profiles, endpoints) == Some(Bound(devices, bindings))
    {
      assert settings[..i + 1][..i] == settings[..i];
      var configured := settings[i];
      if configured.deviceId in bindings {
        BindPrefix(settings, profiles, endpoints, i + 1);
        return None;
      }
      var matches := Matches(endpoints, configured);
      if |matches| != 1 {
        BindPrefix(settings, profiles, endpoints, i + 1);
        return None;
      }
      var profile := FindProfile(profiles, configured.profileId);
      if profile.None? {
        BindPrefix(settings, profiles, endpoints, i + 1);
        return None;
      }
      devices := devices + [AssertedDevice(configured, profile.value)];
      bindings := bindings[configured.deviceId := matches[0]];
    }
    assert settings[..|settings|] == settings;
    return Some(Bound(devices, bindings));
  }

  lemma MarkIdsStep(clock: nat -> Instant, availability: map<DeviceId, Availability>, ids: seq<DeviceId>, i: nat,
                    state: AvailabilityState, ticks: nat)
    requires i < |ids|
    ensures MarkIds(clock, availability, ids[..i + 1], state, ticks)
         == MarkIds(clock, availability, ids[..i], state, ticks)[ids[i] := Availability(state, clock(ticks + i))]
  {
    assert ids[..i + 1][..i] == ids[..i];
  }

  class HarmonyG2Backend {
    const settings: seq<Setting>
    const profiles: seq<Profile>
    const store: SessionStore
    const client: G2Client
    const clock: Clock
    var session: LocalSession
    var devices: seq<RuntimeDevice>
    var bindings: map<DeviceId, G2Endpoint>
    var inventoryAt: Instant
    var nextRefreshAt: int
    var forceRenew: bool
    var closed: bool
    var availability: map<DeviceId, Availability>

    /** The store and the transport record into one history. */
    ghost predicate Valid() {
      store.journal == client.transport.journal
    }

    ghost function Setup(): Env {
      Env(clock.readings, client.transport.gateway, store.fs, settings, profiles)
    }

    ghost function State(): Sys
      reads this, clock, store, client.transport.journal
    {
      Sys(G2(session, devices, bindings, inventoryAt, nextRefreshAt, forceRenew, closed, availability),
          World(clock.ticks, store.State(), client.transport.journal.events))
    }

    constructor (settings: seq<Setting>, profiles: seq<Profile>, store: SessionStore, client: G2Client, clock: Clock,
                 session: LocalSession, found: Bound, discoveredAt: Instant)
      ensures this.settings == settings && this.profiles == profiles
      ensures this.store == store && this.client == client && this.clock == clock
      ensures State() == Sys(Fresh(session, found, discoveredAt),
                             World(clock.ticks, store.State(), client.transport.journal.events))
    {
      this.settings, this.profiles := settings, profiles;
      this.store, this.client, this.clock := store, client, clock;
      this.session, this.devices, this.bindings := session, found.devices, found.bindings;
      this.inventoryAt, this.nextRefreshAt := discoveredAt, discoveredAt + INVENTORY_FRESHNESS;
      this.forceRenew, this.closed := false, false;
      this.availability := map d | d in found.devices :: d.deviceId := Availability(Online, discoveredAt);
    }

    /** The first half of `open`. */
    static method TakeSession(store: SessionStore, client: G2Client, now: Instant, ghost env: Env, ghost ticks: nat)
      returns (s: Result<LocalSession, Error>)
      requires store.journal == client.transport.journal
      requires env.gateway == client.transport.gateway && env.fs == store.fs
      modifies store, store.journal
      ensures (World(ticks, store.State(), store.journal.events), s)
           == OpenSession(env, old(World(ticks, store.State(), store.journal.events)), now)
    {
      hide Load, Renew, Save;
      s := store.LoadSession();
      if s.Failure? || s.value.expiresAt > now + SESSION_REFRESH_MARGIN {
        return;
      }
      var renewed := client.RenewSession(s.value, now);
      if renewed.Failure? {
        return Failure(renewed.error);
      }
      var ok := store.SaveSession(renewed.value);
      if !ok {
        return Failure(Validation);
      }
      return Success(renewed.value);
    }

    /** `open`; when it raises, `backend` is null and `e` the exception. */
    static method OpenBackend(settings: seq<Setting>, profiles: seq<Profile>, store: SessionStore,
                              client: G2Client, clock: Clock) returns (backend: HarmonyG2Backend?, e: Option<Error>)
      requires store.journal == client.transport.journal
      modifies store, clock, store.journal
      ensures var env := Env(clock.readings, client.transport.gateway, store.fs, settings, profiles);
              var (w, g) := Open(env, old(World(clock.ticks, store.State(), store.journal.events)));
              && World(clock.ticks, store.State(), store.journal.events) == w
              && (backend == null <==> g.Failure?)
              && e == (if g.Failure? then Some(g.error) else None)
              && (backend != null ==> fresh(backend) && backend.Valid() && backend.Setup() == env
                                      && backend.State() == Sys(g.value, w)
                                      && backend.store == store && backend.client == client && backend.clock == clock)
    {
      hide OpenSession, Endpoints, Snapshot, Fresh;
      ghost var env := Env(clock.readings, client.transport.gateway, store.fs, settings, profiles);
      var now := clock.Now();
      var session := TakeSession(store, client, now, env, clock.ticks);
      if session.Failure? {
        return null, Some(session.error);
      }
      var endpoints := client.ReadInventory(session.value.accessToken);
      if endpoints.Failure? {
        return null, Some(endpoints.error);
      }
      var found := TakeSnapshot(settings, profiles, endpoints.value);
      if found.None? {
        return null, Some(Validation);
      }
      e := None;
      backend := new HarmonyG2Backend(settings, profiles, store, client, clock, session.value, found.value, now);
    }

    /** `_mark_device`. */
    method MarkDevice(id: DeviceId, state: AvailabilityState)
      modifies this`availability, clock
      ensures State() == MarkOne(Setup(), old(State()), id, state)
    {
      var now := clock.Now();
      availability := availability[id := Availability(state, now)];
    }

    /** `_mark_all`. */
    method MarkEvery(state: AvailabilityState)
      modifies this`availability, clock
      ensures State() == MarkAll(Setup(), old(State()), state)
    {
      ghost var ids := Ids(devices);
      assert MarkIds(clock.readings, availability, ids[..0], state, clock.ticks) == availability;
      hide MarkIds;
      for i := 0 to |devices|
        invariant clock.ticks == old(clock.ticks) + i
        invariant availability == MarkIds(clock.readings, old(availability), ids[..i], state, old(clock.ticks))
      {
        MarkDevice(devices[i].deviceId, state);
        MarkIdsStep(clock.readings, old(availability), ids, i, state, old(clock.ticks));
      }
      assert ids[..|devices|] == ids;
    }

    /** The renewal branch of `_maintain`: the new session is saved before it is used. */
    method RotateSession(now: Instant) returns (e: Option<Error>)
      requires Valid()
      modifies this, store, store.journal
      ensures (State(), e) == Rotate(Setup(), old(State()), now)
    {
      hide Renew, Save;
      var renewed := client.RenewSession(session, now);
      if renewed.Failure? {
        return Some(renewed.error);
      }
      var ok := store.SaveSession(renewed.value);
      if !ok {
        return Some(Validation);
      }
      session := renewed.value;
      forceRenew := false;
      return None;
    }

    /** The inventory branch of `_maintain`. */
    method RediscoverDevices(now: Instant) returns (e: Option<Error>)
      requires Valid()
      modifies this, clock, store.journal
      ensures (State(), e) == Rediscover(Setup(), old(State()), now)
    {
      hide Endpoints, Snapshot, MarkAll;
      var endpoints := client.ReadInventory(session.accessToken);
      if endpoints.Failure? {
        return Some(endpoints.error);
      }
      var found := TakeSnapshot(settings, profiles, endpoints.value);
      if found.None? {
        return Some(Validation);
      }
      devices, bindings, inventoryAt := found.value.devices, found.value.bindings, now;
      MarkEvery(Online);
      return None;
    }

    /** `_maintain`; the error it raises, if any. */
    method MaintainSession() returns (e: Option<Error>)
      requires Valid()
      modifies this, clock, store, store.journal
      ensures (State(), e) == Maintain(Setup(), old(State()))
    {
      hide Rotate, Rediscover;
      var now := clock.Now();
      if forceRenew || session.expiresAt <= now + SESSION_REFRESH_MARGIN {
        e := RotateSession(now);
        if e.Some? {
          return;
        }
      }
      var inventoryStale := now - inventoryAt >= INVENTORY_FRESHNESS;
      var anyOffline := exists id | id in availability :: availability[id].state != Online;
      if !inventoryStale && !anyOffline {
        return None;
      }
      e := RediscoverDevices(now);
    }

    /** The handler that `refresh` and `set_desired` share for a failed maintenance. */
    method HandleFailure(e: Error)
      modifies this, clock
      ensures State() == AfterFailure(Setup(), old(State()), e)
    {
      if IsAuthRefusal(e) {
        forceRenew := true;
      }
      MarkEvery(Offline);
    }

    /** `refresh`; the exception that escapes it, if any. */
    method RefreshBackend() returns (escaped: Option<Error>)
      requires Valid()
      modifies this, clock, store, store.journal
      ensures (State(), escaped) == Refresh(Setup(), old(State()))
    {
      hide Maintain, AfterFailure;
      if closed {
        return None;
      }
      var now := clock.Now();
      if now < nextRefreshAt {
        return None;
      }
      nextRefreshAt := now + INVENTORY_FRESHNESS;
      var e := MaintainSession();
      if e == Some(Uncaught) {
        return e;
      }
      if e.Some? {
        HandleFailure(e.value);
      }
      return None;
    }

    /** `set_desired`; Failure stands for an exception that escapes it. */
    method SetDesiredState(c: Command) returns (r: Result<CommandResult, Error>)
      requires Valid()
      modifies this, clock, store, store.journal
      ensures (State(), r) == SetDesired(Setup(), old(State()), c)
    {
      hide Maintain, AfterFailure, MarkAll, SetOnOff;
      var g := G2(session, devices, bindings, inventoryAt, nextRefreshAt, forceRenew, closed, availability);
      var problem := Problem(g, c);
      if problem.Some? {
        return Success(CommandResult(c.requestId, Rejected(problem.value)));
      }
      var failed := MaintainSession();
      if failed == Some(Uncaught) {
        return Failure(Uncaught);
      }
      if failed.Some? {
        HandleFailure(failed.value);
        return Success(CommandResult(c.requestId, Rejected("G2 maintenance failed before command")));
      }
      if c.deviceId !in bindings {
        MarkEvery(Offline);
        return Success(CommandResult(c.requestId, Rejected("G2 binding is unavailable")));
      }
      var e := client.SwitchOnOff(bindings[c.deviceId], c.desired.b, session.accessToken);
      match e {
        case None =>
          MarkDevice(c.deviceId, Online);
          return Success(CommandResult(c.requestId, Accepted));
        case Some(Validation) =>
          return Failure(Validation);
        case Some(Uncaught) =>
          return Failure(Uncaught);
        case Some(Response(status)) =>
          if status == Some(400) || status == Some(401) || status == Some(403) {
            if status != Some(400) {
              HandleFailure(e.value);
            }
            return Success(CommandResult(c.requestId, Rejected("G2 refused command")));
          }
          MarkEvery(Offline);
          return Success(CommandResult(c.requestId, Indeterminate));
        case Some(Transport(started)) =>
          MarkEvery(Offline);
          if started {
            return Success(CommandResult(c.requestId, Indeterminate));
          }
          return Success(CommandResult(c.requestId, Rejected("G2 command was not submitted")));
      }
    }

    /** `availability`: an unknown device is reported unknown, at a fresh clock reading. */
    method AvailabilityOf(id: DeviceId) returns (a: Availability)
      modifies clock
      ensures id in availability ==> a == availability[id] && clock.ticks == old(clock.ticks)
      ensures id !in availability ==> a == Availability(Unknown, clock.readings(old(clock.ticks)))
                                      && clock.ticks == old(clock.ticks) + 1
    {
      if id in availability {
        return availability[id];
      }
      var now := clock.Now();
      return Availability(Unknown, now);
    }

    /** `close`. */
    method CloseBackend()
      modifies this, clock
      ensures State() == Close(Setup(), old(State()))
    {
      if closed {
        return;
      }
      closed := true;
      MarkEvery(Offline);
    }
  }
}
