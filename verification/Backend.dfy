/** The command-only gateway backend as a state machine over an arbitrary clock, gateway and file system
    (backends/harmony_g2/backend.py). */
module Backend {
  import opened Wrappers
  import opened Identity
  import opened Calendar
  import opened Session
  import opened Transport
  import opened Client
  import opened Store
  import opened Model

  const SESSION_REFRESH_MARGIN := 5 * 60 * MICROS_PER_SECOND
  const INVENTORY_FRESHNESS := 60 * MICROS_PER_SECOND

  datatype Setting = Setting(deviceId: DeviceId, name: string, profileId: string, componentId: string)

  // ---- binding the configuration to an inventory ----

  /** A comprehension over a tuple: the elements that the condition admits, in order. */
  function Filter<T>(s: seq<T>, admits: T -> bool): seq<T> {
    if s == [] then []
    else Filter(s[..|s| - 1], admits) + if admits(s[|s| - 1]) then [s[|s| - 1]] else []
  }

  function Matches(endpoints: seq<G2Endpoint>, c: Setting): seq<G2Endpoint> {
    Filter(endpoints, HasPairOf(c))
  }

  function HasPairOf(c: Setting): G2Endpoint -> bool {
    (p: G2Endpoint) => p.deviceId == c.deviceId && p.componentId == c.componentId
  }

  function ProfilesNamed(profiles: seq<Profile>, id: string): seq<Profile> {
    Filter(profiles, HasName(id))
  }

  function HasName(id: string): Profile -> bool {
    (p: Profile) => p.profileId == id
  }

  /** `_profile`: the one profile of that name, if it can switch the primary endpoint. */
  function FindProfile(profiles: seq<Profile>, id: string): (found: Option<Profile>)
    ensures found.Some? ==> found.value.models != []
  {
    var named := ProfilesNamed(profiles, id);
    if |named| != 1 || PRIMARY_ENDPOINT !in named[0].endpoints then None
    else if CapabilityProfile(OnOff, true) !in named[0].endpoints[PRIMARY_ENDPOINT] || named[0].models == [] then None
    else Some(named[0])
  }

  function AssertedDevice(c: Setting, profile: Profile): (device: RuntimeDevice)
    requires profile.models != []
    ensures device.deviceId == c.deviceId
  {
    RuntimeDevice(c.deviceId, profile.manufacturer, profile.models[0], profile.endpoints.Keys, c.name,
                  profile.profileId, [RuntimeCapability(PRIMARY_ENDPOINT, OnOff, CommandOnly)])
  }

  datatype Bound = Bound(devices: seq<RuntimeDevice>, bindings: map<DeviceId, G2Endpoint>)

  /** The loop of `_snapshot` over the first settings. */
  function Bind(settings: seq<Setting>, profiles: seq<Profile>, endpoints: seq<G2Endpoint>): Option<Bound> {
    if settings == [] then Some(Bound([], map[]))
    else
      var c := settings[|settings| - 1];
      match Bind(settings[..|settings| - 1], profiles, endpoints)
      case None => None
      case Some(so) =>
        var matches, profile := Matches(endpoints, c), FindProfile(profiles, c.profileId);
        if c.deviceId in so.bindings || |matches| != 1 || profile.None? then None
        else Some(Bound(so.devices + [AssertedDevice(c, profile.value)], so.bindings[c.deviceId := matches[0]]))
  }

  /** `_snapshot`; None stands for its ValidationError. */
  function Snapshot(settings: seq<Setting>, profiles: seq<Profile>, endpoints: seq<G2Endpoint>): Option<Bound> {
    if settings == [] then None else Bind(settings, profiles, endpoints)
  }

  /** What the configuration alone asserts about the devices. */
  function AssertedDevices(settings: seq<Setting>, profiles: seq<Profile>): Option<seq<RuntimeDevice>> {
    if settings == [] then Some([])
    else
      var c := settings[|settings| - 1];
      match (AssertedDevices(settings[..|settings| - 1], profiles), FindProfile(profiles, c.profileId))
      case (Some(so), Some(profile)) => Some(so + [AssertedDevice(c, profile)])
      case _ => None
  }

  // ---- the system: backend, clock, session file and history ----

  datatype Env = Env(
    clock: nat -> Instant, gateway: Gateway, fs: FileSystem, settings: seq<Setting>, profiles: seq<Profile>)

  datatype World = World(ticks: nat, store: StoreState, trace: seq<Event>)

  datatype G2 = G2(
    session: LocalSession, devices: seq<RuntimeDevice>, bindings: map<DeviceId, G2Endpoint>,
    inventoryAt: Instant, nextRefreshAt: int, forceRenew: bool, closed: bool,
    availability: map<DeviceId, Availability>)

  datatype Sys = Sys(g: G2, w: World)

  function Tick(w: World): World {
    w.(ticks := w.ticks + 1)
  }

  /** `_mark_device` for the first ids, one clock reading each. */
  function MarkIds(clock: nat -> Instant, availability: map<DeviceId, Availability>, ids: seq<DeviceId>,
                   state: AvailabilityState, ticks: nat): map<DeviceId, Availability>
  {
    if ids == [] then availability
    else
      var n := |ids| - 1;
      MarkIds(clock, availability, ids[..n], state, ticks)[ids[n] := Availability(state, clock(ticks + n))]
  }

  /** `_mark_all`. */
  function MarkAll(env: Env, s: Sys, state: AvailabilityState): Sys {
    var ids := Ids(s.g.devices);
    Sys(s.g.(availability := MarkIds(env.clock, s.g.availability, ids, state, s.w.ticks)),
        s.w.(ticks := s.w.ticks + |ids|))
  }

  function MarkOne(env: Env, s: Sys, id: DeviceId, state: AvailabilityState): Sys {
    Sys(s.g.(availability := s.g.availability[id := Availability(state, env.clock(s.w.ticks))]), Tick(s.w))
  }

  predicate NeedsRenewal(s: LocalSession, now: Instant) {
    s.expiresAt <= now + SESSION_REFRESH_MARGIN
  }

  /** Renewing and saving before the new session is used. */
  function Rotate(env: Env, s: Sys, now: Instant): (Sys, Option<Error>)
  {
    var (sent, renewed) := Renew(env.gateway, s.w.trace, s.g.session, now);
    match renewed
    case Failure(e) => (s.(w := s.w.(trace := sent)), Some(e))
    case Success(next) =>
      var (store, saved, ok) := Save(env.fs, s.w.store, sent, next);
      var w := s.w.(store := store, trace := saved);
      if !ok then (s.(w := w), Some(Validation)) else (Sys(s.g.(session := next, forceRenew := false), w), None)
  }

  /** Reading the inventory again and rebinding the configured devices. */
  function Rediscover(env: Env, s: Sys, now: Instant): (Sys, Option<Error>)
  {
    var (sent, listed) := Endpoints(env.gateway, s.w.trace, s.g.session.accessToken);
    var s1 := s.(w := s.w.(trace := sent));
    match listed
    case Failure(e) => (s1, Some(e))
    case Success(endpoints) =>
      match Snapshot(env.settings, env.profiles, endpoints)
      case None => (s1, Some(Validation))
      case Some(found) =>
        var bound := s1.g.(devices := found.devices, bindings := found.bindings, inventoryAt := now);
        (MarkAll(env, s1.(g := bound), Online), None)
  }

  predicate AnyOffline(g: G2) {
    exists id | id in g.availability :: g.availability[id].state != Online
  }

  /** `_maintain`; the error it raises, if any. */
  function Maintain(env: Env, s: Sys): (Sys, Option<Error>)
  {
    var now := env.clock(s.w.ticks);
    var s0 := s.(w := Tick(s.w));
    var (s1, e) := if s.g.forceRenew || NeedsRenewal(s.g.session, now) then Rotate(env, s0, now) else (s0, None);
    if e.Some? then (s1, e)
    else if now - s1.g.inventoryAt < INVENTORY_FRESHNESS && !AnyOffline(s1.g) then (s1, None)
    else Rediscover(env, s1, now)
  }

  predicate IsAuthRefusal(e: Error) {
    e.Response? && (e.status == Some(401) || e.status == Some(403))
  }

  /** What a failed maintenance leaves behind: a pending renewal after 401 or 403, and every device offline. */
  function AfterFailure(env: Env, s: Sys, e: Error): Sys {
    MarkAll(env, s.(g := s.g.(forceRenew := s.g.forceRenew || IsAuthRefusal(e))), Offline)
  }

  /** `refresh`; the exception that escapes it, if any, which is no RescueError. */
  function Refresh(env: Env, s: Sys): (Sys, Option<Error>)
  {
    if s.g.closed then (s, None)
    else
      var now := env.clock(s.w.ticks);
      var s0 := s.(w := Tick(s.w));
      if now < s.g.nextRefreshAt then (s0, None)
      else
        var (s1, e) := Maintain(env, s0.(g := s0.g.(nextRefreshAt := now + INVENTORY_FRESHNESS)));
        if e.None? || e.value.Uncaught? then (s1, e) else (AfterFailure(env, s1, e.value), None)
  }

  function Problem(g: G2, c: Command): Option<string> {
    if g.closed then Some("backend is closed")
    else if c.deviceId !in g.bindings then Some("unknown device")
    else if c.endpoint != PRIMARY_ENDPOINT then Some("unknown endpoint")
    else if c.capability != OnOff then Some("unsupported capability")
    else if !c.desired.BoolValue? then Some("desired value must be boolean")
    else None
  }

  /** The command request itself, its outcome and what it does to availability. Failure stands for an exception that
      escapes `set_desired`. */
  function Submit(env: Env, s: Sys, endpoint: G2Endpoint, c: Command, on: bool): (Sys, Result<CommandResult, Error>)
  {
    var (sent, e) := SetOnOff(env.gateway, s.w.trace, endpoint, on, s.g.session.accessToken);
    var s1 := s.(w := s.w.(trace := sent));
    match e
    case None => (MarkOne(env, s1, c.deviceId, Online), Success(CommandResult(c.requestId, Accepted)))
    case Some(Validation) => (s1, Failure(Validation))
    case Some(Uncaught) => (s1, Failure(Uncaught))
    case Some(Response(status)) =>
      if status == Some(400) then (s1, Success(CommandResult(c.requestId, Rejected("G2 refused command"))))
      else if IsAuthRefusal(e.value) then
        (AfterFailure(env, s1, e.value), Success(CommandResult(c.requestId, Rejected("G2 refused command"))))
      else (MarkAll(env, s1, Offline), Success(CommandResult(c.requestId, Indeterminate)))
    case Some(Transport(started)) =>
      (MarkAll(env, s1, Offline),
       Success(CommandResult(c.requestId, if started then Indeterminate else Rejected("G2 command was not submitted"))))
  }

  function SetDesired(env: Env, s: Sys, c: Command): (Sys, Result<CommandResult, Error>)
  {
    var problem := Problem(s.g, c);
    if problem.Some? then (s, Success(CommandResult(c.requestId, Rejected(problem.value))))
    else
      var (s1, e) := Maintain(env, s);
      if e == Some(Uncaught) then (s1, Failure(Uncaught))
      else if e.Some? then
        (AfterFailure(env, s1, e.value),
         Success(CommandResult(c.requestId, Rejected("G2 maintenance failed before command"))))
      else if c.deviceId !in s1.g.bindings then
        (MarkAll(env, s1, Offline), Success(CommandResult(c.requestId, Rejected("G2 binding is unavailable"))))
      else Submit(env, s1, s1.g.bindings[c.deviceId], c, c.desired.b)
  }

  function Close(env: Env, s: Sys): Sys {
    if s.g.closed then s else MarkAll(env, s.(g := s.g.(closed := true)), Offline)
  }

  /** The first half of `open`: load, then renew and save if due. */
  function OpenSession(env: Env, w: World, now: Instant): (World, Result<LocalSession, Error>)
  {
    var (loaded, session) := Load(env.fs, w.store, w.trace);
    var w0 := w.(trace := loaded);
    match session
    case Failure(e) => (w0, Failure(e))
    case Success(first) => if NeedsRenewal(first, now) then OpenRotate(env, w0, first, now) else (w0, Success(first))
  }

  /** `open`: get a session, read the inventory, bind; Failure stands for the exception it raises. */
  function Open(env: Env, w: World): (World, Result<G2, Error>)
  {
    var now := env.clock(w.ticks);
    var (w1, session) := OpenSession(env, Tick(w), now);
    match session
    case Failure(e) => (w1, Failure(e))
    case Success(current) =>
      var (sent, listed) := Endpoints(env.gateway, w1.trace, current.accessToken);
      var w2 := w1.(trace := sent);
      if listed.Failure? then (w2, Failure(listed.error))
      else
        match Snapshot(env.settings, env.profiles, listed.value)
        case None => (w2, Failure(Validation))
        case Some(found) => (w2, Success(Fresh(current, found, now)))
  }

  function OpenRotate(env: Env, w: World, s: LocalSession, now: Instant): (World, Result<LocalSession, Error>) {
    var (sent, renewed) := Renew(env.gateway, w.trace, s, now);
    match renewed
    case Failure(e) => (w.(trace := sent), Failure(e))
    case Success(next) =>
      var (store, saved, ok) := Save(env.fs, w.store, sent, next);
      (w.(store := store, trace := saved), if ok then Success(next) else Failure(Validation))
  }

  /** `__init__`: every device starts online at the discovery time. */
  function Fresh(session: LocalSession, found: Bound, now: Instant): G2 {
    G2(session, found.devices, found.bindings, now, now + INVENTORY_FRESHNESS, false, false,
       map d | d in found.devices :: d.deviceId := Availability(Online, now))
  }
}
