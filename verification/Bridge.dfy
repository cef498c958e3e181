/** `BridgeRuntime` as the object it is: the event loop, its flags and its availability cache, over backend
    objects (runtime.py). */
module Bridge {
  import opened Wrappers
  import opened Identity
  import opened Topics
  import opened Session
  import opened Transport
  import opened Store
  import opened Model
  import opened Backend
  import opened Gateway
  import opened Simulator
  import opened Runtime

  /** The broker connection: accepted publications, and calls that may fail. */
  class MqttTransport {
    const accepts: nat -> bool
    var log: seq<Publish>
    var names: seq<string>
    var calls: nat

    constructor (accepts: nat -> bool)
      ensures this.accepts == accepts && State() == Mqtt([], [], 0)
    {
      this.accepts := accepts;
      log, names, calls := [], [], 0;
    }

    ghost function State(): Mqtt
      reads this
    {
      Mqtt(log, names, calls)
    }

    method PublishOne(p: Publish) returns (ok: bool)
      modifies this
      ensures ok == accepts(old(calls))
      ensures State() == Mqtt(if ok then old(log) + [p] else old(log), old(names), old(calls) + 1)
    {
      ok := accepts(calls);
      calls := calls + 1;
      if ok {
        log := log + [p];
      }
    }

    method SubscribeOne(name: string) returns (ok: bool)
      modifies this
      ensures ok == accepts(old(calls))
      ensures State() == Mqtt(old(log), if ok then old(names) + [name] else old(names), old(calls) + 1)
    {
      ok := accepts(calls);
      calls := calls + 1;
      if ok {
        names := names + [name];
      }
    }

    /** The broker publishes the bridge's last will (MQTT 5.0, section 3.1.2.5). */
    method FireWill()
      modifies this
      ensures State() == Mqtt(old(log) + [BRIDGE_OFFLINE], old(names), old(calls))
    {
      log := log + [BRIDGE_OFFLINE];
    }
  }

  /** Any other non-refreshable backend, answering each call as scripted. */
  class ScriptedBackend {
    const script: Script
    var calls: nat

    constructor (script: Script)
      ensures this.script == script && calls == 0
    {
      this.script := script;
      calls := 0;
    }
  }

  datatype AnyBackend =
    | OverGateway(gateway: HarmonyG2Backend)
    | OverSimulator(simulator: SimulatorBackend)
    | OverScript(scripted: ScriptedBackend)

  /** The mode of the last capability that offers the address. */
  function LastModeIn(id: DeviceId, caps: seq<RuntimeCapability>, a: Address): Option<Mode> {
    if caps == [] then None
    else
      var last := caps[|caps| - 1];
      if last.capability == OnOff && a == Address(id, last.endpoint, OnOff) then Some(last.mode)
      else LastModeIn(id, caps[..|caps| - 1], a)
  }

  function LastMode(devices: seq<RuntimeDevice>, a: Address): Option<Mode> {
    if devices == [] then None
    else
      var last := devices[|devices| - 1];
      match LastModeIn(last.deviceId, last.capabilities, a)
      case Some(mode) => Some(mode)
      case None => LastMode(devices[..|devices| - 1], a)
  }

  /** The same once the first capabilities of the last device are read as well. */
  function LastModeSoFar(before: seq<RuntimeDevice>, id: DeviceId, caps: seq<RuntimeCapability>, a: Address)
    : Option<Mode>
  {
    match LastModeIn(id, caps, a)
    case Some(mode) => Some(mode)
    case None => LastMode(before, a)
  }

  /** `_find_capability_modes`: the on/off addresses of the devices, each in the mode that is declared last. */
  method FindCapabilityModes(devices: seq<RuntimeDevice>) returns (modes: map<Address, Mode>, addresses: seq<Address>)
    ensures FindsModes(devices, modes, addresses)
    ensures forall a :: LastMode(devices, a) == if a in modes then Some(modes[a]) else None
    ensures forall i, j | 0 <= i < j < |addresses| :: addresses[i] != addresses[j]
  {
    modes, addresses := map[], [];
    for i := 0 to |devices|
      invariant FindsModes(devices[..i], modes, addresses)
      invariant i < |devices| ==> KeepsLast(devices[..i], devices[i].deviceId, [], modes)
      invariant i == |devices| ==> forall a :: LastMode(devices, a) == if a in modes then Some(modes[a]) else None
      invariant forall j, k | 0 <= j < k < |addresses| :: addresses[j] != addresses[k]
    {
      modes, addresses := AddDeviceModes(devices[..i], devices[i], modes, addresses);
      LastOfMore(devices[..i], devices[i], modes);
      assert devices[..i] + [devices[i]] == devices[..i + 1];
    }
    assert devices[..|devices|] == devices;
  }

  lemma LastOfMore(before: seq<RuntimeDevice>, d: RuntimeDevice, modes: map<Address, Mode>)
    requires KeepsLast(before, d.deviceId, d.capabilities, modes)
    ensures forall a :: LastMode(before + [d], a) == if a in modes then Some(modes[a]) else None
    ensures forall id :: KeepsLast(before + [d], id, [], modes)
  {
    hide LastModeIn;
    assert (before + [d])[..|before|] == before;
    forall a ensures LastMode(before + [d], a) == LastModeSoFar(before, d.deviceId, d.capabilities, a) {
    }
    forall id, a ensures LastModeSoFar(before + [d], id, [], a) == LastMode(before + [d], a) {
      NoLastIn(id, a);
    }
  }

  lemma NoLastIn(id: DeviceId, a: Address)
    ensures LastModeIn(id, [], a) == None
  {
  }

  /** What has been found once the first capabilities of the last device are read as well. */
  ghost predicate FindsSoFar(before: seq<RuntimeDevice>, d: RuntimeDevice, caps: seq<RuntimeCapability>,
                             modes: map<Address, Mode>, addresses: seq<Address>)
  {
    && (forall a :: a in modes <==> a in addresses)
    && (forall a | a in modes :: ProvidedBy(before, a, modes[a])
          || exists c | c in caps :: Provides(d, c, a) && c.mode == modes[a])
    && (forall e, c, a | e in before && c in e.capabilities && Provides(e, c, a) :: a in modes)
    && (forall c, a | c in caps && Provides(d, c, a) :: a in modes)
  }

  /** Each address has the mode that was declared last so far. */
  ghost predicate KeepsLast(before: seq<RuntimeDevice>, id: DeviceId, caps: seq<RuntimeCapability>,
                            modes: map<Address, Mode>)
  {
    forall a :: LastModeSoFar(before, id, caps, a) == if a in modes then Some(modes[a]) else None
  }

  lemma FindsOneMore(before: seq<RuntimeDevice>, d: RuntimeDevice, caps: seq<RuntimeCapability>, c: RuntimeCapability,
                     modes: map<Address, Mode>, addresses: seq<Address>)
    requires FindsSoFar(before, d, caps, modes, addresses) && c in d.capabilities
    ensures var a := Address(d.deviceId, c.endpoint, OnOff);
            if c.capability == OnOff then
              FindsSoFar(before, d, caps + [c], modes[a := c.mode], if a in modes then addresses else addresses + [a])
            else FindsSoFar(before, d, caps + [c], modes, addresses)
  {
    hide ProvidedBy;
    assert forall x :: x in caps + [c] <==> x in caps || x == c;
    if c.capability == OnOff {
      assert Provides(d, c, Address(d.deviceId, c.endpoint, OnOff));
    }
  }

  lemma LastOneMore(before: seq<RuntimeDevice>, id: DeviceId, caps: seq<RuntimeCapability>, c: RuntimeCapability,
                    modes: map<Address, Mode>)
    requires KeepsLast(before, id, caps, modes)
    ensures KeepsLast(before, id, caps + [c],
                      if c.capability == OnOff then modes[Address(id, c.endpoint, OnOff) := c.mode] else modes)
  {
    hide LastMode;
    assert (caps + [c])[..|caps|] == caps;
  }

  method AddDeviceModes(ghost before: seq<RuntimeDevice>, d: RuntimeDevice, modes0: map<Address, Mode>,
                        addresses0: seq<Address>)
    returns (modes: map<Address, Mode>, addresses: seq<Address>)
    requires FindsModes(before, modes0, addresses0) && KeepsLast(before, d.deviceId, [], modes0)
    requires forall i, j | 0 <= i < j < |addresses0| :: addresses0[i] != addresses0[j]
    ensures FindsModes(before + [d], modes, addresses) && KeepsLast(before, d.deviceId, d.capabilities, modes)
    ensures forall i, j | 0 <= i < j < |addresses| :: addresses[i] != addresses[j]
  {
    assert FindsSoFar(before, d, [], modes0, addresses0);
    hide FindsSoFar, FindsModes, KeepsLast;
    modes, addresses := modes0, addresses0;
    NothingLost(before, d, modes, addresses);
    for i := 0 to |d.capabilities|
      invariant FindsSoFar(before, d, d.capabilities[..i], modes, addresses)
      invariant KeepsLast(before, d.deviceId, d.capabilities[..i], modes)
      invariant forall a :: a in modes <==> a in addresses
      invariant forall j, k | 0 <= j < k < |addresses| :: addresses[j] != addresses[k]
    {
      var c := d.capabilities[i];
      assert d.capabilities[..i + 1] == d.capabilities[..i] + [c];
      FindsOneMore(before, d, d.capabilities[..i], c, modes, addresses);
      LastOneMore(before, d.deviceId, d.capabilities[..i], c, modes);
      if c.capability == OnOff {
        var address := Address(d.deviceId, c.endpoint, OnOff);
        if address !in modes {
          addresses := addresses + [address];
        }
        modes := modes[address := c.mode];
      }
    }
    assert d.capabilities[..|d.capabilities|] == d.capabilities;
    FoundAll(before, d, modes, addresses);
  }

  lemma NothingLost(before: seq<RuntimeDevice>, d: RuntimeDevice, modes: map<Address, Mode>, addresses: seq<Address>)
    requires FindsSoFar(before, d, [], modes, addresses)
    ensures forall a :: a in modes <==> a in addresses
  {
  }

  lemma FoundAll(before: seq<RuntimeDevice>, d: RuntimeDevice, modes: map<Address, Mode>, addresses: seq<Address>)
    requires FindsSoFar(before, d, d.capabilities, modes, addresses)
    ensures FindsModes(before + [d], modes, addresses)
  {
    var devices := before + [d];
    assert d in devices && forall e | e in before :: e in devices;
    forall a | a in modes ensures ProvidedBy(devices, a, modes[a]) {
      if ProvidedBy(before, a, modes[a]) {
        var e, c :| e in before && c in e.capabilities && Provides(e, c, a) && c.mode == modes[a];
        assert e in devices;
      } else {
        var c :| c in d.capabilities && Provides(d, c, a) && c.mode == modes[a];
        assert d in devices;
      }
    }
    forall e, c, a | e in devices && c in e.capabilities && Provides(e, c, a) ensures a in modes {
      assert e in before || e == d;
    }
  }

  /** `_validate_status_topic`: whether the status topic is none of the generated topics. */
  method ValidateStatusTopic(cfg: Config) returns (ok: bool)
    requires FindsModes(cfg.devices, cfg.modes, cfg.addresses)
    ensures ok <==> ValidConfig(cfg)
  {
    hide Render;
    var generated := {BridgeAvailability};
    for i := 0 to |cfg.devices|
      invariant forall t :: t in generated <==>
        t.BridgeAvailability?
        || exists d ::
             d in cfg.devices[..i] && (t == DiscoveryTopic(d.deviceId) || t == DeviceAvailability(d.deviceId))
    {
      assert cfg.devices[..i + 1] == cfg.devices[..i] + [cfg.devices[i]];
      generated := generated + {DiscoveryTopic(cfg.devices[i].deviceId), DeviceAvailability(cfg.devices[i].deviceId)};
    }
    assert cfg.devices[..|cfg.devices|] == cfg.devices;
    ghost var perDevice := generated;
    for i := 0 to |cfg.addresses|
      invariant forall t :: t in generated
                       <==> t in perDevice || exists a :: a in cfg.addresses[..i] && ForAddress(cfg, a, t)
    {
      assert cfg.addresses[..i + 1] == cfg.addresses[..i] + [cfg.addresses[i]];
      var address := cfg.addresses[i];
      ghost var before := generated;
      generated := generated + {CommandTopic(address)};
      if cfg.modes[address] == Observable {
        generated := generated + {StateTopic(address), ConfidenceTopic(address)};
      } else {
        generated := generated + {LastCommandTopic(address)};
      }
      assert forall t :: t in generated <==> t in before || ForAddress(cfg, address, t);
      assert forall a :: a in cfg.addresses[..i + 1] <==> a in cfg.addresses[..i] || a == address;
    }
    assert cfg.addresses[..|cfg.addresses|] == cfg.addresses;
    forall t ensures t in generated <==> Generated(cfg, t) {
      GeneratedForms(cfg, t);
    }
    ok := forall t | t in generated :: Render(cfg.layout, t) != cfg.statusTopic;
  }

  predicate ForAddress(cfg: Config, a: Address, t: Topic)
    requires a in cfg.modes
  {
    || t == CommandTopic(a)
    || (if cfg.modes[a] == Observable then t == StateTopic(a) || t == ConfidenceTopic(a) else t == LastCommandTopic(a))
  }

  lemma GeneratedForms(cfg: Config, t: Topic)
    requires FindsModes(cfg.devices, cfg.modes, cfg.addresses)
    ensures Generated(cfg, t) <==>
            || t.BridgeAvailability?
            || (exists d :: d in cfg.devices
                            && (t == DiscoveryTopic(d.deviceId) || t == DeviceAvailability(d.deviceId)))
            || (exists a :: a in cfg.addresses && ForAddress(cfg, a, t))
  {
    if a :| a in cfg.addresses && ForAddress(cfg, a, t) {
      assert a in cfg.modes;
    }
    if Generated(cfg, t) && (t.CommandTopic? || t.StateTopic? || t.ConfidenceTopic? || t.LastCommandTopic?) {
      assert t.address in cfg.addresses && ForAddress(cfg, t.address, t);
    }
  }

  lemma NamesInOrder(cfg: Config)
    ensures var names := SubscriptionNames(cfg);
            && |names| == |cfg.addresses| + 1 && names[|cfg.addresses|] == cfg.statusTopic
            && forall i | 0 <= i < |cfg.addresses| :: names[i] == Render(cfg.layout, CommandTopic(cfg.addresses[i]))
  {
    hide Render;
  }

  /** One subscription of the list. */
  lemma SubscribeStep(e: RtEnv, st: St, names: seq<string>)
    ensures names == [] ==> Subscribe(e, st, names) == (st, true)
    ensures names != [] ==>
              var counted := st.(mq := st.mq.(calls := st.mq.calls + 1));
              Subscribe(e, st, names)
              == if e.accepts(st.mq.calls)
                 then Subscribe(e, counted.(mq := counted.mq.(names := st.mq.names + [names[0]])), names[1..])
                 else (counted, false)
  {
  }

  class BridgeRuntime {
    const backend: AnyBackend
    const transport: MqttTransport
    const clock: Clock
    const cfg: Config
    /** How everything below behaves, for specifications. */
    ghost const e: RtEnv
    var connected: bool
    var closed: bool
    var cache: map<DeviceId, AvailabilityState>
    var requests: nat

    /** The environment of the specification is the one the objects have. */
    ghost predicate Valid() {
      && e.accepts == transport.accepts
      && e.env.clock == clock.readings
      && (forall a | a in cfg.addresses :: a in cfg.modes)
      && match backend
         case OverGateway(g) => g.Valid() && g.clock == clock && g.Setup() == e.env
         case OverSimulator(s) => s.clock == clock
         case OverScript(o) => o.script == e.script
    }

    ghost function BackendObjects(): set<object> {
      match backend
      case OverGateway(g) => {g, g.store, g.client.transport.journal}
      case OverSimulator(s) => {s}
      case OverScript(o) => {o}
    }

    ghost function Objects(): set<object> {
      {this, transport, clock} + BackendObjects()
    }

    ghost function Behind(): Back
      reads BackendObjects(), clock
    {
      match backend
      case OverGateway(g) =>
        HarmonyG2(G2(g.session, g.devices, g.bindings, g.inventoryAt, g.nextRefreshAt, g.forceRenew, g.closed,
                     g.availability))
      case OverSimulator(s) => Back.Simulator(s.State())
      case OverScript(o) => Other(o.calls)
    }

    ghost function Below(): World
      reads BackendObjects(), clock
    {
      match backend
      case OverGateway(g) => World(clock.ticks, g.store.State(), g.client.transport.journal.events)
      case OverSimulator(_) => World(clock.ticks, StoreState(0, Disk(None, []), []), [])
      case OverScript(_) => World(clock.ticks, StoreState(0, Disk(None, []), []), [])
    }

    ghost function State(): St
      reads Objects()
    {
      St(connected, cache, requests, Behind(), Below(), transport.State())
    }

    constructor (backend: AnyBackend, transport: MqttTransport, clock: Clock, cfg: Config, ghost e: RtEnv)
      ensures this.backend == backend && this.transport == transport && this.clock == clock && this.cfg == cfg
              && this.e == e
      ensures !connected && !closed && cache == map[] && requests == 0
    {
      this.backend, this.transport, this.clock, this.cfg, this.e := backend, transport, clock, cfg, e;
      connected, closed, cache, requests := false, false, map[], 0;
    }

    // ---- questions to the backend ----

    method AvailabilityState(id: DeviceId) returns (state: Model.AvailabilityState)
      requires Valid()
      modifies Objects()
      ensures (State(), state) == AskAvailability(e, old(State()), id) && closed == old(closed)
    {
      match backend {
        case OverGateway(g) =>
          var a := g.AvailabilityOf(id);
          state := a.state;
        case OverSimulator(s) =>
          var a := s.AvailabilityOf(id);
          state := a.state;
        case OverScript(o) =>
          state := o.script.availability(o.calls, id);
          o.calls := o.calls + 1;
      }
    }

    method ObservationOf(a: Address) returns (seen: Option<Observation>)
      requires Valid()
      modifies Objects()
      ensures (State(), seen) == AskObservation(e, old(State()), a) && closed == old(closed)
    {
      match backend {
        case OverGateway(_) => seen := None;
        case OverSimulator(s) => seen := if a in s.observations then Some(s.observations[a]) else None;
        case OverScript(o) =>
          seen := o.script.observation(o.calls, a);
          o.calls := o.calls + 1;
      }
    }

    method SendCommand(c: Command) returns (r: Result<CommandResult, Error>)
      requires Valid()
      modifies Objects()
      ensures (State(), r) == AskCommand(e, old(State()), c) && closed == old(closed)
    {
      hide SetDesired, SimSetDesired;
      match backend {
        case OverGateway(g) => r := g.SetDesiredState(c);
        case OverSimulator(s) =>
          var result := s.SetDesiredState(c);
          r := Success(result);
        case OverScript(o) =>
          r := o.script.outcome(o.calls, c);
          o.calls := o.calls + 1;
      }
    }

    // ---- publications ----

    method Send(p: Publish) returns (ok: bool)
      requires Valid()
      modifies transport
      ensures (State(), ok) == PublishTo(e, old(State()), p)
    {
      ok := transport.PublishOne(p);
    }

    /** `_publish_observation`. */
    method SendObservation(a: Address, o: Observation) returns (published: bool, ok: bool)
      requires Valid()
      modifies transport
      ensures (State(), published, ok) == PublishObservation(e, old(State()), a, o)
    {
      if !o.value.BoolValue? {
        return false, true;
      }
      ok := Send(StatePublish(a, o.value.b));
      if !ok {
        return false, false;
      }
      ok := Send(ConfidencePublish(a, o.confidence));
      published := ok;
    }

    method SendAvailability(id: DeviceId, state: Model.AvailabilityState) returns (ok: bool)
      requires Valid()
      modifies transport, this`cache
      ensures (State(), ok) == PublishAvailability(e, old(State()), id, state)
    {
      ok := Send(AvailabilityPublish(id, state));
      if ok {
        cache := cache[id := state];
      }
    }

    /** The loop over the addresses of one device in `_publish_snapshot`. */
    method SendAddresses(id: DeviceId) returns (complete: bool, ok: bool)
      requires Valid()
      modifies Objects()
      ensures (State(), complete, ok) == AddressesFrom(e, cfg, old(State()), id, cfg.addresses, true)
              && closed == old(closed)
    {
      hide PublishObservation, AskObservation;
      complete, ok := true, true;
      for i := 0 to |cfg.addresses|
        invariant ok && closed == old(closed)
        invariant AddressesFrom(e, cfg, old(State()), id, cfg.addresses, true)
               == AddressesFrom(e, cfg, State(), id, cfg.addresses[i..], complete)
      {
        var address := cfg.addresses[i];
        assert cfg.addresses[i..][0] == address && cfg.addresses[i..][1..] == cfg.addresses[i + 1..];
        if address.deviceId == id && cfg.modes[address] != CommandOnly {
          var seen := ObservationOf(address);
          if seen.None? {
            complete := false;
          } else {
            var published;
            published, ok := SendObservation(address, seen.value);
            complete := complete && published;
            if !ok {
              return;
            }
          }
        }
      }
    }

    method SendDevice(id: DeviceId) returns (ok: bool)
      requires Valid()
      modifies Objects()
      ensures (State(), ok) == DeviceStep(e, cfg, old(State()), id) && closed == old(closed)
    {
      hide AddressesFrom, AskAvailability, PublishAvailability;
      var complete;
      complete, ok := SendAddresses(id);
      if !ok {
        return;
      }
      var state := AvailabilityState(id);
      ok := SendAvailability(id, if complete then state else Offline);
    }

    /** `_publish_snapshot`. */
    method SendSnapshot() returns (ok: bool)
      requires Valid()
      modifies Objects()
      ensures (State(), ok) == PublishSnapshot(e, cfg, old(State())) && closed == old(closed)
    {
      hide DeviceStep, PublishTo;
      ok := Send(BRIDGE_OFFLINE);
      if !ok {
        return;
      }
      label Discovery:
      for i := 0 to |cfg.devices|
        invariant ok && closed == old(closed)
        invariant DiscoveryFrom(e, old@Discovery(State()), cfg.devices) == DiscoveryFrom(e, State(), cfg.devices[i..])
      {
        var d := cfg.devices[i];
        assert cfg.devices[i..][0] == d && cfg.devices[i..][1..] == cfg.devices[i + 1..];
        ok := Send(Publish(DiscoveryTopic(d.deviceId), DiscoveryDocument(d), QOS, false));
        if !ok {
          return;
        }
      }
      label Devices:
      for i := 0 to |cfg.devices|
        invariant ok && closed == old(closed)
        invariant DevicesFrom(e, cfg, old@Devices(State()), cfg.devices)
                  == DevicesFrom(e, cfg, State(), cfg.devices[i..])
      {
        var d := cfg.devices[i];
        assert cfg.devices[i..][0] == d && cfg.devices[i..][1..] == cfg.devices[i + 1..];
        ok := SendDevice(d.deviceId);
        if !ok {
          return;
        }
      }
      ok := Send(BRIDGE_ONLINE);
    }

    /** `_publish_changed_availability`. */
    method SendChangedAvailability(force: Option<DeviceId>) returns (ok: bool)
      requires Valid()
      modifies Objects()
      ensures (State(), ok) == ChangedFrom(e, old(State()), cfg.devices, force) && closed == old(closed)
    {
      hide AskAvailability, PublishAvailability;
      ok := true;
      for i := 0 to |cfg.devices|
        invariant ok && closed == old(closed)
        invariant ChangedFrom(e, old(State()), cfg.devices, force) == ChangedFrom(e, State(), cfg.devices[i..], force)
      {
        var id := cfg.devices[i].deviceId;
        assert cfg.devices[i..][0] == cfg.devices[i] && cfg.devices[i..][1..] == cfg.devices[i + 1..];
        var state := AvailabilityState(id);
        if !(id in cache && cache[id] == state && force != Some(id)) {
          ok := SendAvailability(id, state);
          if !ok {
            return;
          }
        }
      }
    }

    // ---- messages ----

    method Report(a: Address, on: bool, status: Status) returns (ok: bool)
      requires Valid() && a in cfg.modes
      modifies Objects()
      ensures (State(), ok) == ReportOutcome(e, cfg, old(State()), a, on, status) && closed == old(closed)
    {
      hide ChangedFrom, PublishObservation, PublishTo;
      if cfg.modes[a] == CommandOnly {
        var now := clock.Now();
        ok := Send(Publish(LastCommandTopic(a), LastCommandDocument(on, status, now), QOS, true));
        if !ok {
          return;
        }
        ok := SendChangedAvailability(Some(a.deviceId));
      } else if status.Confirmed? {
        var published;
        published, ok := SendObservation(a, status.observation);
      } else {
        ok := true;
      }
    }

    method Serve(a: Address, on: bool) returns (ok: bool)
      requires Valid() && a in cfg.modes
      modifies Objects()
      ensures (State(), ok) == ServeCommand(e, cfg, old(State()), a, on) && closed == old(closed)
    {
      hide AskCommand, ReportOutcome;
      var c := Command(requests, a.deviceId, a.endpoint, a.capability, BoolValue(on));
      requests := requests + 1;
      var r := SendCommand(c);
      if r.Failure? {
        return false;
      }
      ok := Report(a, on, r.value.status);
    }

    /** `_handle_message`. */
    method Handle(m: BrokerEvent) returns (ok: bool)
      requires Valid() && m.Message?
      modifies Objects()
      ensures (State(), ok) == HandleMessage(e, cfg, old(State()), m) && closed == old(closed)
    {
      hide PublishSnapshot, ServeCommand, AskAvailability, ParseCommandTopic, DecodeOnOff;
      if m.topic == cfg.statusTopic {
        if m.payload == "online" {
          ok := SendSnapshot();
        } else {
          ok := true;
        }
        return;
      }
      if m.retain {
        return true;
      }
      if m.qos != QOS {
        return true;
      }
      var address := ParseCommandTopic(cfg.layout, m.topic);
      if address.None? || address.value !in cfg.addresses {
        return true;
      }
      var state := AvailabilityState(address.value.deviceId);
      if state != Online {
        return true;
      }
      var desired := DecodeOnOff(m.payload);
      if desired.None? {
        return true;
      }
      ok := Serve(address.value, desired.value);
    }

    // ---- the loop ----

    method SubscribeAll() returns (ok: bool)
      requires Valid()
      modifies transport
      ensures (State(), ok) == Subscribe(e, old(State()), SubscriptionNames(cfg))
    {
      hide Render, Subscribe, SubscriptionNames;
      ok := true;
      ghost var all := SubscriptionNames(cfg);
      NamesInOrder(cfg);
      for i := 0 to |cfg.addresses|
        invariant ok
        invariant Subscribe(e, old(State()), all) == Subscribe(e, State(), all[i..])
      {
        SubscribeStep(e, State(), all[i..]);
        assert all[i..][1..] == all[i + 1..];
        ok := transport.SubscribeOne(Render(cfg.layout, CommandTopic(cfg.addresses[i])));
        if !ok {
          return;
        }
      }
      SubscribeStep(e, State(), all[|cfg.addresses|..]);
      ok := transport.SubscribeOne(cfg.statusTopic);
      SubscribeStep(e, State(), []);
      assert all[|cfg.addresses|..][1..] == [];
    }

    method React(event: Option<BrokerEvent>) returns (ok: bool)
      requires Valid()
      modifies Objects()
      ensures (State(), ok) == Dispatch(e, cfg, old(State()), event) && closed == old(closed)
    {
      hide Subscribe, PublishSnapshot, HandleMessage;
      match event {
        case None => ok := true;
        case Some(Connected) =>
          connected := true;
          ok := SubscribeAll();
          if ok {
            ok := SendSnapshot();
          }
        case Some(Disconnected(reason)) =>
          connected := false;
          ok := reason.None?;
        case Some(Message(_, _, _, _)) =>
          if connected {
            ok := Handle(event.value);
          } else {
            ok := true;
          }
      }
    }

    method Maintain() returns (ok: bool)
      requires Valid()
      modifies Objects()
      ensures (State(), ok) == Upkeep(e, cfg, old(State())) && closed == old(closed)
    {
      hide Refresh, ChangedFrom;
      ok := true;
      if connected {
        match backend {
          case OverGateway(g) =>
            var escaped := g.RefreshBackend();
            if escaped.Some? {
              return false;
            }
            ok := SendChangedAvailability(None);
          case OverSimulator(_) =>
          case OverScript(_) =>
        }
      }
    }

    method TakeTurn(input: Input) returns (exit: Exit)
      requires Valid()
      modifies Objects()
      ensures (State(), exit) == Turn(e, cfg, old(State()), input) && closed == old(closed)
    {
      hide Dispatch, Upkeep;
      if input.will {
        transport.FireWill();
      }
      if input.stop {
        if input.event == Some(Connected) {
          connected := true;
        } else if input.event.Some? && input.event.value.Disconnected? {
          connected := false;
        }
        return Stopped;
      }
      var ok := React(input.event);
      if !ok {
        return Raised;
      }
      ok := Maintain();
      return if ok then Running else Raised;
    }

    /** `run`, over the turns until its stop condition holds. */
    method Run(inputs: seq<Input>) returns (exit: Exit)
      requires Valid()
      modifies Objects()
      ensures (State(), exit) == RunLoop(e, cfg, old(State()), inputs) && closed == old(closed)
    {
      hide Turn;
      exit := Running;
      var i := 0;
      while i < |inputs| && exit == Running
        invariant i <= |inputs| && closed == old(closed)
        invariant (State(), exit) == RunLoop(e, cfg, old(State()), inputs[..i])
      {
        assert inputs[..i + 1][..i] == inputs[..i];
        exit := TakeTurn(inputs[i]);
        i := i + 1;
      }
      if exit != Running {
        LeftEarly(e, cfg, old(State()), inputs, i);
      } else {
        assert inputs[..i] == inputs;
      }
    }

    /** `close`: the second call does nothing. */
    method CloseRuntime() returns (ok: bool)
      requires Valid()
      modifies Objects()
      ensures closed
      ensures (State(), ok) == if old(closed) then (old(State()), true) else CloseBridge(e, old(State()))
    {
      hide Close, PublishTo;
      if closed {
        return true;
      }
      closed := true;
      ok := true;
      if connected {
        ok := Send(BRIDGE_OFFLINE);
      }
      match backend {
        case OverGateway(g) => g.CloseBackend();
        case OverSimulator(s) => s.CloseBackend();
        case OverScript(o) => o.calls := o.calls + 1;
      }
    }
  }

  lemma {:induction false} LeftEarly(e: RtEnv, cfg: Config, st: St, inputs: seq<Input>, i: nat)
    requires i <= |inputs| && RunLoop(e, cfg, st, inputs[..i]).1 != Running
    ensures RunLoop(e, cfg, st, inputs) == RunLoop(e, cfg, st, inputs[..i])
  {
    hide Turn;
    if i < |inputs| {
      assert inputs[..|inputs| - 1][..i] == inputs[..i];
      LeftEarly(e, cfg, st, inputs[..|inputs| - 1], i);
    } else {
      assert inputs[..i] == inputs;
    }
  }

  ghost predicate Describes(cfg: Config, layout: TopicLayout, statusTopic: string, devices: seq<RuntimeDevice>) {
    && cfg.layout == layout && cfg.statusTopic == statusTopic && cfg.devices == devices
    && FindsModes(devices, cfg.modes, cfg.addresses)
  }

  /** Builds the runtime of a backend: its addresses and modes, and the check of the status topic; null stands
      for the constructor's ValidationError. */
  method CreateRuntime(backend: AnyBackend, devices: seq<RuntimeDevice>, transport: MqttTransport, clock: Clock,
                       layout: TopicLayout, statusTopic: string, ghost e: RtEnv) returns (r: BridgeRuntime?)
    ensures r != null ==>
              && fresh(r) && r.backend == backend && r.transport == transport && r.clock == clock && r.e == e
              && r.cfg.layout == layout && r.cfg.statusTopic == statusTopic && r.cfg.devices == devices
              && ValidConfig(r.cfg) && !r.connected && !r.closed && r.cache == map[] && r.requests == 0
    ensures r == null ==> (exists cfg: Config :: Describes(cfg, layout, statusTopic, devices) && !ValidConfig(cfg))
  {
    var modes, addresses := FindCapabilityModes(devices);
    var cfg := Config(layout, statusTopic, devices, modes, addresses);
    var ok := ValidateStatusTopic(cfg);
    assert Describes(cfg, layout, statusTopic, devices);
    if !ok {
      return null;
    }
    r := new BridgeRuntime(backend, transport, clock, cfg, e);
  }
}
