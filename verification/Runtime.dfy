/** The bridge's event loop as a state machine over an arbitrary broker connection and backend (runtime.py). */
module Runtime {
  import opened Wrappers
  import opened Identity
  import opened Topics
  import opened Calendar
  import opened Transport
  import opened Model
  import opened Backend
  import opened Simulator

  const QOS := 1

  // ---- broker traffic ----

  /** A payload: plain text, or one of the two JSON documents the bridge publishes. */
  datatype Payload =
    | Text(text: string)
    | LastCommandDocument(on: bool, status: Status, at: Instant)
    | DiscoveryDocument(device: RuntimeDevice)

  datatype Publish = Publish(topic: Topic, payload: Payload, qos: nat, retain: bool)

  datatype BrokerEvent =
    | Connected
    | Disconnected(reason: Option<string>)
    | Message(topic: string, payload: string, qos: nat, retain: bool)

  const BRIDGE_OFFLINE := Publish(BridgeAvailability, Text("offline"), QOS, true)
  const BRIDGE_ONLINE := Publish(BridgeAvailability, Text("online"), QOS, true)

  function AvailabilityPublish(id: DeviceId, state: AvailabilityState): Publish {
    Publish(DeviceAvailability(id), Text(state.Name()), QOS, true)
  }

  function StatePublish(a: Address, on: bool): Publish {
    Publish(StateTopic(a), Text(EncodeOnOff(on)), QOS, true)
  }

  function ConfidencePublish(a: Address, c: Confidence): Publish {
    Publish(ConfidenceTopic(a), Text(c.Name()), QOS, true)
  }

  // ---- configuration ----

  datatype Config = Config(
    layout: TopicLayout, statusTopic: string, devices: seq<RuntimeDevice>,
    modes: map<Address, Mode>, addresses: seq<Address>)

  /** The on/off address of one capability of a device. */
  predicate Provides(d: RuntimeDevice, c: RuntimeCapability, a: Address) {
    c in d.capabilities && c.capability == OnOff && a == Address(d.deviceId, c.endpoint, OnOff)
  }

  predicate ProvidedBy(devices: seq<RuntimeDevice>, a: Address, mode: Mode) {
    exists d, c | d in devices && c in d.capabilities :: Provides(d, c, a) && c.mode == mode
  }

  /** `_find_capability_modes`: exactly the on/off addresses of the devices, each with a declared mode. */
  ghost predicate FindsModes(devices: seq<RuntimeDevice>, modes: map<Address, Mode>, addresses: seq<Address>) {
    && (forall a :: a in modes <==> a in addresses)
    && (forall a | a in modes :: ProvidedBy(devices, a, modes[a]))
    && (forall d, c, a | d in devices && c in d.capabilities && Provides(d, c, a) :: a in modes)
  }

  /** The topics that the bridge generates for its devices and addresses. */
  ghost predicate Generated(cfg: Config, t: Topic) {
    match t
    case BridgeAvailability => true
    case DiscoveryTopic(id) => exists d :: d in cfg.devices && d.deviceId == id
    case DeviceAvailability(id) => exists d :: d in cfg.devices && d.deviceId == id
    case CommandTopic(a) => a in cfg.modes
    case StateTopic(a) => a in cfg.modes && cfg.modes[a] == Observable
    case ConfidenceTopic(a) => a in cfg.modes && cfg.modes[a] == Observable
    case LastCommandTopic(a) => a in cfg.modes && cfg.modes[a] == CommandOnly
  }

  /** A constructed runtime: modes found, and a status topic that is none of the generated ones. */
  ghost predicate ValidConfig(cfg: Config) {
    && FindsModes(cfg.devices, cfg.modes, cfg.addresses)
    && forall t | Generated(cfg, t) :: Render(cfg.layout, t) != cfg.statusTopic
  }

  // ---- state ----

  /** Any other non-refreshable backend of the Backend protocol: its answers to the n-th call. */
  datatype Script = Script(
    observation: (nat, Address) -> Option<Observation>,
    availability: (nat, DeviceId) -> AvailabilityState,
    outcome: (nat, Command) -> Result<CommandResult, Error>)

  /** Which broker calls succeed, and how everything below the runtime behaves. */
  datatype RtEnv = RtEnv(env: Env, accepts: nat -> bool, script: Script)

  datatype Back = HarmonyG2(g: G2) | Simulator(sim: Sim) | Other(calls: nat)

  /** Accepted publications and subscriptions in order, and the number of broker calls made. */
  datatype Mqtt = Mqtt(log: seq<Publish>, names: seq<string>, calls: nat)

  datatype St = St(
    connected: bool, cache: map<DeviceId, AvailabilityState>, requests: nat, back: Back, w: World, mq: Mqtt)

  /** A step that may raise: the state it leaves, and whether it returned. */
  type Step = (St, bool)

  function PublishTo(e: RtEnv, st: St, p: Publish): Step {
    var ok := e.accepts(st.mq.calls);
    (st.(mq := st.mq.(log := if ok then st.mq.log + [p] else st.mq.log, calls := st.mq.calls + 1)), ok)
  }

  /** The topic names that `_subscribe` asks for, in order. */
  function SubscriptionNames(cfg: Config): (names: seq<string>)
    ensures forall name :: name in names <==>
              name == cfg.statusTopic || exists a :: a in cfg.addresses && name == Render(cfg.layout, CommandTopic(a))
  {
    CommandNames(cfg.layout, cfg.addresses) + [cfg.statusTopic]
  }

  function CommandNames(layout: TopicLayout, addresses: seq<Address>): (names: seq<string>)
    ensures |names| == |addresses|
    ensures forall i | 0 <= i < |names| :: names[i] == Render(layout, CommandTopic(addresses[i]))
  {
    seq(|addresses|, i requires 0 <= i < |addresses| => Render(layout, CommandTopic(addresses[i])))
  }

  /** One subscription after the other, stopping at the first that fails. */
  function Subscribe(e: RtEnv, st: St, names: seq<string>): Step
    decreases |names|
  {
    if names == [] then (st, true)
    else
      var ok := e.accepts(st.mq.calls);
      var kept := if ok then st.mq.names + [names[0]] else st.mq.names;
      var st1 := st.(mq := st.mq.(names := kept, calls := st.mq.calls + 1));
      if ok then Subscribe(e, st1, names[1..]) else (st1, false)
  }

  /** `backend.availability(id).state`. */
  function AskAvailability(e: RtEnv, st: St, id: DeviceId): (St, AvailabilityState) {
    match st.back
    case HarmonyG2(g) =>
      if id in g.availability then (st, g.availability[id].state)
      else (st.(w := Tick(st.w)), Unknown)
    case Simulator(sim) =>
      if id in sim.availability then (st, sim.availability[id].state)
      else (st.(w := Tick(st.w)), Unknown)
    case Other(n) => (st.(back := Other(n + 1)), e.script.availability(n, id))
  }

  /** `backend.observation(a)`. */
  function AskObservation(e: RtEnv, st: St, a: Address): (St, Option<Observation>) {
    match st.back
    case HarmonyG2(_) => (st, None)
    case Simulator(sim) => (st, if a in sim.observations then Some(sim.observations[a]) else None)
    case Other(n) => (st.(back := Other(n + 1)), e.script.observation(n, a))
  }

  /** `backend.set_desired(c)`. */
  function AskCommand(e: RtEnv, st: St, c: Command): (St, Result<CommandResult, Error>) {
    match st.back
    case HarmonyG2(g) =>
      var (s, r) := SetDesired(e.env, Sys(g, st.w), c);
      (st.(back := HarmonyG2(s.g), w := s.w), r)
    case Simulator(sim) =>
      var (next, r) := SimSetDesired(sim, c, e.env.clock(st.w.ticks));
      (st.(back := Simulator(next), w := if r.status.Confirmed? then Tick(st.w) else st.w), Success(r))
    case Other(n) => (st.(back := Other(n + 1)), e.script.outcome(n, c))
  }

  // ---- publications ----

  /** `_publish_observation`: whether it published, and whether it returned. */
  function PublishObservation(e: RtEnv, st: St, a: Address, o: Observation): (St, bool, bool) {
    if !o.value.BoolValue? then (st, false, true)
    else
      var (st1, ok1) := PublishTo(e, st, StatePublish(a, o.value.b));
      if !ok1 then (st1, false, false)
      else
        var (st2, ok2) := PublishTo(e, st1, ConfidencePublish(a, o.confidence));
        (st2, ok2, ok2)
  }

  /** Publishing a device's availability and remembering what was published. */
  function PublishAvailability(e: RtEnv, st: St, id: DeviceId, state: AvailabilityState): Step {
    var (st1, ok) := PublishTo(e, st, AvailabilityPublish(id, state));
    (if ok then st1.(cache := st1.cache[id := state]) else st1, ok)
  }

  /** One address of one device in a snapshot: whether the snapshot is still complete, and whether it returned. */
  function AddressStep(e: RtEnv, cfg: Config, st: St, id: DeviceId, a: Address, complete: bool): (St, bool, bool) {
    if a.deviceId != id || (a in cfg.modes && cfg.modes[a] == CommandOnly) then (st, complete, true)
    else
      var (st1, o) := AskObservation(e, st, a);
      match o
      case None => (st1, false, true)
      case Some(seen) =>
        var (st2, published, ok) := PublishObservation(e, st1, a, seen);
        (st2, complete && published, ok)
  }

  function AddressesFrom(e: RtEnv, cfg: Config, st: St, id: DeviceId, addresses: seq<Address>, complete: bool)
    : (St, bool, bool)
    decreases |addresses|
  {
    if addresses == [] then (st, complete, true)
    else
      var (st1, complete1, ok) := AddressStep(e, cfg, st, id, addresses[0], complete);
      if !ok then (st1, complete1, false) else AddressesFrom(e, cfg, st1, id, addresses[1..], complete1)
  }

  /** One device of a snapshot: observations first, then its availability. */
  function DeviceStep(e: RtEnv, cfg: Config, st: St, id: DeviceId): Step {
    var (st1, complete, ok) := AddressesFrom(e, cfg, st, id, cfg.addresses, true);
    if !ok then (st1, false)
    else
      var (st2, state) := AskAvailability(e, st1, id);
      PublishAvailability(e, st2, id, if complete then state else Offline)
  }

  function DevicesFrom(e: RtEnv, cfg: Config, st: St, devices: seq<RuntimeDevice>): Step
    decreases |devices|
  {
    if devices == [] then (st, true)
    else
      var (st1, ok) := DeviceStep(e, cfg, st, devices[0].deviceId);
      if !ok then (st1, false) else DevicesFrom(e, cfg, st1, devices[1..])
  }

  function DiscoveryFrom(e: RtEnv, st: St, devices: seq<RuntimeDevice>): Step
    decreases |devices|
  {
    if devices == [] then (st, true)
    else
      var (st1, ok) := PublishTo(e, st,
          Publish(DiscoveryTopic(devices[0].deviceId), DiscoveryDocument(devices[0]), QOS, false));
      if !ok then (st1, false) else DiscoveryFrom(e, st1, devices[1..])
  }

  /** `_publish_snapshot`. */
  function PublishSnapshot(e: RtEnv, cfg: Config, st: St): Step {
    var (st1, ok1) := PublishTo(e, st, BRIDGE_OFFLINE);
    if !ok1 then (st1, false)
    else
      var (st2, ok2) := DiscoveryFrom(e, st1, cfg.devices);
      if !ok2 then (st2, false)
      else
        var (st3, ok3) := DevicesFrom(e, cfg, st2, cfg.devices);
        if !ok3 then (st3, false) else PublishTo(e, st3, BRIDGE_ONLINE)
  }

  /** One device of `_publish_changed_availability`. */
  function ChangedStep(e: RtEnv, st: St, id: DeviceId, force: Option<DeviceId>): Step {
    var (st1, state) := AskAvailability(e, st, id);
    if id in st1.cache && st1.cache[id] == state && force != Some(id) then (st1, true)
    else PublishAvailability(e, st1, id, state)
  }

  /** `_publish_changed_availability`. */
  function ChangedFrom(e: RtEnv, st: St, devices: seq<RuntimeDevice>, force: Option<DeviceId>): Step
    decreases |devices|
  {
    if devices == [] then (st, true)
    else
      var (st1, ok) := ChangedStep(e, st, devices[0].deviceId, force);
      if !ok then (st1, false) else ChangedFrom(e, st1, devices[1..], force)
  }

  // ---- messages ----

  /** What the checks before the availability check make of a message: the addressed capability. */
  function Addressed(cfg: Config, m: BrokerEvent): Option<Address>
    requires m.Message?
  {
    if m.topic == cfg.statusTopic || m.retain || m.qos != QOS then None
    else
      match ParseCommandTopic(cfg.layout, m.topic)
      case None => None
      case Some(a) => if a in cfg.addresses then Some(a) else None
  }

  /** After the backend answered a command. */
  function ReportOutcome(e: RtEnv, cfg: Config, st: St, a: Address, on: bool, status: Status): Step {
    if a in cfg.modes && cfg.modes[a] == CommandOnly then
      var document := LastCommandDocument(on, status, e.env.clock(st.w.ticks));
      var (st1, ok) := PublishTo(e, st.(w := Tick(st.w)), Publish(LastCommandTopic(a), document, QOS, true));
      if !ok then (st1, false) else ChangedFrom(e, st1, cfg.devices, Some(a.deviceId))
    else if status.Confirmed? then
      var (st1, _, ok) := PublishObservation(e, st, a, status.observation);
      (st1, ok)
    else (st, true)
  }

  /** The end of `_handle_message`: number the command, ask the backend, report. */
  function ServeCommand(e: RtEnv, cfg: Config, st: St, a: Address, on: bool): Step {
    var c := Command(st.requests, a.deviceId, a.endpoint, a.capability, BoolValue(on));
    var (st2, r) := AskCommand(e, st.(requests := st.requests + 1), c);
    if r.Failure? then (st2, false) else ReportOutcome(e, cfg, st2, a, on, r.value.status)
  }

  /** `_handle_message`. */
  function HandleMessage(e: RtEnv, cfg: Config, st: St, m: BrokerEvent): Step
    requires m.Message?
  {
    if m.topic == cfg.statusTopic then
      if m.payload == "online" then PublishSnapshot(e, cfg, st) else (st, true)
    else
      match Addressed(cfg, m)
      case None => (st, true)
      case Some(a) =>
        var (st1, state) := AskAvailability(e, st, a.deviceId);
        if state != Online then (st1, true)
        else
          match DecodeOnOff(m.payload)
          case None => (st1, true)
          case Some(on) => ServeCommand(e, cfg, st1, a, on)
  }

  // ---- the loop ----

  /** One turn of the loop: whether the broker fires the will first, the event it delivers, if any, and
      whether a stop was requested while waiting for it. */
  datatype Input = Input(will: bool, event: Option<BrokerEvent>, stop: bool)

  datatype Exit = Running | Stopped | Raised

  function FireWill(st: St, fires: bool): St {
    if fires then st.(mq := st.mq.(log := st.mq.log + [BRIDGE_OFFLINE])) else st
  }

  /** The event dispatch of `run`. */
  function Dispatch(e: RtEnv, cfg: Config, st: St, event: Option<BrokerEvent>): Step {
    match event
    case None => (st, true)
    case Some(Connected) =>
      var (st1, ok) := Subscribe(e, st.(connected := true), SubscriptionNames(cfg));
      if !ok then (st1, false) else PublishSnapshot(e, cfg, st1)
    case Some(Disconnected(reason)) => (st.(connected := false), reason.None?)
    case Some(Message(topic, payload, qos, retain)) =>
      if st.connected then HandleMessage(e, cfg, st, event.value) else (st, true)
  }

  /** The refresh at the end of a connected turn. */
  function Upkeep(e: RtEnv, cfg: Config, st: St): Step {
    if st.connected && st.back.HarmonyG2? then
      var (s, escaped) := Refresh(e.env, Sys(st.back.g, st.w));
      var st1 := st.(back := HarmonyG2(s.g), w := s.w);
      if escaped.Some? then (st1, false) else ChangedFrom(e, st1, cfg.devices, None)
    else (st, true)
  }

  function ConnectedBy(event: Option<BrokerEvent>, before: bool): bool {
    if event == Some(Connected) then true
    else if event.Some? && event.value.Disconnected? then false
    else before
  }

  function Turn(e: RtEnv, cfg: Config, st: St, input: Input): (St, Exit) {
    var st0 := FireWill(st, input.will);
    if input.stop then (st0.(connected := ConnectedBy(input.event, st0.connected)), Stopped)
    else
      var (st1, ok1) := Dispatch(e, cfg, st0, input.event);
      if !ok1 then (st1, Raised)
      else
        var (st2, ok2) := Upkeep(e, cfg, st1);
        (st2, if ok2 then Running else Raised)
  }

  /** `run` over the turns it takes; it leaves the loop at a stop or an exception. */
  function RunLoop(e: RtEnv, cfg: Config, st: St, inputs: seq<Input>): (St, Exit) {
    if inputs == [] then (st, Running)
    else
      var (before, exit) := RunLoop(e, cfg, st, inputs[..|inputs| - 1]);
      if exit != Running then (before, exit) else Turn(e, cfg, before, inputs[|inputs| - 1])
  }

  predicate EverConnected(inputs: seq<Input>) {
    exists i | 0 <= i < |inputs| :: inputs[i].event == Some(Connected)
  }

  /** `close`: bridge offline if connected, then the backend is closed in any case. */
  function CloseBridge(e: RtEnv, st: St): Step {
    var (st1, ok) := if st.connected then PublishTo(e, st, BRIDGE_OFFLINE) else (st, true);
    match st1.back
    case HarmonyG2(g) =>
      var s := Close(e.env, Sys(g, st1.w));
      (st1.(back := HarmonyG2(s.g), w := s.w), ok)
    case Simulator(sim) => (st1.(back := Simulator(sim.(closed := true))), ok)
    case Other(n) => (st1.(back := Other(n + 1)), ok)
  }
}
