/** When a command message does reach the gateway: the other half of what the absence of replays says. */
module Delivery {
  import opened Wrappers
  import opened Identity
  import opened Topics
  import opened Model
  import opened Backend
  import opened Safety
  import opened Outcomes
  import opened Runtime
  import opened Retained
  import opened Replay

  /** The device is online, and the maintenance that a command performs first succeeds. */
  ghost predicate Ready(e: RtEnv, st: St, id: DeviceId) {
    && st.back.HarmonyG2? && id in st.back.g.availability && st.back.g.availability[id].state == Online
    && Maintain(e.env, Sys(st.back.g, st.w)).1.None?
  }

  /** The event is a command message for a device that is ready. */
  ghost predicate AsksReady(e: RtEnv, cfg: Config, st: St, event: Option<BrokerEvent>) {
    event.Some? && exists a, on :: IsCommand(cfg, event.value, a, on) && Ready(e, st, a.deviceId)
  }

  predicate SwitchesOnly(d: RuntimeDevice) {
    forall c | c in d.capabilities ::
      c.endpoint == PRIMARY_ENDPOINT && c.capability == OnOff && c.mode == CommandOnly
  }

  lemma {:induction false} AssertedDevicesSwitchOnly(settings: seq<Setting>, profiles: seq<Profile>)
    requires AssertedDevices(settings, profiles).Some?
    ensures forall d | d in AssertedDevices(settings, profiles).value :: SwitchesOnly(d)
  {
    hide FindProfile;
    if settings != [] {
      AssertedDevicesSwitchOnly(settings[..|settings| - 1], profiles);
    }
  }

  /** The gateway backend offers nothing with feedback. */
  lemma GatewayIsCommandOnly(e: RtEnv, cfg: Config, st: St, a: Address)
    requires GatewayInv(e, cfg, st) && ValidConfig(cfg) && a in cfg.addresses
    ensures a in cfg.modes && cfg.modes[a] == CommandOnly
  {
    hide Generated, AssertedDevices, BindsConfiguration, Sound;
    assert ProvidedBy(cfg.devices, a, cfg.modes[a]);
    AssertedDevicesSwitchOnly(e.env.settings, e.env.profiles);
  }

  /** `set_desired` finds no problem with a command for a configured address of an online device. */
  lemma OnlineHasNoProblem(e: RtEnv, cfg: Config, st: St, a: Address, c: Command)
    requires GatewayInv(e, cfg, st) && ValidConfig(cfg) && a in cfg.addresses
    requires a.deviceId in st.back.g.availability && st.back.g.availability[a.deviceId].state == Online
    requires c.deviceId == a.deviceId && c.endpoint == a.endpoint && c.capability == a.capability
             && c.desired.BoolValue?
    ensures Problem(st.back.g, c).None?
  {
    hide Generated, AssertedDevices, BindsConfiguration, Sound;
    assert ProvidedBy(cfg.devices, a, cfg.modes[a]);
    AssertedDevicesSwitchOnly(e.env.settings, e.env.profiles);
  }

  lemma ServingSends(e: RtEnv, cfg: Config, st: St, a: Address, on: bool)
    requires GatewayInv(e, cfg, st) && ValidConfig(cfg) && a in cfg.addresses
    requires a.deviceId in st.back.g.availability && st.back.g.availability[a.deviceId].state == Online
    ensures Posts(ServeCommand(e, cfg, st, a, on).0.w.trace) != Posts(st.w.trace) <==> Ready(e, st, a.deviceId)
  {
    hide GatewayInv, ValidConfig, Posts, SetDesired, ReportOutcome, Problem, Maintain;
    var c := Command(st.requests, a.deviceId, a.endpoint, a.capability, BoolValue(on));
    OnlineHasNoProblem(e, cfg, st, a, c);
    SettingSends(e, cfg, st, c);
    var (st1, r) := AskCommand(e, st.(requests := st.requests + 1), c);
    if r.Success? {
      ReportKeeps(e, cfg, st1, a, on, r.value.status);
    }
  }

  lemma SettingSends(e: RtEnv, cfg: Config, st: St, c: Command)
    requires GatewayInv(e, cfg, st) && Problem(st.back.g, c).None?
    ensures var s := Sys(st.back.g, st.w);
            Posts(SetDesired(e.env, s, c).0.w.trace) != Posts(st.w.trace) <==> Maintain(e.env, s).1.None?
  {
    hide Inv, Posts, SetDesired, Problem, Maintain, CommandSent, MarksExchange, MarksFailure;
    SetDesiredIsSound(e.env, Sys(st.back.g, st.w), c);
  }

  lemma MessageSends(e: RtEnv, cfg: Config, st: St, m: BrokerEvent)
    requires GatewayInv(e, cfg, st) && ValidConfig(cfg) && Clean(cfg.layout.topicPrefix) && m.Message?
    ensures Posts(HandleMessage(e, cfg, st, m).0.w.trace) != Posts(st.w.trace) <==> AsksReady(e, cfg, st, Some(m))
  {
    hide HandleMessage, Posts, GatewayInv, ValidConfig, Addressed, DecodeOnOff;
    AsksIfAddressed(e, cfg, st, m);
    if Addressed(cfg, m).Some? && DecodeOnOff(m.payload).Some? {
      AddressedSends(e, cfg, st, m, Addressed(cfg, m).value, DecodeOnOff(m.payload).value);
    } else {
      OthersSendNothing(e, cfg, st, m);
    }
  }

  lemma AsksIfAddressed(e: RtEnv, cfg: Config, st: St, m: BrokerEvent)
    requires ValidConfig(cfg) && Clean(cfg.layout.topicPrefix) && m.Message?
    ensures AsksReady(e, cfg, st, Some(m))
       <==> && Addressed(cfg, m).Some? && DecodeOnOff(m.payload).Some?
            && Ready(e, st, Addressed(cfg, m).value.deviceId)
  {
    hide IsCommand, ValidConfig, DecodeOnOff, Ready, Addressed;
    forall a, on
      ensures IsCommand(cfg, m, a, on) <==> Addressed(cfg, m) == Some(a) && DecodeOnOff(m.payload) == Some(on)
    {
      CommandIsAddressed(cfg, m, a, on);
    }
    if Addressed(cfg, m).Some? && DecodeOnOff(m.payload).Some? {
      assert IsCommand(cfg, m, Addressed(cfg, m).value, DecodeOnOff(m.payload).value);
    }
  }

  lemma AddressedSends(e: RtEnv, cfg: Config, st: St, m: BrokerEvent, a: Address, on: bool)
    requires GatewayInv(e, cfg, st) && ValidConfig(cfg) && m.Message?
    requires Addressed(cfg, m) == Some(a) && DecodeOnOff(m.payload) == Some(on)
    ensures Posts(HandleMessage(e, cfg, st, m).0.w.trace) != Posts(st.w.trace) <==> Ready(e, st, a.deviceId)
  {
    hide ServeCommand, Posts, Inv, ValidConfig, DecodeOnOff, Maintain, ParseCommandTopic;
    if AskAvailability(e, st, a.deviceId).1 == Online {
      ServingSends(e, cfg, st, a, on);
    }
  }

  lemma OthersSendNothing(e: RtEnv, cfg: Config, st: St, m: BrokerEvent)
    requires m.Message? && (Addressed(cfg, m).None? || DecodeOnOff(m.payload).None?)
    ensures HandleMessage(e, cfg, st, m).0.w.trace == st.w.trace
  {
    hide PublishSnapshot, ServeCommand, Posts, DecodeOnOff, ParseCommandTopic, CacheAgrees;
    SnapshotKeeps(e, cfg, st);
  }

  /** A turn sends a command exactly when the bridge is connected, the event that it handles is a command message for a
      configured address, the device is online, and the maintenance before the command succeeds; an event that comes
      with a stop is not handled. */
  lemma CommandIsSentExactly(e: RtEnv, cfg: Config, st: St, input: Input)
    requires GatewayInv(e, cfg, st) && ValidConfig(cfg) && Clean(cfg.layout.topicPrefix)
    ensures Posts(Turn(e, cfg, st, input).0.w.trace) != Posts(st.w.trace)
       <==> st.connected && !input.stop && AsksReady(e, cfg, st, input.event)
  {
    hide GatewayInv, AsksReady, ValidConfig, Dispatch, Upkeep, Posts, CacheAgrees, Answers;
    var st0 := FireWill(st, input.will);
    WillKeeps(e, cfg, st, input.will);
    InvIgnoresClock(e, cfg, st, st0);
    if !input.stop {
      DispatchSends(e, cfg, st0, input.event);
      WillIsUnseen(e, cfg, st, input);
      DispatchIsAnswered(e, cfg, st0, input.event);
      UpkeepIsQuiet(e, cfg, Dispatch(e, cfg, st0, input.event).0);
    }
  }

  lemma WillIsUnseen(e: RtEnv, cfg: Config, st: St, input: Input)
    ensures AsksReady(e, cfg, FireWill(st, input.will), input.event) <==> AsksReady(e, cfg, st, input.event)
  {
    hide IsCommand;
    assert forall id :: Ready(e, FireWill(st, input.will), id) <==> Ready(e, st, id);
  }

  lemma DispatchSends(e: RtEnv, cfg: Config, st: St, event: Option<BrokerEvent>)
    requires GatewayInv(e, cfg, st) && ValidConfig(cfg) && Clean(cfg.layout.topicPrefix)
    ensures Posts(Dispatch(e, cfg, st, event).0.w.trace) != Posts(st.w.trace)
       <==> st.connected && AsksReady(e, cfg, st, event)
  {
    hide GatewayInv, HandleMessage, PublishSnapshot, Subscribe, Posts, ValidConfig, CacheAgrees, Ready;
    if event == Some(Connected) {
      var st0 := st.(connected := true);
      SubscribeKeeps(e, st0, SubscriptionNames(cfg));
      SnapshotKeeps(e, cfg, Subscribe(e, st0, SubscriptionNames(cfg)).0);
    } else if event.Some? && event.value.Message? {
      MessageSends(e, cfg, st, event.value);
    }
  }

  /** The same at every turn of every run over the gateway. */
  lemma RunSendsExactly(e: RtEnv, cfg: Config, st: St, inputs: seq<Input>, i: nat)
    requires GatewayInv(e, cfg, st) && !st.connected && ValidConfig(cfg) && Clean(cfg.layout.topicPrefix)
    requires i < |inputs|
    ensures var (before, exit) := RunLoop(e, cfg, st, inputs[..i]);
            Posts(RunLoop(e, cfg, st, inputs[..i + 1]).0.w.trace) != Posts(before.w.trace)
            <==> exit == Running && Linked(inputs[..i]) && !inputs[i].stop && AsksReady(e, cfg, before, inputs[i].event)
  {
    hide GatewayInv, AsksReady, ValidConfig, Turn, Posts, Image;
    assert inputs[..i + 1][..i] == inputs[..i];
    NoReplay(e, cfg, st, inputs[..i]);
    var (before, exit) := RunLoop(e, cfg, st, inputs[..i]);
    if exit == Running {
      CommandIsSentExactly(e, cfg, before, inputs[i]);
    }
  }
}
