/** The bridge never hears itself: what it publishes is disjoint from what it subscribes to (runtime.py,
    mqtt/topics.py). */
module Loopback {
  import opened Wrappers
  import opened Identity
  import opened Topics
  import opened Model
  import opened Backend
  import opened Simulator
  import opened Runtime
  import opened Retained

  /** A publication as the topic demands: QoS 1, retained unless it is a discovery document, and one of the payloads of
      its kind of topic. Nothing is published on a command topic. */
  ghost predicate WellFormed(cfg: Config, p: Publish) {
    && p.qos == 1 && (p.retain <==> !p.topic.DiscoveryTopic?)
    && match p.topic
       case BridgeAvailability => p.payload == Text("online") || p.payload == Text("offline")
       case DeviceAvailability(_) =>
         p.payload == Text("online") || p.payload == Text("offline") || p.payload == Text("unknown")
       case StateTopic(_) => p.payload == Text("ON") || p.payload == Text("OFF")
       case ConfidenceTopic(_) =>
         || p.payload == Text("observed") || p.payload == Text("assumed")
         || p.payload == Text("stale") || p.payload == Text("unknown")
       case LastCommandTopic(_) => p.payload.LastCommandDocument?
       case DiscoveryTopic(id) =>
         p.payload.DiscoveryDocument? && p.payload.device in cfg.devices && p.payload.device.deviceId == id
       case CommandTopic(_) => false
  }

  /** Publications only on generated topics, on no command topic, and each as its topic demands. */
  ghost predicate StaysOut(cfg: Config, log: seq<Publish>) {
    forall p | p in log :: Generated(cfg, p.topic) && !p.topic.CommandTopic? && WellFormed(cfg, p)
  }

  /** What publishing keeps here: the configuration's own topics, and the subscriptions. */
  ghost predicate Keeps(cfg: Config, st: St, r: St) {
    (StaysOut(cfg, st.mq.log) ==> StaysOut(cfg, r.mq.log)) && r.mq.names == st.mq.names
  }

  lemma PublishStaysOut(e: RtEnv, cfg: Config, st: St, p: Publish)
    requires Generated(cfg, p.topic) && WellFormed(cfg, p)
    ensures Keeps(cfg, st, PublishTo(e, st, p).0)
  {
    hide Generated;
    assert forall q | q in st.mq.log + [p] :: q in st.mq.log || q == p;
  }

  lemma ObservationStaysOut(e: RtEnv, cfg: Config, st: St, a: Address, o: Observation)
    requires a in cfg.modes && cfg.modes[a] == Observable
    ensures Keeps(cfg, st, PublishObservation(e, st, a, o).0)
  {
    hide PublishTo, StaysOut;
    if o.value.BoolValue? {
      PublishStaysOut(e, cfg, st, StatePublish(a, o.value.b));
      PublishStaysOut(e, cfg, PublishTo(e, st, StatePublish(a, o.value.b)).0, ConfidencePublish(a, o.confidence));
    }
  }

  lemma {:induction false} AddressesStayOut(e: RtEnv, cfg: Config, st: St, id: DeviceId, addresses: seq<Address>,
                                            complete: bool)
    requires forall a | a in addresses :: a in cfg.modes
    ensures Keeps(cfg, st, AddressesFrom(e, cfg, st, id, addresses, complete).0)
    decreases |addresses|
  {
    hide PublishObservation, StaysOut;
    if addresses != [] {
      var a := addresses[0];
      var (st1, o) := AskObservation(e, st, a);
      if a.deviceId == id && cfg.modes[a] == Observable && o.Some? {
        ObservationStaysOut(e, cfg, st1, a, o.value);
      }
      var (st2, complete1, _) := AddressStep(e, cfg, st, id, a, complete);
      assert forall b | b in addresses[1..] :: b in addresses;
      AddressesStayOut(e, cfg, st2, id, addresses[1..], complete1);
    }
  }

  lemma AvailabilityStaysOut(e: RtEnv, cfg: Config, st: St, id: DeviceId, state: AvailabilityState)
    requires Generated(cfg, DeviceAvailability(id))
    ensures Keeps(cfg, st, PublishAvailability(e, st, id, state).0)
  {
    hide PublishTo, Generated;
    PublishStaysOut(e, cfg, st, AvailabilityPublish(id, state));
  }

  lemma {:induction false} DevicesStayOut(e: RtEnv, cfg: Config, st: St, devices: seq<RuntimeDevice>)
    requires FindsModes(cfg.devices, cfg.modes, cfg.addresses)
    requires forall d | d in devices :: d in cfg.devices
    ensures Keeps(cfg, st, DevicesFrom(e, cfg, st, devices).0)
    decreases |devices|
  {
    hide AddressesFrom, AskAvailability, PublishAvailability, StaysOut;
    if devices != [] {
      var id := devices[0].deviceId;
      assert devices[0] in cfg.devices;
      AddressesStayOut(e, cfg, st, id, cfg.addresses, true);
      var (st1, complete, _) := AddressesFrom(e, cfg, st, id, cfg.addresses, true);
      AskAvailabilityKeeps(e, st1, id);
      var (st2, state) := AskAvailability(e, st1, id);
      AvailabilityStaysOut(e, cfg, st2, id, if complete then state else Offline);
      assert forall d | d in devices[1..] :: d in devices;
      DevicesStayOut(e, cfg, DeviceStep(e, cfg, st, id).0, devices[1..]);
    }
  }

  lemma {:induction false} DiscoveryStaysOut(e: RtEnv, cfg: Config, st: St, devices: seq<RuntimeDevice>)
    requires forall d | d in devices :: d in cfg.devices
    ensures Keeps(cfg, st, DiscoveryFrom(e, st, devices).0)
    decreases |devices|
  {
    hide PublishTo, StaysOut;
    if devices != [] {
      assert devices[0] in cfg.devices;
      var p := Publish(DiscoveryTopic(devices[0].deviceId), DiscoveryDocument(devices[0]), QOS, false);
      PublishStaysOut(e, cfg, st, p);
      assert forall d | d in devices[1..] :: d in devices;
      DiscoveryStaysOut(e, cfg, PublishTo(e, st, p).0, devices[1..]);
    }
  }

  lemma SnapshotStaysOut(e: RtEnv, cfg: Config, st: St)
    requires FindsModes(cfg.devices, cfg.modes, cfg.addresses)
    ensures Keeps(cfg, st, PublishSnapshot(e, cfg, st).0)
  {
    hide PublishTo, DiscoveryFrom, DevicesFrom, StaysOut;
    PublishStaysOut(e, cfg, st, BRIDGE_OFFLINE);
    var (st1, _) := PublishTo(e, st, BRIDGE_OFFLINE);
    DiscoveryStaysOut(e, cfg, st1, cfg.devices);
    var (st2, _) := DiscoveryFrom(e, st1, cfg.devices);
    DevicesStayOut(e, cfg, st2, cfg.devices);
    PublishStaysOut(e, cfg, DevicesFrom(e, cfg, st2, cfg.devices).0, BRIDGE_ONLINE);
  }

  lemma {:induction false} ChangedStaysOut(e: RtEnv, cfg: Config, st: St, devices: seq<RuntimeDevice>,
                                           force: Option<DeviceId>)
    requires forall d | d in devices :: d in cfg.devices
    ensures Keeps(cfg, st, ChangedFrom(e, st, devices, force).0)
    decreases |devices|
  {
    hide AskAvailability, PublishAvailability, StaysOut;
    if devices != [] {
      var id := devices[0].deviceId;
      assert devices[0] in cfg.devices;
      AskAvailabilityKeeps(e, st, id);
      var (st1, state) := AskAvailability(e, st, id);
      AvailabilityStaysOut(e, cfg, st1, id, state);
      assert forall d | d in devices[1..] :: d in devices;
      ChangedStaysOut(e, cfg, ChangedStep(e, st, id, force).0, devices[1..], force);
    }
  }

  lemma ReportStaysOut(e: RtEnv, cfg: Config, st: St, a: Address, on: bool, status: Status)
    requires a in cfg.modes
    ensures Keeps(cfg, st, ReportOutcome(e, cfg, st, a, on, status).0)
  {
    hide PublishTo, ChangedFrom, PublishObservation, StaysOut;
    if cfg.modes[a] == CommandOnly {
      var p := Publish(LastCommandTopic(a), LastCommandDocument(on, status, e.env.clock(st.w.ticks)), QOS, true);
      var ticked := st.(w := Tick(st.w));
      PublishStaysOut(e, cfg, ticked, p);
      ChangedStaysOut(e, cfg, PublishTo(e, ticked, p).0, cfg.devices, Some(a.deviceId));
    } else if status.Confirmed? {
      ObservationStaysOut(e, cfg, st, a, status.observation);
    }
  }

  lemma ServeStaysOut(e: RtEnv, cfg: Config, st: St, a: Address, on: bool)
    requires a in cfg.modes
    ensures Keeps(cfg, st, ServeCommand(e, cfg, st, a, on).0)
  {
    hide SetDesired, SimSetDesired, ReportOutcome, StaysOut;
    var c := Command(st.requests, a.deviceId, a.endpoint, a.capability, BoolValue(on));
    var (st2, r) := AskCommand(e, st.(requests := st.requests + 1), c);
    assert st2.mq == st.mq;
    if r.Success? {
      ReportStaysOut(e, cfg, st2, a, on, r.value.status);
    }
  }

  lemma MessageStaysOut(e: RtEnv, cfg: Config, st: St, m: BrokerEvent)
    requires m.Message? && FindsModes(cfg.devices, cfg.modes, cfg.addresses)
    ensures Keeps(cfg, st, HandleMessage(e, cfg, st, m).0)
  {
    hide PublishSnapshot, AskAvailability, ServeCommand, StaysOut, ParseCommandTopic, DecodeOnOff;
    if m.topic == cfg.statusTopic {
      SnapshotStaysOut(e, cfg, st);
    } else if Addressed(cfg, m).Some? {
      var a := Addressed(cfg, m).value;
      AskAvailabilityKeeps(e, st, a.deviceId);
      if DecodeOnOff(m.payload).Some? {
        ServeStaysOut(e, cfg, AskAvailability(e, st, a.deviceId).0, a, DecodeOnOff(m.payload).value);
      }
    }
  }

  lemma TurnStaysOut(e: RtEnv, cfg: Config, st: St, input: Input)
    requires FindsModes(cfg.devices, cfg.modes, cfg.addresses)
    ensures var (r, exit) := Turn(e, cfg, st, input);
            && (StaysOut(cfg, st.mq.log) ==> StaysOut(cfg, r.mq.log))
            && (AsksOnly(cfg, st.mq.names) ==> AsksOnly(cfg, r.mq.names))
            && (forall name | name in st.mq.names :: name in r.mq.names)
            && (exit == Running && input.event == Some(Connected) ==>
                forall name | name in SubscriptionNames(cfg) :: name in r.mq.names)
  {
    hide PublishSnapshot, HandleMessage, Subscribe, Refresh, ChangedFrom, StaysOut;
    WillStaysOut(cfg, st, input.will);
    var st0 := FireWill(st, input.will);
    if !input.stop {
      if input.event == Some(Connected) {
        var st1 := st0.(connected := true);
        SubscribeKeeps(e, st1, SubscriptionNames(cfg));
        SnapshotStaysOut(e, cfg, Subscribe(e, st1, SubscriptionNames(cfg)).0);
      } else if input.event.Some? && input.event.value.Message? && st0.connected {
        MessageStaysOut(e, cfg, st0, input.event.value);
      }
      var (st2, ok) := Dispatch(e, cfg, st0, input.event);
      if st2.connected && st2.back.HarmonyG2? {
        var s := Refresh(e.env, Sys(st2.back.g, st2.w)).0;
        ChangedStaysOut(e, cfg, st2.(back := HarmonyG2(s.g), w := s.w), cfg.devices, None);
      }
    }
  }

  /** Subscriptions to nothing but the status topic and the command topics of configured addresses. */
  ghost predicate AsksOnly(cfg: Config, names: seq<string>) {
    forall name | name in names :: name in SubscriptionNames(cfg)
  }

  lemma WillStaysOut(cfg: Config, st: St, fires: bool)
    ensures Keeps(cfg, st, FireWill(st, fires))
  {
    assert forall q | q in st.mq.log + [BRIDGE_OFFLINE] :: q in st.mq.log || q == BRIDGE_OFFLINE;
  }

  /** The configuration loader admits no wildcard in the prefix or in the status topic, so a subscription is to one
      topic. */
  lemma SubscriptionsAreNames(cfg: Config, names: seq<string>, topic: string)
    requires ValidConfig(cfg) && AsksOnly(cfg, names) && Clean(cfg.layout.topicPrefix) && Clean(cfg.statusTopic)
    ensures forall name | name in names :: Selects(name, topic) <==> name == topic
  {
    hide Render, Selects, Clean, Generated;
    forall name | name in names ensures Selects(name, topic) <==> name == topic {
      if name != cfg.statusTopic {
        var a :| a in cfg.addresses && name == Render(cfg.layout, CommandTopic(a));
        assert ProvidedBy(cfg.devices, a, cfg.modes[a]);
        CommandNameIsClean(cfg.layout, a);
      }
      CleanSelectsItself(name, topic);
    }
  }

  lemma NothingNamesPublished(cfg: Config, r: St)
    requires ValidConfig(cfg) && StaysOut(cfg, r.mq.log) && AsksOnly(cfg, r.mq.names)
    ensures forall p, name | p in r.mq.log && name in r.mq.names :: Render(cfg.layout, p.topic) != name
  {
    hide Render, Generated, FindsModes, SubscriptionNames;
    forall p, name | p in r.mq.log && name in r.mq.names ensures Render(cfg.layout, p.topic) != name {
      forall a ensures Render(cfg.layout, CommandTopic(a)) != Render(cfg.layout, p.topic) {
        RenderInjective(cfg.layout, CommandTopic(a), p.topic);
      }
    }
  }

  /** Over every run and every backend: the bridge subscribes to the status topic and to the command topics of its
      addresses, to all of them once it has connected, and to nothing else, and no publication is on a topic of such a
      name. A prefix and a status topic without wildcards, which the configuration loader requires, make each
      subscription one to a single topic, and no publication is on any of those topics, so none can trigger the
      bridge. */
  lemma {:induction false} NeverHearsItself(e: RtEnv, cfg: Config, st: St, inputs: seq<Input>)
    requires ValidConfig(cfg) && st.mq.log == [] && st.mq.names == []
    ensures var (r, exit) := RunLoop(e, cfg, st, inputs);
            && StaysOut(cfg, r.mq.log) && AsksOnly(cfg, r.mq.names)
            && (exit == Running && EverConnected(inputs) ==>
                forall name | name in SubscriptionNames(cfg) :: name in r.mq.names)
            && (forall p, name | p in r.mq.log && name in r.mq.names :: Render(cfg.layout, p.topic) != name)
            && (Clean(cfg.layout.topicPrefix) && Clean(cfg.statusTopic) ==>
                  forall p, name | p in r.mq.log && name in r.mq.names :: !Selects(name, Render(cfg.layout, p.topic)))
  {
    hide Turn, Render, Generated, FindsModes, SubscriptionNames, Clean, Selects;
    var r := RunLoop(e, cfg, st, inputs).0;
    if inputs != [] {
      var front, last := inputs[..|inputs| - 1], inputs[|inputs| - 1];
      NeverHearsItself(e, cfg, st, front);
      TurnStaysOut(e, cfg, RunLoop(e, cfg, st, front).0, last);
      if EverConnected(inputs) {
        LastTurnOrBefore(inputs);
      }
    }
    NothingNamesPublished(cfg, r);
    if Clean(cfg.layout.topicPrefix) && Clean(cfg.statusTopic) {
      forall p, name | p in r.mq.log && name in r.mq.names ensures !Selects(name, Render(cfg.layout, p.topic)) {
        SubscriptionsAreNames(cfg, r.mq.names, Render(cfg.layout, p.topic));
      }
    }
  }

  lemma LastTurnOrBefore(inputs: seq<Input>)
    requires inputs != [] && EverConnected(inputs)
    ensures EverConnected(inputs[..|inputs| - 1]) || inputs[|inputs| - 1].event == Some(Connected)
  {
    var front := inputs[..|inputs| - 1];
    var i :| 0 <= i < |inputs| && inputs[i].event == Some(Connected);
    assert i < |front| ==> front[i].event == Some(Connected);
  }
}
