/** The bridge over the simulator: retained state is the simulator's state, and both are exactly what the
    command messages received while connected add up to. */
module Mirror {
  import opened Wrappers
  import opened Identity
  import opened Topics
  import opened Model
  import opened Simulator
  import opened Runtime
  import opened Retained
  import opened Replay

  /** The state and confidence topics of an address retain the simulator's current observation. */
  ghost predicate Mirrors(st: St, a: Address) {
    && st.back.Simulator? && a in st.back.sim.observations
    && st.back.sim.observations[a].value.BoolValue?
    && LastRetained(st.mq.log, StateTopic(a)) == Some(Text(EncodeOnOff(st.back.sim.observations[a].value.b)))
    && LastRetained(st.mq.log, ConfidenceTopic(a)) == Some(Text("observed"))
  }

  ghost predicate KeepsMirrors(st: St, r: St) {
    && (st.back.Simulator? ==> r.back == st.back)
    && forall a | Mirrors(st, a) :: Mirrors(r, a)
  }

  /** A simulator observation that a snapshot can publish. */
  predicate Shows(st: St, a: Address) {
    && st.back.Simulator? && a in st.back.sim.observations
    && st.back.sim.observations[a].value.BoolValue? && st.back.sim.observations[a].confidence == Observed
  }

  lemma PublishToMirrors(e: RtEnv, st: St, p: Publish)
    requires !p.topic.StateTopic? && !p.topic.ConfidenceTopic?
    ensures KeepsMirrors(st, PublishTo(e, st, p).0)
  {
    forall a | Mirrors(st, a) ensures Mirrors(PublishTo(e, st, p).0, a) {
      RetainedAppend(st.mq.log, p, StateTopic(a));
      RetainedAppend(st.mq.log, p, ConfidenceTopic(a));
    }
  }

  lemma PublishObservationMirrors(e: RtEnv, st: St, a: Address)
    requires Shows(st, a)
    ensures var (r, published, ok) := PublishObservation(e, st, a, st.back.sim.observations[a]);
            && KeepsMirrors(st, r) && (ok ==> published && Mirrors(r, a))
            && (forall b | b != a :: LastRetained(r.mq.log, StateTopic(b)) == LastRetained(st.mq.log, StateTopic(b)))
            && (forall b | b != a ::
                  LastRetained(r.mq.log, ConfidenceTopic(b)) == LastRetained(st.mq.log, ConfidenceTopic(b)))
  {
    var o := st.back.sim.observations[a];
    var p, q := StatePublish(a, o.value.b), ConfidencePublish(a, o.confidence);
    var one, two := st.mq.log + [p], st.mq.log + [p] + [q];
    forall b
      ensures LastRetained(one, StateTopic(b)) == if b == a then Some(p.payload)
              else LastRetained(st.mq.log, StateTopic(b))
      ensures LastRetained(two, StateTopic(b)) == if b == a then Some(p.payload)
              else LastRetained(st.mq.log, StateTopic(b))
      ensures LastRetained(one, ConfidenceTopic(b)) == LastRetained(st.mq.log, ConfidenceTopic(b))
      ensures LastRetained(two, ConfidenceTopic(b)) == if b == a then Some(q.payload)
              else LastRetained(st.mq.log, ConfidenceTopic(b))
    {
      RetainedAppend(st.mq.log, p, StateTopic(b));
      RetainedAppend(st.mq.log, p, ConfidenceTopic(b));
      RetainedAppend(one, q, StateTopic(b));
      RetainedAppend(one, q, ConfidenceTopic(b));
    }
    var r := PublishObservation(e, st, a, o).0;
    assert r.mq.log == st.mq.log || r.mq.log == one || r.mq.log == two;
    forall b | Mirrors(st, b) ensures Mirrors(r, b) {
      assert b == a ==> st.back.sim.observations[b] == o;
    }
  }

  lemma AddressStepMirrors(e: RtEnv, cfg: Config, st: St, id: DeviceId, a: Address, complete: bool)
    requires Shows(st, a) && a in cfg.modes && cfg.modes[a] == Observable
    ensures var (r, complete1, ok) := AddressStep(e, cfg, st, id, a, complete);
            KeepsMirrors(st, r) && (ok && a.deviceId == id ==> Mirrors(r, a)) && (ok && complete ==> complete1)
  {
    hide PublishObservation;
    if a.deviceId == id {
      PublishObservationMirrors(e, st, a);
    }
  }

  lemma {:induction false} AddressesMirror(e: RtEnv, cfg: Config, st: St, id: DeviceId, addresses: seq<Address>,
                                           complete: bool)
    requires st.back.Simulator?
    requires forall a | a in addresses :: Shows(st, a) && a in cfg.modes && cfg.modes[a] == Observable
    ensures var (r, complete1, ok) := AddressesFrom(e, cfg, st, id, addresses, complete);
            && KeepsMirrors(st, r) && (ok && complete ==> complete1)
            && (ok ==> forall a | a in addresses && a.deviceId == id :: Mirrors(r, a))
    decreases |addresses|
  {
    hide AddressStep, Mirrors;
    if addresses != [] {
      AddressStepMirrors(e, cfg, st, id, addresses[0], complete);
      var (st1, complete1, _) := AddressStep(e, cfg, st, id, addresses[0], complete);
      forall a | a in addresses[1..] ensures a in addresses && Shows(st1, a) {
        assert Shows(st, a);
      }
      AddressesMirror(e, cfg, st1, id, addresses[1..], complete1);
    }
  }

  lemma DeviceStepMirrors(e: RtEnv, cfg: Config, st: St, id: DeviceId)
    requires st.back.Simulator?
    requires forall a | a in cfg.addresses :: Shows(st, a) && a in cfg.modes && cfg.modes[a] == Observable
    ensures var (r, ok) := DeviceStep(e, cfg, st, id);
            KeepsMirrors(st, r) && (ok ==> forall a | a in cfg.addresses && a.deviceId == id :: Mirrors(r, a))
  {
    hide AddressesFrom, PublishTo;
    AddressesMirror(e, cfg, st, id, cfg.addresses, true);
    var (st1, complete, ok) := AddressesFrom(e, cfg, st, id, cfg.addresses, true);
    var (st2, state) := AskAvailability(e, st1, id);
    SameMirrors(st1, st2);
    var p := AvailabilityPublish(id, if complete then state else Offline);
    PublishToMirrors(e, st2, p);
    var st3 := PublishTo(e, st2, p).0;
    SameMirrors(st3, st3.(cache := st3.cache[id := if complete then state else Offline]));
  }

  lemma SameMirrors(st: St, r: St)
    requires r.back == st.back && r.mq.log == st.mq.log
    ensures KeepsMirrors(st, r)
  {
  }

  lemma {:induction false} DevicesMirror(e: RtEnv, cfg: Config, st: St, devices: seq<RuntimeDevice>)
    requires st.back.Simulator?
    requires forall a | a in cfg.addresses :: Shows(st, a) && a in cfg.modes && cfg.modes[a] == Observable
    ensures var (r, ok) := DevicesFrom(e, cfg, st, devices);
            && KeepsMirrors(st, r)
            && (ok ==> forall d, a | d in devices && a in cfg.addresses && a.deviceId == d.deviceId :: Mirrors(r, a))
    decreases |devices|
  {
    hide DeviceStep, Mirrors;
    if devices != [] {
      DeviceStepMirrors(e, cfg, st, devices[0].deviceId);
      DevicesMirror(e, cfg, DeviceStep(e, cfg, st, devices[0].deviceId).0, devices[1..]);
    }
  }

  lemma {:induction false} DiscoveryMirrors(e: RtEnv, st: St, devices: seq<RuntimeDevice>)
    ensures KeepsMirrors(st, DiscoveryFrom(e, st, devices).0)
    decreases |devices|
  {
    hide PublishTo, Mirrors;
    if devices != [] {
      var p := Publish(DiscoveryTopic(devices[0].deviceId), DiscoveryDocument(devices[0]), QOS, false);
      PublishToMirrors(e, st, p);
      DiscoveryMirrors(e, PublishTo(e, st, p).0, devices[1..]);
    }
  }

  /** A runtime over an open simulator, created with its devices and a valid configuration. */
  ghost predicate SimulatorInv(cfg: Config, st: St) {
    && st.back.Simulator? && SimInv(st.back.sim) && !st.back.sim.closed && st.back.sim.devices == cfg.devices
    && ValidConfig(cfg) && Clean(cfg.layout.topicPrefix)
  }

  /** Every configured address is offered by a device of the simulator and is observable. */
  lemma AddressIsOffered(cfg: Config, st: St, a: Address)
    requires SimulatorInv(cfg, st) && a in cfg.addresses
    ensures a in cfg.modes && cfg.modes[a] == Observable && Shows(st, a)
    ensures exists d :: d in cfg.devices && Offers(d, a) && d.deviceId in st.back.sim.availability
                        && st.back.sim.availability[d.deviceId].state == Online
  {
    hide Render;
    assert ProvidedBy(cfg.devices, a, cfg.modes[a]);
    var d, c :| d in cfg.devices && c in d.capabilities && Provides(d, c, a) && c.mode == cfg.modes[a];
    assert c == RuntimeCapability(a.endpoint, OnOff, Observable);
    assert Offers(d, a) && Serves(st.back.sim, d, a);
  }

  lemma SnapshotMirrors(e: RtEnv, cfg: Config, st: St)
    requires SimulatorInv(cfg, st)
    ensures var (r, ok) := PublishSnapshot(e, cfg, st);
            KeepsMirrors(st, r) && (ok ==> forall a | a in cfg.addresses :: Mirrors(r, a))
  {
    hide PublishTo, DiscoveryFrom, DevicesFrom, Mirrors, ValidConfig, SimInv;
    PublishToMirrors(e, st, BRIDGE_OFFLINE);
    var (st1, _) := PublishTo(e, st, BRIDGE_OFFLINE);
    DiscoveryMirrors(e, st1, cfg.devices);
    var (st2, _) := DiscoveryFrom(e, st1, cfg.devices);
    forall a | a in cfg.addresses
      ensures Shows(st2, a) && a in cfg.modes && cfg.modes[a] == Observable
      ensures exists d :: d in cfg.devices && d.deviceId == a.deviceId
    {
      AddressIsOffered(cfg, st, a);
    }
    DevicesMirror(e, cfg, st2, cfg.devices);
    var (st3, _) := DevicesFrom(e, cfg, st2, cfg.devices);
    PublishToMirrors(e, st3, BRIDGE_ONLINE);
  }

  // ---- commands ----

  /** The On or Off that a message asks of an address, if it is a command for it. */
  function Heard(cfg: Config, event: Option<BrokerEvent>, a: Address): seq<bool> {
    if event.None? then []
    else if IsCommand(cfg, event.value, a, true) then [true]
    else if IsCommand(cfg, event.value, a, false) then [false]
    else []
  }

  /** An observation after these commands: the last of them, counted on. */
  predicate Follows(before: Observation, heard: seq<bool>, after: Observation) {
    && after.sequence == before.sequence + |heard|
    && (if heard == [] then after.value == before.value else after.value == BoolValue(heard[|heard| - 1]))
  }

  /** What one event does to the simulator: exactly the command it carries, on exactly its address. */
  ghost predicate Obeys(cfg: Config, event: Option<BrokerEvent>, st: St, r: St) {
    && st.back.Simulator? && SimulatorInv(cfg, r)
    && r.connected == st.connected
    && forall a | a in cfg.addresses ::
         && a in st.back.sim.observations && a in r.back.sim.observations
         && Follows(st.back.sim.observations[a], Heard(cfg, event, a), r.back.sim.observations[a])
  }

  lemma HeardIsAddressed(cfg: Config, st: St, m: BrokerEvent, b: Address)
    requires SimulatorInv(cfg, st) && m.Message? && b in cfg.addresses
    ensures Heard(cfg, Some(m), b)
         == if Addressed(cfg, m) == Some(b) && DecodeOnOff(m.payload).Some? then [DecodeOnOff(m.payload).value] else []
  {
    hide IsCommand, Addressed, ValidConfig, SimInv;
    CommandIsAddressed(cfg, m, b, true);
    CommandIsAddressed(cfg, m, b, false);
  }

  /** A command to an offered address: confirmed, published, and mirrored again. */
  lemma ServedCommandMirrors(e: RtEnv, cfg: Config, st: St, a: Address, on: bool)
    requires SimulatorInv(cfg, st) && a in cfg.addresses
    ensures var (r, ok) := ServeCommand(e, cfg, st, a, on);
            && SimulatorInv(cfg, r) && r.connected == st.connected
            && r.back.sim.observations.Keys == st.back.sim.observations.Keys
            && (forall b | b in st.back.sim.observations && b != a ::
                r.back.sim.observations[b] == st.back.sim.observations[b])
            && a in st.back.sim.observations && Follows(st.back.sim.observations[a], [on], r.back.sim.observations[a])
            && (ok ==> Mirrors(r, a) && forall b | Mirrors(st, b) :: Mirrors(r, b))
  {
    hide PublishObservation, SimInv, SimSetDesired, ValidConfig, Mirrors, Offers, FirstDevice;
    AddressIsOffered(cfg, st, a);
    var d :| d in cfg.devices && Offers(d, a);
    var c := Command(st.requests, a.deviceId, a.endpoint, a.capability, BoolValue(on));
    OfferedCommandsAreConfirmed(st.back.sim, d, a, st.requests, on, e.env.clock(st.w.ticks));
    var (st1, result) := AskCommand(e, st.(requests := st.requests + 1), c);
    NewObservationMirrors(e, st, st1, a);
    var (r, published, ok) := PublishObservation(e, st1, a, st1.back.sim.observations[a]);
    PublishObservationKeeps(e, st1, a, st1.back.sim.observations[a]);
    assert ServeCommand(e, cfg, st, a, on) == (r, ok);
  }

  /** Publishing a new observation of an address mirrors it and leaves the others mirrored. */
  lemma NewObservationMirrors(e: RtEnv, st: St, st1: St, a: Address)
    requires Shows(st1, a) && st.back.Simulator? && st1.mq == st.mq
    requires forall b | b in st.back.sim.observations && b != a ::
               b in st1.back.sim.observations && st1.back.sim.observations[b] == st.back.sim.observations[b]
    ensures var (r, _, ok) := PublishObservation(e, st1, a, st1.back.sim.observations[a]);
            ok ==> Mirrors(r, a) && forall b | Mirrors(st, b) :: Mirrors(r, b)
  {
    hide PublishObservation;
    PublishObservationMirrors(e, st1, a);
    var (r, _, ok) := PublishObservation(e, st1, a, st1.back.sim.observations[a]);
    PublishObservationKeeps(e, st1, a, st1.back.sim.observations[a]);
  }

  lemma MessageIsObeyed(e: RtEnv, cfg: Config, st: St, m: BrokerEvent)
    requires m.Message? && SimulatorInv(cfg, st)
    ensures var (r, ok) := HandleMessage(e, cfg, st, m);
            && Obeys(cfg, Some(m), st, r)
            && (ok ==> forall a | Mirrors(st, a) :: Mirrors(r, a))
  {
    hide PublishSnapshot, ServeCommand, Addressed, Heard, Mirrors, ValidConfig, SimInv, DecodeOnOff;
    forall b | b in cfg.addresses
      ensures b in st.back.sim.observations
      ensures Heard(cfg, Some(m), b)
           == if Addressed(cfg, m) == Some(b) && DecodeOnOff(m.payload).Some?
              then [DecodeOnOff(m.payload).value] else []
    {
      AddressIsOffered(cfg, st, b);
      HeardIsAddressed(cfg, st, m, b);
    }
    if m.topic == cfg.statusTopic {
      SnapshotMirrors(e, cfg, st);
      SnapshotKeeps(e, cfg, st);
      StatusIsNotAddressed(cfg, m);
    } else if Addressed(cfg, m).Some? {
      var a := Addressed(cfg, m).value;
      AddressedIsConfigured(cfg, m);
      AddressIsOffered(cfg, st, a);
      if DecodeOnOff(m.payload).Some? {
        ServedCommandMirrors(e, cfg, st, a, DecodeOnOff(m.payload).value);
      }
    }
  }

  lemma StatusIsNotAddressed(cfg: Config, m: BrokerEvent)
    requires m.Message? && m.topic == cfg.statusTopic
    ensures Addressed(cfg, m).None?
  {
  }

  lemma AddressedIsConfigured(cfg: Config, m: BrokerEvent)
    requires m.Message? && Addressed(cfg, m).Some?
    ensures Addressed(cfg, m).value in cfg.addresses
  {
  }

  // ---- whole runs ----

  /** The commands for an address in a run, received while connected. */
  function HeardIn(cfg: Config, inputs: seq<Input>, a: Address): seq<bool> {
    if inputs == [] then []
    else
      var front, last := inputs[..|inputs| - 1], inputs[|inputs| - 1];
      HeardIn(cfg, front, a) + if Linked(front) && !last.stop then Heard(cfg, last.event, a) else []
  }

  lemma WillMirrors(st: St, fires: bool)
    ensures KeepsMirrors(st, FireWill(st, fires))
  {
    forall a | Mirrors(st, a) ensures Mirrors(FireWill(st, fires), a) {
      RetainedAppend(st.mq.log, BRIDGE_OFFLINE, StateTopic(a));
      RetainedAppend(st.mq.log, BRIDGE_OFFLINE, ConfidenceTopic(a));
    }
  }

  /** One returned turn: the simulator obeyed the event, and what was mirrored still is. A connection mirrors
      every address. */
  lemma TurnIsObeyed(e: RtEnv, cfg: Config, st: St, input: Input)
    requires SimulatorInv(cfg, st)
    ensures var (r, exit) := Turn(e, cfg, st, input);
            exit == Running ==>
              && SimulatorInv(cfg, r) && !input.stop && r.connected == ConnectedBy(input.event, st.connected)
              && (forall a | a in cfg.addresses ::
                    && a in st.back.sim.observations && a in r.back.sim.observations
                    && Follows(st.back.sim.observations[a], if st.connected then Heard(cfg, input.event, a) else [],
                               r.back.sim.observations[a]))
              && (forall a | Mirrors(st, a) :: Mirrors(r, a))
              && (input.event == Some(Connected) ==> forall a | a in cfg.addresses :: Mirrors(r, a))
  {
    hide HandleMessage, PublishSnapshot, Subscribe, Mirrors, ValidConfig, SimInv, IsCommand;
    var st0 := FireWill(st, input.will);
    WillMirrors(st, input.will);
    forall a | a in cfg.addresses ensures a in st.back.sim.observations {
      AddressIsOffered(cfg, st, a);
    }
    if !input.stop {
      if input.event == Some(Connected) {
        var st1 := st0.(connected := true);
        SubscribeKeeps(e, st1, SubscriptionNames(cfg));
        var st2 := Subscribe(e, st1, SubscriptionNames(cfg)).0;
        SameMirrors(st0, st2);
        SnapshotMirrors(e, cfg, st2);
        SnapshotKeeps(e, cfg, st2);
        NothingHeard(cfg, input.event);
      } else if input.event.Some? && input.event.value.Message? {
        if st0.connected {
          MessageIsObeyed(e, cfg, st0, input.event.value);
        }
      } else {
        SameMirrors(st0, Dispatch(e, cfg, st0, input.event).0);
        NothingHeard(cfg, input.event);
      }
    }
  }

  lemma NothingHeard(cfg: Config, event: Option<BrokerEvent>)
    requires event.None? || !event.value.Message?
    ensures forall a :: Heard(cfg, event, a) == []
  {
  }

  lemma FollowsTwice(a: Observation, first: seq<bool>, b: Observation, second: seq<bool>, c: Observation)
    requires Follows(a, first, b) && Follows(b, second, c)
    ensures Follows(a, first + second, c)
  {
  }

  /** At every turn boundary of every run over the simulator: each address shows the last command received for
      it while connected, or its initial value, under a sequence number that counts those commands; and once the
      bridge has connected, the retained state topic of the address says exactly that value and its confidence
      topic says "observed". */
  lemma {:induction false} SimulatorIsMirrored(e: RtEnv, cfg: Config, st: St, inputs: seq<Input>)
    requires SimulatorInv(cfg, st) && !st.connected
    ensures var (r, exit) := RunLoop(e, cfg, st, inputs);
            exit == Running ==>
              && SimulatorInv(cfg, r) && r.connected == Linked(inputs)
              && forall a | a in cfg.addresses ::
                   && a in st.back.sim.observations && a in r.back.sim.observations
                   && Follows(st.back.sim.observations[a], HeardIn(cfg, inputs, a), r.back.sim.observations[a])
                   && (EverConnected(inputs) ==> Mirrors(r, a))
  {
    hide Turn, SimInv, ValidConfig, Mirrors, Follows, Heard, EverConnected;
    var (r, exit) := RunLoop(e, cfg, st, inputs);
    if inputs == [] {
      forall a | a in cfg.addresses
        ensures a in st.back.sim.observations && Follows(st.back.sim.observations[a], [], st.back.sim.observations[a])
      {
        StartsFollowed(cfg, st, a);
      }
      NeverConnected(inputs);
    } else {
      var front, last := inputs[..|inputs| - 1], inputs[|inputs| - 1];
      SimulatorIsMirrored(e, cfg, st, front);
      var (before, earlier) := RunLoop(e, cfg, st, front);
      if exit == Running {
        TurnIsObeyed(e, cfg, before, last);
        ConnectedSomewhere(inputs);
        forall a | a in cfg.addresses
          ensures a in st.back.sim.observations && a in r.back.sim.observations
          ensures Follows(st.back.sim.observations[a], HeardIn(cfg, inputs, a), r.back.sim.observations[a])
          ensures EverConnected(inputs) ==> Mirrors(r, a)
        {
          FollowsTwice(st.back.sim.observations[a], HeardIn(cfg, front, a), before.back.sim.observations[a],
                       if before.connected then Heard(cfg, last.event, a) else [], r.back.sim.observations[a]);
        }
      }
    }
  }

  lemma StartsFollowed(cfg: Config, st: St, a: Address)
    requires SimulatorInv(cfg, st) && a in cfg.addresses
    ensures a in st.back.sim.observations && Follows(st.back.sim.observations[a], [], st.back.sim.observations[a])
  {
    AddressIsOffered(cfg, st, a);
  }

  lemma NeverConnected(inputs: seq<Input>)
    requires inputs == []
    ensures !EverConnected(inputs)
  {
  }

  lemma ConnectedSomewhere(inputs: seq<Input>)
    requires inputs != []
    ensures EverConnected(inputs) <==>
              EverConnected(inputs[..|inputs| - 1]) || inputs[|inputs| - 1].event == Some(Connected)
  {
    var front := inputs[..|inputs| - 1];
    if EverConnected(front) {
      var i :| 0 <= i < |front| && front[i].event == Some(Connected);
      assert inputs[i] == front[i];
    }
    if EverConnected(inputs) {
      var i :| 0 <= i < |inputs| && inputs[i].event == Some(Connected);
      assert i < |front| ==> front[i] == inputs[i];
    }
  }
}
