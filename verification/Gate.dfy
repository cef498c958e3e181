/** The availability boundary of observable backends: nothing stale is ever offered as live, at any point
    between two publications. */
module Gate {
  import opened Wrappers
  import opened Identity
  import opened Topics
  import opened Model
  import opened Simulator
  import opened Runtime
  import opened Retained

  /** The publications since the bridge last declared itself offline: those of the latest snapshot and after. */
  function Since(log: seq<Publish>): seq<Publish> {
    if log == [] then []
    else if log[|log| - 1] == BRIDGE_OFFLINE then []
    else Since(log[..|log| - 1]) + [log[|log| - 1]]
  }

  predicate Mentions(log: seq<Publish>, t: Topic) {
    exists p | p in log :: p.topic == t && p.retain
  }

  /** Both retained topics of the address were published again in the latest snapshot or after it. */
  predicate Republished(log: seq<Publish>, a: Address) {
    Mentions(Since(log), StateTopic(a)) && Mentions(Since(log), ConfidenceTopic(a))
  }

  /** The topic retains "online" now, or this run has not touched what was retained before it. */
  predicate MaybeOnline(log: seq<Publish>, t: Topic) {
    LastRetained(log, t) == None || LastRetained(log, t) == Some(Text("online"))
  }

  ghost predicate AllRepublished(cfg: Config, log: seq<Publish>, id: DeviceId) {
    forall a | a in cfg.addresses && a.deviceId == id :: Republished(log, a)
  }

  /** A device that may be seen online has all of its addresses freshly published. */
  ghost predicate DeviceReady(cfg: Config, log: seq<Publish>, id: DeviceId) {
    MaybeOnline(log, DeviceAvailability(id)) ==> AllRepublished(cfg, log, id)
  }

  /** While the bridge may be seen online, every device is ready. */
  ghost predicate Gated(cfg: Config, log: seq<Publish>) {
    MaybeOnline(log, BridgeAvailability) ==> forall d | d in cfg.devices :: DeviceReady(cfg, log, d.deviceId)
  }

  /** The gate held after every publication of the run so far. */
  ghost predicate AlwaysGated(cfg: Config, log: seq<Publish>) {
    forall n | 0 < n <= |log| :: Gated(cfg, log[..n])
  }

  predicate BridgeOff(log: seq<Publish>) {
    LastRetained(log, BridgeAvailability) == Some(Text("offline"))
  }

  lemma AlwaysGatedStep(cfg: Config, log: seq<Publish>, p: Publish)
    requires AlwaysGated(cfg, log) && Gated(cfg, log + [p])
    ensures AlwaysGated(cfg, log + [p])
  {
    var longer := log + [p];
    forall n | 0 < n <= |longer| ensures Gated(cfg, longer[..n]) {
      if n <= |log| {
        assert longer[..n] == log[..n];
      } else {
        assert longer[..n] == longer;
      }
    }
  }

  lemma RepublishedAppend(log: seq<Publish>, p: Publish, a: Address)
    requires p != BRIDGE_OFFLINE
    ensures Republished(log, a) ==> Republished(log + [p], a)
    ensures p.retain && p.topic == StateTopic(a) ==> Mentions(Since(log + [p]), StateTopic(a))
    ensures p.retain && p.topic == ConfidenceTopic(a) ==> Mentions(Since(log + [p]), ConfidenceTopic(a))
    ensures Mentions(Since(log), StateTopic(a)) ==> Mentions(Since(log + [p]), StateTopic(a))
  {
    assert (log + [p])[..|log|] == log;
    assert forall q | q in Since(log) :: q in Since(log + [p]);
    assert p in Since(log + [p]);
  }

  /** What publishing keeps of readiness: everything but the publication of an availability. */
  ghost predicate KeepsReady(cfg: Config, log: seq<Publish>, longer: seq<Publish>) {
    && (forall t: Topic | t.BridgeAvailability? || t.DeviceAvailability? ::
        LastRetained(longer, t) == LastRetained(log, t))
    && (forall a | Republished(log, a) :: Republished(longer, a))
  }

  lemma ReadyIsKept(cfg: Config, log: seq<Publish>, longer: seq<Publish>)
    requires KeepsReady(cfg, log, longer)
    ensures forall id | DeviceReady(cfg, log, id) :: DeviceReady(cfg, longer, id)
    ensures Gated(cfg, log) ==> Gated(cfg, longer)
    ensures BridgeOff(longer) == BridgeOff(log)
  {
    forall id | DeviceReady(cfg, log, id) ensures DeviceReady(cfg, longer, id) {
      assert LastRetained(longer, DeviceAvailability(id)) == LastRetained(log, DeviceAvailability(id));
    }
    assert LastRetained(longer, BridgeAvailability) == LastRetained(log, BridgeAvailability);
  }

  lemma PlainAppendKeepsReady(cfg: Config, log: seq<Publish>, p: Publish)
    requires !p.topic.BridgeAvailability? && !p.topic.DeviceAvailability?
    ensures KeepsReady(cfg, log, log + [p])
  {
    forall t: Topic | t.BridgeAvailability? || t.DeviceAvailability?
      ensures LastRetained(log + [p], t) == LastRetained(log, t)
    {
      RetainedAppend(log, p, t);
    }
    forall a | Republished(log, a) ensures Republished(log + [p], a) {
      RepublishedAppend(log, p, a);
    }
  }

  /** What a stretch of publishing keeps when it leaves availability alone. */
  ghost predicate KeepsGate(cfg: Config, log: seq<Publish>, longer: seq<Publish>) {
    && KeepsReady(cfg, log, longer)
    && log <= longer
    && (log != [] && AlwaysGated(cfg, log) ==> AlwaysGated(cfg, longer))
  }

  lemma PlainAppendKeepsGate(cfg: Config, log: seq<Publish>, p: Publish)
    requires !p.topic.BridgeAvailability? && !p.topic.DeviceAvailability?
    ensures KeepsGate(cfg, log, log + [p])
  {
    hide Gated, KeepsReady;
    PlainAppendKeepsReady(cfg, log, p);
    ReadyIsKept(cfg, log, log + [p]);
    if log != [] && AlwaysGated(cfg, log) {
      assert log[..|log|] == log;
      AlwaysGatedStep(cfg, log, p);
    }
  }

  lemma KeepsGateTwice(cfg: Config, a: seq<Publish>, b: seq<Publish>, c: seq<Publish>)
    requires KeepsGate(cfg, a, b) && KeepsGate(cfg, b, c)
    ensures KeepsGate(cfg, a, c)
  {
    hide Gated, Republished, LastRetained;
  }

  // ---- observations ----

  lemma PublishToKeepsGate(e: RtEnv, cfg: Config, st: St, p: Publish)
    requires !p.topic.BridgeAvailability? && !p.topic.DeviceAvailability?
    ensures KeepsGate(cfg, st.mq.log, PublishTo(e, st, p).0.mq.log)
  {
    hide KeepsReady, AlwaysGated;
    PlainAppendKeepsGate(cfg, st.mq.log, p);
    NothingKeepsGate(cfg, st.mq.log);
  }

  lemma NothingKeepsGate(cfg: Config, log: seq<Publish>)
    ensures KeepsGate(cfg, log, log)
  {
  }

  lemma ObservationKeepsGate(e: RtEnv, cfg: Config, st: St, a: Address, o: Observation)
    ensures var (r, published, ok) := PublishObservation(e, st, a, o);
            KeepsGate(cfg, st.mq.log, r.mq.log) && (ok && published ==> Republished(r.mq.log, a))
  {
    hide KeepsGate, Since;
    NothingKeepsGate(cfg, st.mq.log);
    if o.value.BoolValue? {
      var p, q := StatePublish(a, o.value.b), ConfidencePublish(a, o.confidence);
      PublishToKeepsGate(e, cfg, st, p);
      var (st1, _) := PublishTo(e, st, p);
      PublishToKeepsGate(e, cfg, st1, q);
      var (st2, _) := PublishTo(e, st1, q);
      KeepsGateTwice(cfg, st.mq.log, st1.mq.log, st2.mq.log);
      RepublishedAppend(st.mq.log, p, a);
      RepublishedAppend(st.mq.log + [p], q, a);
    }
  }

  lemma AddressStepKeepsGate(e: RtEnv, cfg: Config, st: St, id: DeviceId, a: Address, complete: bool)
    requires a in cfg.modes ==> cfg.modes[a] == Observable
    ensures var (r, complete1, ok) := AddressStep(e, cfg, st, id, a, complete);
            && KeepsGate(cfg, st.mq.log, r.mq.log)
            && (ok && complete1 ==> complete && (a.deviceId == id ==> Republished(r.mq.log, a)))
  {
    hide KeepsGate, PublishObservation, Republished;
    NothingKeepsGate(cfg, st.mq.log);
    var (st1, o) := AskObservation(e, st, a);
    if o.Some? {
      ObservationKeepsGate(e, cfg, st1, a, o.value);
    }
  }

  lemma {:induction false} AddressesKeepGate(e: RtEnv, cfg: Config, st: St, id: DeviceId, addresses: seq<Address>,
                                             complete: bool)
    requires forall a | a in cfg.modes :: cfg.modes[a] == Observable
    ensures var (r, complete1, ok) := AddressesFrom(e, cfg, st, id, addresses, complete);
            && KeepsGate(cfg, st.mq.log, r.mq.log)
            && (ok && complete1 ==> complete && forall a | a in addresses && a.deviceId == id ::
                Republished(r.mq.log, a))
    decreases |addresses|
  {
    hide AddressStep, Republished, Gated, LastRetained;
    if addresses == [] {
      NothingKeepsGate(cfg, st.mq.log);
    } else {
      AddressStepKeepsGate(e, cfg, st, id, addresses[0], complete);
      var (st1, complete1, ok1) := AddressStep(e, cfg, st, id, addresses[0], complete);
      AddressesKeepGate(e, cfg, st1, id, addresses[1..], complete1);
      var (r, _, _) := AddressesFrom(e, cfg, st1, id, addresses[1..], complete1);
      KeepsGateTwice(cfg, st.mq.log, st1.mq.log, r.mq.log);
    }
  }

  // ---- snapshots ----

  /** Inside a snapshot: the bridge has declared itself offline and the gate has held so far. */
  ghost predicate InSnapshot(cfg: Config, log: seq<Publish>) {
    log != [] && BridgeOff(log) && AlwaysGated(cfg, log)
  }

  lemma OffAppend(cfg: Config, log: seq<Publish>, p: Publish)
    requires AlwaysGated(cfg, log) && BridgeOff(log + [p])
    ensures InSnapshot(cfg, log + [p])
  {
    hide DeviceReady, LastRetained;
    AlwaysGatedStep(cfg, log, p);
  }

  lemma AvailabilityInSnapshot(e: RtEnv, cfg: Config, st: St, id: DeviceId, state: AvailabilityState)
    requires InSnapshot(cfg, st.mq.log) && (state == Online ==> AllRepublished(cfg, st.mq.log, id))
    ensures var (r, ok) := PublishAvailability(e, st, id, state);
            && InSnapshot(cfg, r.mq.log)
            && (forall other | DeviceReady(cfg, st.mq.log, other) :: DeviceReady(cfg, r.mq.log, other))
            && (ok ==> DeviceReady(cfg, r.mq.log, id))
  {
    hide Since, Gated, AlwaysGated;
    var log, p := st.mq.log, AvailabilityPublish(id, state);
    RetainedAppend(log, p, BridgeAvailability);
    OffAppend(cfg, log, p);
    forall other
      ensures LastRetained(log + [p], DeviceAvailability(other))
           == if other == id then Some(p.payload) else LastRetained(log, DeviceAvailability(other))
    {
      RetainedAppend(log, p, DeviceAvailability(other));
    }
    forall a | Republished(log, a) ensures Republished(log + [p], a) {
      RepublishedAppend(log, p, a);
    }
    if state != Online {
      NamesDiffer(state);
    }
  }

  lemma NamesDiffer(state: AvailabilityState)
    requires state != Online
    ensures state.Name() != "online"
  {
    assert "online"[1] == 'n' && "offline"[1] == 'f' && |"unknown"| == 7;
  }

  lemma DeviceInSnapshot(e: RtEnv, cfg: Config, st: St, id: DeviceId)
    requires InSnapshot(cfg, st.mq.log) && forall a | a in cfg.modes :: cfg.modes[a] == Observable
    ensures var (r, ok) := DeviceStep(e, cfg, st, id);
            && InSnapshot(cfg, r.mq.log)
            && (forall other | DeviceReady(cfg, st.mq.log, other) :: DeviceReady(cfg, r.mq.log, other))
            && (ok ==> DeviceReady(cfg, r.mq.log, id))
  {
    hide AddressesFrom, PublishAvailability, DeviceReady, Gated, AlwaysGated, LastRetained, Republished;
    AddressesKeepGate(e, cfg, st, id, cfg.addresses, true);
    var (st1, complete, ok) := AddressesFrom(e, cfg, st, id, cfg.addresses, true);
    ReadyIsKept(cfg, st.mq.log, st1.mq.log);
    var (st2, state) := AskAvailability(e, st1, id);
    assert st2.mq == st1.mq;
    if ok {
      AvailabilityInSnapshot(e, cfg, st2, id, if complete then state else Offline);
    }
  }

  lemma {:induction false} DevicesInSnapshot(e: RtEnv, cfg: Config, st: St, devices: seq<RuntimeDevice>)
    requires InSnapshot(cfg, st.mq.log) && forall a | a in cfg.modes :: cfg.modes[a] == Observable
    ensures var (r, ok) := DevicesFrom(e, cfg, st, devices);
            && InSnapshot(cfg, r.mq.log)
            && (forall other | DeviceReady(cfg, st.mq.log, other) :: DeviceReady(cfg, r.mq.log, other))
            && (ok ==> forall d | d in devices :: DeviceReady(cfg, r.mq.log, d.deviceId))
    decreases |devices|
  {
    hide DeviceStep, DeviceReady, InSnapshot;
    if devices != [] {
      DeviceInSnapshot(e, cfg, st, devices[0].deviceId);
      DevicesInSnapshot(e, cfg, DeviceStep(e, cfg, st, devices[0].deviceId).0, devices[1..]);
    }
  }

  lemma {:induction false} DiscoveryInSnapshot(e: RtEnv, cfg: Config, st: St, devices: seq<RuntimeDevice>)
    requires InSnapshot(cfg, st.mq.log)
    ensures InSnapshot(cfg, DiscoveryFrom(e, st, devices).0.mq.log)
    decreases |devices|
  {
    hide InSnapshot;
    if devices != [] {
      var p := Publish(DiscoveryTopic(devices[0].deviceId), DiscoveryDocument(devices[0]), QOS, false);
      PlainInSnapshot(e, cfg, st, p);
      DiscoveryInSnapshot(e, cfg, PublishTo(e, st, p).0, devices[1..]);
    }
  }

  lemma PlainInSnapshot(e: RtEnv, cfg: Config, st: St, p: Publish)
    requires InSnapshot(cfg, st.mq.log) && !p.topic.BridgeAvailability? && !p.topic.DeviceAvailability?
    ensures InSnapshot(cfg, PublishTo(e, st, p).0.mq.log)
  {
    hide Gated, AlwaysGated;
    RetainedAppend(st.mq.log, p, BridgeAvailability);
    OffAppend(cfg, st.mq.log, p);
  }

  lemma OfflineStartsSnapshot(cfg: Config, log: seq<Publish>)
    requires AlwaysGated(cfg, log)
    ensures InSnapshot(cfg, log + [BRIDGE_OFFLINE])
  {
    hide Gated, AlwaysGated;
    RetainedAppend(log, BRIDGE_OFFLINE, BridgeAvailability);
    OffAppend(cfg, log, BRIDGE_OFFLINE);
  }

  /** The closing "online" of a snapshot opens the gate only when every device is ready. */
  lemma OnlineEndsSnapshot(cfg: Config, log: seq<Publish>)
    requires InSnapshot(cfg, log) && forall d | d in cfg.devices :: DeviceReady(cfg, log, d.deviceId)
    ensures AlwaysGated(cfg, log + [BRIDGE_ONLINE])
  {
    var p, longer := BRIDGE_ONLINE, log + [BRIDGE_ONLINE];
    assert p.payload != BRIDGE_OFFLINE.payload by { assert |"online"| != |"offline"|; }
    forall d | d in cfg.devices ensures DeviceReady(cfg, longer, d.deviceId) {
      OnlineKeepsReady(cfg, log, d.deviceId);
    }
    AlwaysGatedStep(cfg, log, p);
  }

  lemma OnlineKeepsReady(cfg: Config, log: seq<Publish>, id: DeviceId)
    requires DeviceReady(cfg, log, id) && BRIDGE_ONLINE != BRIDGE_OFFLINE
    ensures DeviceReady(cfg, log + [BRIDGE_ONLINE], id)
  {
    hide Since;
    RetainedAppend(log, BRIDGE_ONLINE, DeviceAvailability(id));
    forall a | Republished(log, a) ensures Republished(log + [BRIDGE_ONLINE], a) {
      RepublishedAppend(log, BRIDGE_ONLINE, a);
    }
  }

  lemma SnapshotIsGated(e: RtEnv, cfg: Config, st: St)
    requires AlwaysGated(cfg, st.mq.log) && forall a | a in cfg.modes :: cfg.modes[a] == Observable
    ensures var (r, ok) := PublishSnapshot(e, cfg, st);
            AlwaysGated(cfg, r.mq.log) && (ok ==> r.mq.log != [])
  {
    hide DiscoveryFrom, DevicesFrom, AlwaysGated, DeviceReady, BridgeOff;
    OfflineStartsSnapshot(cfg, st.mq.log);
    var (st1, ok1) := PublishTo(e, st, BRIDGE_OFFLINE);
    if ok1 {
      DiscoveryInSnapshot(e, cfg, st1, cfg.devices);
      var (st2, ok2) := DiscoveryFrom(e, st1, cfg.devices);
      DevicesInSnapshot(e, cfg, st2, cfg.devices);
      var (st3, ok3) := DevicesFrom(e, cfg, st2, cfg.devices);
      if ok2 && ok3 {
        OnlineEndsSnapshot(cfg, st3.mq.log);
      }
    }
  }

  // ---- the loop ----

  /** An observable, non-refreshable backend behind a runtime whose broker has been gated so far. */
  ghost predicate GateInv(cfg: Config, st: St) {
    && !st.back.HarmonyG2? && (forall a | a in cfg.modes :: cfg.modes[a] == Observable)
    && (forall a | a in cfg.addresses :: a in cfg.modes)
    && AlwaysGated(cfg, st.mq.log) && (st.connected ==> st.mq.log != [])
  }

  lemma ServedCommandIsGated(e: RtEnv, cfg: Config, st: St, a: Address, on: bool)
    requires GateInv(cfg, st) && st.connected && a in cfg.addresses
    ensures var r := ServeCommand(e, cfg, st, a, on).0;
            GateInv(cfg, r) && r.connected
  {
    hide SimSetDesired, PublishObservation, AlwaysGated, KeepsReady;
    var c := Command(st.requests, a.deviceId, a.endpoint, a.capability, BoolValue(on));
    var (st2, result) := AskCommand(e, st.(requests := st.requests + 1), c);
    if result.Success? && result.value.status.Confirmed? {
      ObservationKeepsGate(e, cfg, st2, a, result.value.status.observation);
      PublishObservationKeeps(e, st2, a, result.value.status.observation);
    }
  }

  lemma MessageIsGated(e: RtEnv, cfg: Config, st: St, m: BrokerEvent)
    requires GateInv(cfg, st) && st.connected && m.Message?
    ensures var (r, ok) := HandleMessage(e, cfg, st, m);
            GateInv(cfg, r) && r.connected
  {
    hide ServeCommand, PublishSnapshot, AlwaysGated, CacheAgrees, DecodeOnOff, ParseCommandTopic;
    if m.topic == cfg.statusTopic {
      SnapshotIsGated(e, cfg, st);
      SnapshotKeeps(e, cfg, st);
    } else if Addressed(cfg, m).Some? {
      var a := Addressed(cfg, m).value;
      var (st1, state) := AskAvailability(e, st, a.deviceId);
      assert GateInv(cfg, st1);
      if DecodeOnOff(m.payload).Some? {
        ServedCommandIsGated(e, cfg, st1, a, DecodeOnOff(m.payload).value);
      }
    }
  }

  lemma TurnIsGated(e: RtEnv, cfg: Config, st: St, input: Input)
    requires GateInv(cfg, st)
    ensures var (r, exit) := Turn(e, cfg, st, input);
            && AlwaysGated(cfg, r.mq.log) && (exit == Running ==> GateInv(cfg, r))
  {
    hide HandleMessage, PublishSnapshot, Subscribe, AlwaysGated, CacheAgrees;
    OfflineStartsSnapshot(cfg, st.mq.log);
    var st0 := FireWill(st, input.will);
    assert GateInv(cfg, st0);
    if !input.stop {
      if input.event == Some(Connected) {
        var st1 := st0.(connected := true);
        SubscribeKeeps(e, st1, SubscriptionNames(cfg));
        var st2 := Subscribe(e, st1, SubscriptionNames(cfg)).0;
        SnapshotIsGated(e, cfg, st2);
        SnapshotKeeps(e, cfg, st2);
      } else if input.event.Some? && input.event.value.Message? && st0.connected {
        MessageIsGated(e, cfg, st0, input.event.value);
      }
    }
  }

  /** For every observable backend without refresh, scripted arbitrarily, and every run: after every single
      publication, also in the middle of a snapshot and when a turn ends in an exception, if the bridge may be
      seen online, then each device that may be seen online had the state and confidence of all its addresses
      published in the latest snapshot or after it. */
  lemma {:induction false} SnapshotGate(e: RtEnv, cfg: Config, st: St, inputs: seq<Input>)
    requires GateInv(cfg, st) && st.mq.log == [] && !st.connected
    ensures var (r, exit) := RunLoop(e, cfg, st, inputs);
            && AlwaysGated(cfg, r.mq.log) && (exit == Running ==> GateInv(cfg, r))
  {
    hide Turn, GateInv, AlwaysGated;
    if inputs == [] {
      EmptyIsGated(cfg, st);
    } else {
      SnapshotGate(e, cfg, st, inputs[..|inputs| - 1]);
      var (before, earlier) := RunLoop(e, cfg, st, inputs[..|inputs| - 1]);
      if earlier == Running {
        TurnIsGated(e, cfg, before, inputs[|inputs| - 1]);
      }
    }
  }

  lemma EmptyIsGated(cfg: Config, st: St)
    requires st.mq.log == []
    ensures AlwaysGated(cfg, st.mq.log)
  {
  }
}
