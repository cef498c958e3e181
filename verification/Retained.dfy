/** What the broker retains, and why the availability cache never disagrees with it (MQTT 5.0, section 3.3.1.3). */
module Retained {
  import opened Wrappers
  import opened Identity
  import opened Topics
  import opened Model
  import opened Backend
  import opened Simulator
  import opened Runtime

  /** The payload retained for a topic by this run's publications; None leaves what was retained before. */
  function LastRetained(log: seq<Publish>, t: Topic): Option<Payload> {
    if log == [] then None
    else
      var last := log[|log| - 1];
      if last.retain && last.topic == t then Some(last.payload) else LastRetained(log[..|log| - 1], t)
  }

  /** The same for a topic name on the wire. */
  function WireRetained(layout: TopicLayout, log: seq<Publish>, name: string): Option<Payload> {
    if log == [] then None
    else
      var last := log[|log| - 1];
      if last.retain && Render(layout, last.topic) == name then Some(last.payload)
      else WireRetained(layout, log[..|log| - 1], name)
  }

  /** Topic names never collide, so the broker's view by name is the model's view by topic. */
  lemma {:induction false} RetainedByName(layout: TopicLayout, log: seq<Publish>, t: Topic)
    ensures WireRetained(layout, log, Render(layout, t)) == LastRetained(log, t)
  {
    hide Render;
    if log != [] {
      RenderInjective(layout, log[|log| - 1].topic, t);
      RetainedByName(layout, log[..|log| - 1], t);
    }
  }

  lemma RetainedAppend(log: seq<Publish>, p: Publish, t: Topic)
    ensures LastRetained(log + [p], t) == if p.retain && p.topic == t then Some(p.payload) else LastRetained(log, t)
  {
    assert (log + [p])[..|log|] == log;
  }

  /** Every cached availability is the one retained for that device. */
  ghost predicate CacheAgrees(st: St) {
    forall id | id in st.cache :: LastRetained(st.mq.log, DeviceAvailability(id)) == Some(Text(st.cache[id].Name()))
  }

  /** The backend and its history, as far as publishing can affect them. */
  predicate SameBack(st: St, r: St) {
    && r.w.trace == st.w.trace && r.w.store == st.w.store
    && (st.back.Other? <==> r.back.Other?)
    && (!st.back.Other? ==> r.back == st.back)
  }

  /** What publishing keeps: the backend, the connection flag, the log so far and the cache agreement. */
  ghost predicate Publishes(st: St, r: St) {
    && SameBack(st, r)
    && r.connected == st.connected && r.requests == st.requests
    && st.mq.log <= r.mq.log
    && (CacheAgrees(st) ==> CacheAgrees(r))
  }

  lemma PublishToKeeps(e: RtEnv, st: St, p: Publish)
    requires !p.topic.DeviceAvailability?
    ensures Publishes(st, PublishTo(e, st, p).0)
  {
    forall id
      ensures LastRetained(st.mq.log + [p], DeviceAvailability(id)) == LastRetained(st.mq.log, DeviceAvailability(id))
    {
      RetainedAppend(st.mq.log, p, DeviceAvailability(id));
    }
  }

  lemma PublishAvailabilityKeeps(e: RtEnv, st: St, id: DeviceId, state: AvailabilityState)
    ensures var (r, ok) := PublishAvailability(e, st, id, state);
            && Publishes(st, r)
            && (ok ==> r.cache == st.cache[id := state])
            && (!ok ==> r.cache == st.cache && r.mq.log == st.mq.log)
  {
    var p := AvailabilityPublish(id, state);
    forall other ensures LastRetained(st.mq.log + [p], DeviceAvailability(other))
                      == if other == id then Some(Text(state.Name()))
                         else LastRetained(st.mq.log, DeviceAvailability(other))
    {
      RetainedAppend(st.mq.log, p, DeviceAvailability(other));
    }
  }

  lemma AskAvailabilityKeeps(e: RtEnv, st: St, id: DeviceId)
    ensures var (r, _) := AskAvailability(e, st, id);
            Publishes(st, r) && r.cache == st.cache && r.mq == st.mq
  {
  }

  lemma PublishObservationKeeps(e: RtEnv, st: St, a: Address, o: Observation)
    ensures Publishes(st, PublishObservation(e, st, a, o).0)
  {
    hide PublishTo, CacheAgrees;
    if o.value.BoolValue? {
      PublishToKeeps(e, st, StatePublish(a, o.value.b));
      var (st1, _) := PublishTo(e, st, StatePublish(a, o.value.b));
      PublishToKeeps(e, st1, ConfidencePublish(a, o.confidence));
    }
  }

  lemma AddressStepKeeps(e: RtEnv, cfg: Config, st: St, id: DeviceId, a: Address, complete: bool)
    ensures Publishes(st, AddressStep(e, cfg, st, id, a, complete).0)
  {
    hide PublishObservation;
    var (st1, o) := AskObservation(e, st, a);
    assert Publishes(st, st1);
    if o.Some? {
      PublishObservationKeeps(e, st1, a, o.value);
    }
  }

  lemma {:induction false} AddressesKeep(e: RtEnv, cfg: Config, st: St, id: DeviceId, addresses: seq<Address>,
                                         complete: bool)
    ensures Publishes(st, AddressesFrom(e, cfg, st, id, addresses, complete).0)
    decreases |addresses|
  {
    hide AddressStep, CacheAgrees;
    if addresses != [] {
      AddressStepKeeps(e, cfg, st, id, addresses[0], complete);
      var (st1, complete1, _) := AddressStep(e, cfg, st, id, addresses[0], complete);
      AddressesKeep(e, cfg, st1, id, addresses[1..], complete1);
    }
  }

  lemma DeviceStepKeeps(e: RtEnv, cfg: Config, st: St, id: DeviceId)
    ensures Publishes(st, DeviceStep(e, cfg, st, id).0)
  {
    hide AddressesFrom, AskAvailability, PublishAvailability, CacheAgrees;
    AddressesKeep(e, cfg, st, id, cfg.addresses, true);
    var (st1, complete, ok) := AddressesFrom(e, cfg, st, id, cfg.addresses, true);
    AskAvailabilityKeeps(e, st1, id);
    var (st2, state) := AskAvailability(e, st1, id);
    PublishAvailabilityKeeps(e, st2, id, if complete then state else Offline);
  }

  lemma {:induction false} DevicesKeep(e: RtEnv, cfg: Config, st: St, devices: seq<RuntimeDevice>)
    ensures Publishes(st, DevicesFrom(e, cfg, st, devices).0)
    decreases |devices|
  {
    hide DeviceStep, CacheAgrees;
    if devices != [] {
      DeviceStepKeeps(e, cfg, st, devices[0].deviceId);
      DevicesKeep(e, cfg, DeviceStep(e, cfg, st, devices[0].deviceId).0, devices[1..]);
    }
  }

  lemma {:induction false} DiscoveryKeeps(e: RtEnv, st: St, devices: seq<RuntimeDevice>)
    ensures Publishes(st, DiscoveryFrom(e, st, devices).0)
    decreases |devices|
  {
    hide PublishTo, CacheAgrees;
    if devices != [] {
      var p := Publish(DiscoveryTopic(devices[0].deviceId), DiscoveryDocument(devices[0]), QOS, false);
      PublishToKeeps(e, st, p);
      DiscoveryKeeps(e, PublishTo(e, st, p).0, devices[1..]);
    }
  }

  lemma SnapshotKeeps(e: RtEnv, cfg: Config, st: St)
    ensures Publishes(st, PublishSnapshot(e, cfg, st).0)
  {
    hide PublishTo, DiscoveryFrom, DevicesFrom, CacheAgrees;
    PublishToKeeps(e, st, BRIDGE_OFFLINE);
    var (st1, _) := PublishTo(e, st, BRIDGE_OFFLINE);
    DiscoveryKeeps(e, st1, cfg.devices);
    var (st2, _) := DiscoveryFrom(e, st1, cfg.devices);
    DevicesKeep(e, cfg, st2, cfg.devices);
    var (st3, _) := DevicesFrom(e, cfg, st2, cfg.devices);
    PublishToKeeps(e, st3, BRIDGE_ONLINE);
  }

  /** The state that the gateway backend reports for a device it knows. */
  predicate UpToDate(st: St, id: DeviceId) {
    && st.back.HarmonyG2? && id in st.back.g.availability && id in st.cache
    && st.cache[id] == st.back.g.availability[id].state
  }

  lemma ChangedStepKeeps(e: RtEnv, st: St, id: DeviceId, force: Option<DeviceId>)
    ensures var (r, ok) := ChangedStep(e, st, id, force);
            && Publishes(st, r)
            && (forall other | UpToDate(st, other) :: UpToDate(r, other))
            && (ok && st.back.HarmonyG2? && id in st.back.g.availability ==> UpToDate(r, id))
  {
    hide PublishAvailability, CacheAgrees;
    AskAvailabilityKeeps(e, st, id);
    var (st1, state) := AskAvailability(e, st, id);
    PublishAvailabilityKeeps(e, st1, id, state);
  }

  /** Publishing only what changed leaves every device of a refreshable backend cached, and so retained, at the
      state the backend reports: the skipped publications lose nothing. */
  lemma {:induction false} ChangedKeeps(e: RtEnv, st: St, devices: seq<RuntimeDevice>, force: Option<DeviceId>)
    ensures var (r, ok) := ChangedFrom(e, st, devices, force);
            && Publishes(st, r)
            && (forall id | UpToDate(st, id) :: UpToDate(r, id))
            && (ok && st.back.HarmonyG2? ==>
                forall d | d in devices && d.deviceId in st.back.g.availability :: UpToDate(r, d.deviceId))
    decreases |devices|
  {
    hide ChangedStep, CacheAgrees, UpToDate;
    if devices != [] {
      ChangedStepKeeps(e, st, devices[0].deviceId, force);
      var (st1, _) := ChangedStep(e, st, devices[0].deviceId, force);
      ChangedKeeps(e, st1, devices[1..], force);
    }
  }

  /** Subscribing touches nothing but the subscriptions: it adds an initial run of the names, all of them if it
      returns. */
  lemma {:induction false} SubscribeKeeps(e: RtEnv, st: St, names: seq<string>)
    ensures var (r, ok) := Subscribe(e, st, names);
            && r == st.(mq := st.mq.(names := r.mq.names, calls := r.mq.calls))
            && (exists k :: 0 <= k <= |names| && r.mq.names == st.mq.names + names[..k] && (ok <==> k == |names|))
    decreases |names|
  {
    var (r, ok) := Subscribe(e, st, names);
    if names == [] {
      assert r.mq.names == st.mq.names + names[..0];
    } else if e.accepts(st.mq.calls) {
      var st1 := st.(mq := st.mq.(names := st.mq.names + [names[0]], calls := st.mq.calls + 1));
      SubscribeKeeps(e, st1, names[1..]);
      var k :| 0 <= k <= |names[1..]| && r.mq.names == st1.mq.names + names[1..][..k] && (ok <==> k == |names[1..]|);
      assert names[..k + 1] == [names[0]] + names[1..][..k];
      assert r.mq.names == st.mq.names + names[..k + 1];
    } else {
      assert r.mq.names == st.mq.names + names[..0];
    }
  }

  lemma ReportKeeps(e: RtEnv, cfg: Config, st: St, a: Address, on: bool, status: Status)
    ensures Publishes(st, ReportOutcome(e, cfg, st, a, on, status).0)
  {
    hide PublishTo, ChangedFrom, PublishObservation, CacheAgrees;
    if a in cfg.modes && cfg.modes[a] == CommandOnly {
      var p := Publish(LastCommandTopic(a), LastCommandDocument(on, status, e.env.clock(st.w.ticks)), QOS, true);
      var ticked := st.(w := Tick(st.w));
      assert Publishes(st, ticked) by { SameCache(st, ticked); }
      PublishToKeeps(e, ticked, p);
      ChangedKeeps(e, PublishTo(e, ticked, p).0, cfg.devices, Some(a.deviceId));
    } else if status.Confirmed? {
      PublishObservationKeeps(e, st, a, status.observation);
    }
  }

  lemma SameCache(st: St, r: St)
    requires r.cache == st.cache && r.mq.log == st.mq.log
    ensures CacheAgrees(st) == CacheAgrees(r)
  {
  }

  lemma WillKeeps(e: RtEnv, cfg: Config, st: St, fires: bool)
    ensures var r := FireWill(st, fires);
            && SameBack(st, r) && r.connected == st.connected && st.mq.log <= r.mq.log
            && (CacheAgrees(st) ==> CacheAgrees(r))
  {
    forall id ensures LastRetained(st.mq.log + [BRIDGE_OFFLINE], DeviceAvailability(id))
                   == LastRetained(st.mq.log, DeviceAvailability(id)) {
      RetainedAppend(st.mq.log, BRIDGE_OFFLINE, DeviceAvailability(id));
    }
  }

  // ---- whole runs, over any backend ----

  lemma ServingKeepsCache(e: RtEnv, cfg: Config, st: St, a: Address, on: bool)
    requires CacheAgrees(st)
    ensures CacheAgrees(ServeCommand(e, cfg, st, a, on).0)
  {
    hide SetDesired, SimSetDesired, ReportOutcome, CacheAgrees;
    var c := Command(st.requests, a.deviceId, a.endpoint, a.capability, BoolValue(on));
    var (st2, r) := AskCommand(e, st.(requests := st.requests + 1), c);
    SameCache(st, st2);
    if r.Success? {
      ReportKeeps(e, cfg, st2, a, on, r.value.status);
    }
  }

  lemma MessageKeepsCache(e: RtEnv, cfg: Config, st: St, m: BrokerEvent)
    requires m.Message? && CacheAgrees(st)
    ensures CacheAgrees(HandleMessage(e, cfg, st, m).0)
  {
    hide PublishSnapshot, ServeCommand, CacheAgrees, Addressed, AskAvailability, DecodeOnOff;
    if m.topic == cfg.statusTopic {
      SnapshotKeeps(e, cfg, st);
    } else if Addressed(cfg, m).Some? {
      var a := Addressed(cfg, m).value;
      AskAvailabilityKeeps(e, st, a.deviceId);
      var st1 := AskAvailability(e, st, a.deviceId).0;
      if DecodeOnOff(m.payload).Some? {
        ServingKeepsCache(e, cfg, st1, a, DecodeOnOff(m.payload).value);
      }
    }
  }

  lemma TurnKeepsCache(e: RtEnv, cfg: Config, st: St, input: Input)
    requires CacheAgrees(st)
    ensures CacheAgrees(Turn(e, cfg, st, input).0)
  {
    hide PublishSnapshot, HandleMessage, Subscribe, Refresh, ChangedFrom, CacheAgrees;
    WillKeeps(e, cfg, st, input.will);
    var st0 := FireWill(st, input.will);
    if input.stop {
      SameCache(st0, Turn(e, cfg, st, input).0);
    } else {
      DispatchKeepsCache(e, cfg, st0, input.event);
      var st1 := Dispatch(e, cfg, st0, input.event).0;
      UpkeepKeepsCache(e, cfg, st1);
    }
  }

  lemma DispatchKeepsCache(e: RtEnv, cfg: Config, st: St, event: Option<BrokerEvent>)
    requires CacheAgrees(st)
    ensures CacheAgrees(Dispatch(e, cfg, st, event).0)
  {
    hide PublishSnapshot, HandleMessage, Subscribe, CacheAgrees;
    if event == Some(Connected) {
      var st0 := st.(connected := true);
      SubscribeKeeps(e, st0, SubscriptionNames(cfg));
      var st1 := Subscribe(e, st0, SubscriptionNames(cfg)).0;
      SameCache(st, st1);
      SnapshotKeeps(e, cfg, st1);
    } else if event.Some? && event.value.Message? && st.connected {
      MessageKeepsCache(e, cfg, st, event.value);
    } else {
      SameCache(st, Dispatch(e, cfg, st, event).0);
    }
  }

  lemma UpkeepKeepsCache(e: RtEnv, cfg: Config, st: St)
    requires CacheAgrees(st)
    ensures CacheAgrees(Upkeep(e, cfg, st).0)
  {
    hide Refresh, ChangedFrom, CacheAgrees;
    if st.connected && st.back.HarmonyG2? {
      var s := Refresh(e.env, Sys(st.back.g, st.w)).0;
      var st1 := st.(back := HarmonyG2(s.g), w := s.w);
      SameCache(st, st1);
      ChangedKeeps(e, st1, cfg.devices, None);
    }
  }

  /** Over any backend and every run, at every turn and also when a turn ends in an exception: each cached
      availability is the payload that the broker retains under that device's topic name. */
  lemma {:induction false} CacheIsRetained(e: RtEnv, cfg: Config, st: St, inputs: seq<Input>)
    requires CacheAgrees(st)
    ensures var r := RunLoop(e, cfg, st, inputs).0;
            && CacheAgrees(r)
            && forall id | id in r.cache ::
                 WireRetained(cfg.layout, r.mq.log, Render(cfg.layout, DeviceAvailability(id)))
                     == Some(Text(r.cache[id].Name()))
  {
    hide Turn, Render;
    var r := RunLoop(e, cfg, st, inputs).0;
    if inputs != [] {
      var front := inputs[..|inputs| - 1];
      CacheIsRetained(e, cfg, st, front);
      TurnKeepsCache(e, cfg, RunLoop(e, cfg, st, front).0, inputs[|inputs| - 1]);
    }
    forall id | id in r.cache
      ensures WireRetained(cfg.layout, r.mq.log, Render(cfg.layout, DeviceAvailability(id)))
              == Some(Text(r.cache[id].Name()))
    {
      RetainedByName(cfg.layout, r.mq.log, DeviceAvailability(id));
    }
  }
}
