/** What a returned snapshot leaves on the broker, and when the bridge is seen online (runtime.py,
    `_publish_snapshot`). */
module Snapshots {
  import opened Wrappers
  import opened Identity
  import opened Topics
  import opened Model
  import opened Backend
  import opened Simulator
  import opened Runtime
  import opened Retained
  import opened Replay

  // ---- publications that leave the bridge topic and the reports alone ----

  predicate IsMinor(t: Topic) {
    t.DeviceAvailability? || t.StateTopic? || t.ConfidenceTopic?
  }

  /** The log grows by states, confidences and device availabilities only. */
  ghost predicate Minor(log: seq<Publish>, longer: seq<Publish>) {
    log <= longer && forall i | |log| <= i < |longer| :: IsMinor(longer[i].topic)
  }

  lemma {:induction false} MinorKeeps(log: seq<Publish>, longer: seq<Publish>, t: Topic)
    requires Minor(log, longer) && !IsMinor(t)
    ensures LastRetained(longer, t) == LastRetained(log, t)
  {
    if |log| < |longer| {
      assert longer[|longer| - 1].topic != t;
      MinorKeeps(log, longer[..|longer| - 1], t);
    } else {
      assert log == longer;
    }
  }

  lemma MinorTwice(a: seq<Publish>, b: seq<Publish>, c: seq<Publish>)
    requires Minor(a, b) && Minor(b, c)
    ensures Minor(a, c)
  {
  }

  lemma NothingIsMinor(log: seq<Publish>)
    ensures Minor(log, log)
  {
  }

  lemma PublishIsMinor(e: RtEnv, st: St, p: Publish)
    requires IsMinor(p.topic)
    ensures Minor(st.mq.log, PublishTo(e, st, p).0.mq.log)
  {
  }

  lemma ObservationIsMinor(e: RtEnv, st: St, a: Address, o: Observation)
    ensures Minor(st.mq.log, PublishObservation(e, st, a, o).0.mq.log)
  {
    hide PublishTo, Minor;
    NothingIsMinor(st.mq.log);
    if o.value.BoolValue? {
      PublishIsMinor(e, st, StatePublish(a, o.value.b));
      var st1 := PublishTo(e, st, StatePublish(a, o.value.b)).0;
      PublishIsMinor(e, st1, ConfidencePublish(a, o.confidence));
      MinorTwice(st.mq.log, st1.mq.log, PublishTo(e, st1, ConfidencePublish(a, o.confidence)).0.mq.log);
    }
  }

  lemma ChangedStepIsMinor(e: RtEnv, st: St, id: DeviceId, force: Option<DeviceId>)
    ensures Minor(st.mq.log, ChangedStep(e, st, id, force).0.mq.log)
  {
    hide PublishTo, Minor;
    NothingIsMinor(st.mq.log);
    var (st1, state) := AskAvailability(e, st, id);
    PublishIsMinor(e, st1, AvailabilityPublish(id, state));
  }

  lemma {:induction false} ChangedIsMinor(e: RtEnv, st: St, devices: seq<RuntimeDevice>, force: Option<DeviceId>)
    ensures Minor(st.mq.log, ChangedFrom(e, st, devices, force).0.mq.log)
    decreases |devices|
  {
    hide ChangedStep, Minor;
    NothingIsMinor(st.mq.log);
    if devices != [] {
      var st1 := ChangedStep(e, st, devices[0].deviceId, force).0;
      ChangedStepIsMinor(e, st, devices[0].deviceId, force);
      ChangedIsMinor(e, st1, devices[1..], force);
      MinorTwice(st.mq.log, st1.mq.log, ChangedFrom(e, st, devices, force).0.mq.log);
    }
  }

  // ---- what the backend is asked in a snapshot, and what it answers ----

  /** The backend after so many calls of `observation` and `availability`: only a script notices. */
  function Later(back: Back, calls: nat): Back {
    if back.Other? then Other(back.calls + calls) else back
  }

  function Observed(e: RtEnv, back: Back, a: Address): Option<Observation> {
    match back
    case HarmonyG2(_) => None
    case Simulator(sim) => if a in sim.observations then Some(sim.observations[a]) else None
    case Other(n) => e.script.observation(n, a)
  }

  function Reported(e: RtEnv, back: Back, id: DeviceId): AvailabilityState {
    match back
    case HarmonyG2(g) => if id in g.availability then g.availability[id].state else Unknown
    case Simulator(sim) => if id in sim.availability then sim.availability[id].state else Unknown
    case Other(n) => e.script.availability(n, id)
  }

  /** The addresses of a device that have feedback, in order. */
  function Watched(cfg: Config, id: DeviceId, addresses: seq<Address>): seq<Address> {
    if addresses == [] then []
    else
      var a := addresses[0];
      (if a.deviceId == id && !(a in cfg.modes && cfg.modes[a] == CommandOnly) then [a] else [])
      + Watched(cfg, id, addresses[1..])
  }

  /** Each of these addresses, asked one after the other, has a boolean observation. */
  ghost predicate AllSeen(e: RtEnv, back: Back, watched: seq<Address>) {
    forall j | 0 <= j < |watched| :: IsSeen(Observed(e, Later(back, j), watched[j]))
  }

  predicate IsSeen(o: Option<Observation>) {
    o.Some? && o.value.value.BoolValue?
  }

  /** The availability that a snapshot shows for a device: the backend's, if everything that has feedback was seen. */
  ghost function Shown(e: RtEnv, cfg: Config, back: Back, id: DeviceId): AvailabilityState {
    var watched := Watched(cfg, id, cfg.addresses);
    if AllSeen(e, back, watched) then Reported(e, Later(back, |watched|), id) else Offline
  }

  lemma SeenFromFirst(e: RtEnv, back: Back, watched: seq<Address>)
    requires watched != []
    ensures AllSeen(e, back, watched) <==>
              IsSeen(Observed(e, back, watched[0])) && AllSeen(e, Later(back, 1), watched[1..])
  {
    hide Observed, IsSeen;
    var rest := watched[1..];
    forall j | 0 <= j < |rest| ensures Later(back, j + 1) == Later(Later(back, 1), j) && rest[j] == watched[j + 1] {
    }
    if AllSeen(e, back, watched) {
      forall j | 0 <= j < |rest| ensures IsSeen(Observed(e, Later(Later(back, 1), j), rest[j])) {
        assert IsSeen(Observed(e, Later(back, j + 1), watched[j + 1]));
      }
      assert IsSeen(Observed(e, Later(back, 0), watched[0]));
    }
    if IsSeen(Observed(e, back, watched[0])) && AllSeen(e, Later(back, 1), rest) {
      forall j | 0 <= j < |watched| ensures IsSeen(Observed(e, Later(back, j), watched[j])) {
        if j > 0 {
          assert IsSeen(Observed(e, Later(Later(back, 1), j - 1), rest[j - 1]));
        }
      }
    }
  }

  lemma AddressStepTells(e: RtEnv, cfg: Config, st: St, id: DeviceId, a: Address, complete: bool)
    ensures var (r, c, ok) := AddressStep(e, cfg, st, id, a, complete);
            var watched := Watched(cfg, id, [a]);
            && Minor(st.mq.log, r.mq.log) && r.back == Later(st.back, |watched|) && r.cache == st.cache
            && (ok ==> (c <==> complete && (watched == [] || IsSeen(Observed(e, st.back, a)))))
  {
    hide PublishObservation, Minor;
    NothingIsMinor(st.mq.log);
    assert [a][1..] == [];
    var (st1, o) := AskObservation(e, st, a);
    if o.Some? {
      ObservationIsMinor(e, st1, a, o.value);
      ObservationTells(e, st1, a, o.value);
    }
  }

  /** A boolean observation is retained as ON or OFF, beside the name of its confidence. */
  lemma ObservationShows(e: RtEnv, st: St, a: Address, o: Observation)
    ensures var (r, published, ok) := PublishObservation(e, st, a, o);
            ok && o.value.BoolValue? ==>
              && LastRetained(r.mq.log, StateTopic(a)) == Some(Text(if o.value.b then "ON" else "OFF"))
              && LastRetained(r.mq.log, ConfidenceTopic(a))
                 == Some(Text(match o.confidence
                              case Observed => "observed"
                              case Assumed => "assumed"
                              case Stale => "stale"
                              case NoConfidence => "unknown"))
  {
    hide LastRetained;
    if o.value.BoolValue? {
      var p, q := StatePublish(a, o.value.b), ConfidencePublish(a, o.confidence);
      RetainedAppend(st.mq.log, p, StateTopic(a));
      RetainedAppend(st.mq.log + [p], q, StateTopic(a));
      RetainedAppend(st.mq.log + [p], q, ConfidenceTopic(a));
    }
  }

  lemma ObservationTells(e: RtEnv, st: St, a: Address, o: Observation)
    ensures var (r, published, ok) := PublishObservation(e, st, a, o);
            r.back == st.back && r.cache == st.cache && (ok ==> (published <==> o.value.BoolValue?))
  {
  }

  lemma {:induction false} AddressesTell(e: RtEnv, cfg: Config, st: St, id: DeviceId, addresses: seq<Address>,
                                         complete: bool)
    ensures var (r, c, ok) := AddressesFrom(e, cfg, st, id, addresses, complete);
            var watched := Watched(cfg, id, addresses);
            && Minor(st.mq.log, r.mq.log) && r.cache == st.cache
            && (ok ==> r.back == Later(st.back, |watched|) && (c <==> complete && AllSeen(e, st.back, watched)))
    decreases |addresses|
  {
    hide AddressStep, Minor, Observed, IsSeen;
    NothingIsMinor(st.mq.log);
    if addresses != [] {
      var a := addresses[0];
      AddressStepTells(e, cfg, st, id, a, complete);
      var (st1, complete1, ok1) := AddressStep(e, cfg, st, id, a, complete);
      AddressesTell(e, cfg, st1, id, addresses[1..], complete1);
      var r := AddressesFrom(e, cfg, st1, id, addresses[1..], complete1).0;
      MinorTwice(st.mq.log, st1.mq.log, r.mq.log);
      WatchedOne(cfg, id, addresses);
      var watched := Watched(cfg, id, addresses);
      if Watched(cfg, id, [a]) != [] {
        SeenFromFirst(e, st.back, watched);
      }
    }
  }

  lemma WatchedOne(cfg: Config, id: DeviceId, addresses: seq<Address>)
    requires addresses != []
    ensures Watched(cfg, id, [addresses[0]]) == [] || Watched(cfg, id, [addresses[0]]) == [addresses[0]]
    ensures Watched(cfg, id, addresses) == Watched(cfg, id, [addresses[0]]) + Watched(cfg, id, addresses[1..])
  {
    assert [addresses[0]][1..] == [];
  }

  // ---- devices ----

  lemma DeviceTells(e: RtEnv, cfg: Config, st: St, id: DeviceId)
    ensures var (r, ok) := DeviceStep(e, cfg, st, id);
            && Minor(st.mq.log, r.mq.log)
            && (ok ==> && r.cache == st.cache[id := Shown(e, cfg, st.back, id)]
                       && r.back == Later(st.back, |Watched(cfg, id, cfg.addresses)| + 1))
  {
    hide AddressesFrom, Minor, AllSeen, Watched;
    AddressesTell(e, cfg, st, id, cfg.addresses, true);
    var (st1, complete, ok) := AddressesFrom(e, cfg, st, id, cfg.addresses, true);
    if ok {
      var (st2, state) := AskAvailability(e, st1, id);
      AvailabilityIsMinor(e, st2, id, if complete then state else Offline);
      MinorTwice(st.mq.log, st1.mq.log, DeviceStep(e, cfg, st, id).0.mq.log);
    }
  }

  lemma AvailabilityIsMinor(e: RtEnv, st: St, id: DeviceId, state: AvailabilityState)
    ensures Minor(st.mq.log, PublishAvailability(e, st, id, state).0.mq.log)
  {
    hide PublishTo, Minor;
    PublishIsMinor(e, st, AvailabilityPublish(id, state));
  }

  /** How many calls a snapshot makes for the first `n` devices. */
  function CallsFor(cfg: Config, devices: seq<RuntimeDevice>, n: nat): nat
    requires n <= |devices|
  {
    if n == 0 then 0
    else |Watched(cfg, devices[0].deviceId, cfg.addresses)| + 1 + CallsFor(cfg, devices[1..], n - 1)
  }

  /** The cache after these devices were shown, one after the other. */
  ghost function Showing(e: RtEnv, cfg: Config, back: Back, cache: map<DeviceId, AvailabilityState>,
                         devices: seq<RuntimeDevice>): map<DeviceId, AvailabilityState>
    decreases |devices|
  {
    if devices == [] then cache
    else
      var id := devices[0].deviceId;
      var later := Later(back, |Watched(cfg, id, cfg.addresses)| + 1);
      Showing(e, cfg, later, cache[id := Shown(e, cfg, back, id)], devices[1..])
  }

  lemma {:induction false} DevicesTell(e: RtEnv, cfg: Config, st: St, devices: seq<RuntimeDevice>)
    ensures var (r, ok) := DevicesFrom(e, cfg, st, devices);
            Minor(st.mq.log, r.mq.log) && (ok ==> r.cache == Showing(e, cfg, st.back, st.cache, devices))
    decreases |devices|
  {
    hide DeviceStep, Minor, Shown, Watched;
    NothingIsMinor(st.mq.log);
    if devices != [] {
      DeviceTells(e, cfg, st, devices[0].deviceId);
      var (st1, ok1) := DeviceStep(e, cfg, st, devices[0].deviceId);
      DevicesTell(e, cfg, st1, devices[1..]);
      MinorTwice(st.mq.log, st1.mq.log, DevicesFrom(e, cfg, st1, devices[1..]).0.mq.log);
    }
  }

  lemma {:induction false} ShowingOthers(e: RtEnv, cfg: Config, back: Back, cache: map<DeviceId, AvailabilityState>,
                                         devices: seq<RuntimeDevice>, id: DeviceId)
    requires id in cache && forall d | d in devices :: d.deviceId != id
    ensures var r := Showing(e, cfg, back, cache, devices); id in r && r[id] == cache[id]
    decreases |devices|
  {
    hide Shown, Watched;
    if devices != [] {
      var d := devices[0];
      ShowingOthers(e, cfg, Later(back, |Watched(cfg, d.deviceId, cfg.addresses)| + 1),
                    cache[d.deviceId := Shown(e, cfg, back, d.deviceId)], devices[1..], id);
    }
  }

  lemma {:induction false} ShowingAt(e: RtEnv, cfg: Config, back: Back, cache: map<DeviceId, AvailabilityState>,
                                     devices: seq<RuntimeDevice>, i: nat)
    requires i < |devices| && IsLast(devices, i)
    ensures var r, id := Showing(e, cfg, back, cache, devices), devices[i].deviceId;
            id in r && r[id] == Shown(e, cfg, Later(back, CallsFor(cfg, devices, i)), id)
    decreases |devices|
  {
    hide Shown, Watched;
    var d, rest := devices[0], devices[1..];
    var calls := |Watched(cfg, d.deviceId, cfg.addresses)| + 1;
    var cache1 := cache[d.deviceId := Shown(e, cfg, back, d.deviceId)];
    if i == 0 {
      ShowingOthers(e, cfg, Later(back, calls), cache1, rest, d.deviceId);
      assert Later(back, 0) == back;
    } else {
      assert IsLast(rest, i - 1) && rest[i - 1] == devices[i];
      ShowingAt(e, cfg, Later(back, calls), cache1, rest, i - 1);
      assert Later(Later(back, calls), CallsFor(cfg, rest, i - 1)) == Later(back, CallsFor(cfg, devices, i));
    }
  }

  /** No later device has the same id. */
  predicate IsLast(devices: seq<RuntimeDevice>, i: nat)
    requires i < |devices|
  {
    forall j | i < j < |devices| :: devices[j].deviceId != devices[i].deviceId
  }

  // ---- the whole snapshot ----

  function Discovery(d: RuntimeDevice): Publish {
    Publish(DiscoveryTopic(d.deviceId), DiscoveryDocument(d), 1, false)
  }

  lemma {:induction false} DiscoveryTells(e: RtEnv, st: St, devices: seq<RuntimeDevice>)
    ensures var (r, ok) := DiscoveryFrom(e, st, devices);
            && st.mq.log <= r.mq.log && r.back == st.back && r.cache == st.cache
            && (forall i | |st.mq.log| <= i < |r.mq.log| :: r.mq.log[i].topic.DiscoveryTopic?)
            && (ok ==> |r.mq.log| == |st.mq.log| + |devices|
                       && forall i | 0 <= i < |devices| :: r.mq.log[|st.mq.log| + i] == Discovery(devices[i]))
    decreases |devices|
  {
    if devices != [] {
      var st1 := PublishTo(e, st, Discovery(devices[0])).0;
      DiscoveryTells(e, st1, devices[1..]);
    }
  }

  /** The publications of a returned snapshot: offline first, then one unretained discovery document per device, in
      order, and online last. */
  ghost predicate Announces(cfg: Config, log: seq<Publish>, longer: seq<Publish>) {
    && log <= longer && |longer| > |log| + 1 + |cfg.devices|
    && longer[|log|] == Publish(BridgeAvailability, Text("offline"), 1, true)
    && (forall i | 0 <= i < |cfg.devices| :: longer[|log| + 1 + i] == Discovery(cfg.devices[i]))
    && longer[|longer| - 1] == Publish(BridgeAvailability, Text("online"), 1, true)
  }

  /** What the broker retains for the availability of a device. */
  predicate Says(payload: Option<Payload>, state: AvailabilityState) {
    match state
    case Online => payload == Some(Text("online"))
    case Offline => payload == Some(Text("offline"))
    case Unknown => payload == Some(Text("unknown"))
  }

  /** A returned snapshot leaves the bridge retained online, with the discovery documents of all devices among its
      publications, and each device retained as the backend reports it, or offline if something with feedback had no
      boolean observation when it was asked. */
  lemma SnapshotShows(e: RtEnv, cfg: Config, st: St)
    requires CacheAgrees(st)
    ensures var (r, ok) := PublishSnapshot(e, cfg, st);
            ok ==>
              && LastRetained(r.mq.log, BridgeAvailability) == Some(Text("online"))
              && Announces(cfg, st.mq.log, r.mq.log)
              && forall i | 0 <= i < |cfg.devices| && IsLast(cfg.devices, i) ::
                   var id := cfg.devices[i].deviceId;
                   Says(LastRetained(r.mq.log, DeviceAvailability(id)),
                        Shown(e, cfg, Later(st.back, CallsFor(cfg, cfg.devices, i)), id))
  {
    hide PublishSnapshot, CacheAgrees, Shown, LastRetained, CallsFor, Says, Announces, Showing;
    SnapshotAnnounces(e, cfg, st);
    SnapshotKeeps(e, cfg, st);
    var (r, ok) := PublishSnapshot(e, cfg, st);
    if ok {
      forall i | 0 <= i < |cfg.devices| && IsLast(cfg.devices, i)
        ensures var id := cfg.devices[i].deviceId;
                Says(LastRetained(r.mq.log, DeviceAvailability(id)),
                     Shown(e, cfg, Later(st.back, CallsFor(cfg, cfg.devices, i)), id))
      {
        ShowingAt(e, cfg, st.back, st.cache, cfg.devices, i);
        CachedIsSaid(r, cfg.devices[i].deviceId);
      }
    }
  }

  lemma SnapshotAnnounces(e: RtEnv, cfg: Config, st: St)
    ensures var (r, ok) := PublishSnapshot(e, cfg, st);
            ok ==>
              && LastRetained(r.mq.log, BridgeAvailability) == Some(Text("online"))
              && Announces(cfg, st.mq.log, r.mq.log)
              && r.cache == Showing(e, cfg, st.back, st.cache, cfg.devices)
  {
    hide DiscoveryFrom, DevicesFrom, Minor, LastRetained, Announces, Showing, Discovery;
    var (st1, ok1) := PublishTo(e, st, BRIDGE_OFFLINE);
    DiscoveryTells(e, st1, cfg.devices);
    var (st2, ok2) := DiscoveryFrom(e, st1, cfg.devices);
    DevicesTell(e, cfg, st2, cfg.devices);
    var (st3, ok3) := DevicesFrom(e, cfg, st2, cfg.devices);
    if PublishSnapshot(e, cfg, st).1 {
      RetainedAppend(st3.mq.log, BRIDGE_ONLINE, BridgeAvailability);
      MinorExtends(st2.mq.log, st3.mq.log);
      AnnouncedInOrder(cfg, st.mq.log, st2.mq.log, st3.mq.log);
    }
  }

  lemma AnnouncedInOrder(cfg: Config, log: seq<Publish>, told: seq<Publish>, shown: seq<Publish>)
    requires log + [BRIDGE_OFFLINE] <= told <= shown && |told| == |log| + 1 + |cfg.devices|
    requires forall i | 0 <= i < |cfg.devices| :: told[|log| + 1 + i] == Discovery(cfg.devices[i])
    ensures Announces(cfg, log, shown + [BRIDGE_ONLINE])
  {
    hide Discovery;
    var longer := shown + [BRIDGE_ONLINE];
    assert longer[|log|] == told[|log|] == (log + [BRIDGE_OFFLINE])[|log|];
    forall i | 0 <= i < |cfg.devices| ensures longer[|log| + 1 + i] == Discovery(cfg.devices[i]) {
      assert longer[|log| + 1 + i] == told[|log| + 1 + i];
    }
  }

  lemma MinorExtends(log: seq<Publish>, longer: seq<Publish>)
    requires Minor(log, longer)
    ensures log <= longer
  {
  }

  lemma CachedIsSaid(st: St, id: DeviceId)
    requires CacheAgrees(st) && id in st.cache
    ensures Says(LastRetained(st.mq.log, DeviceAvailability(id)), st.cache[id])
  {
  }

  // ---- when the bridge is seen online ----

  predicate IsOnline(log: seq<Publish>) {
    LastRetained(log, BridgeAvailability) == Some(Text("online"))
  }

  /** An event that makes a connected bridge publish a snapshot: the connection itself, or the birth message of the home
      automation system. */
  predicate AsksSnapshot(cfg: Config, event: Option<BrokerEvent>, connected: bool) {
    event.Some? && match event.value
                   case Connected => true
                   case Disconnected(_) => false
                   case Message(topic, payload, _, _) => connected && topic == cfg.statusTopic && payload == "online"
  }

  lemma ReportKeepsBridge(e: RtEnv, cfg: Config, st: St, a: Address, on: bool, status: Status)
    ensures var r := ReportOutcome(e, cfg, st, a, on, status).0;
            st.mq.log <= r.mq.log && (IsOnline(r.mq.log) <==> IsOnline(st.mq.log))
  {
    hide PublishObservation, ChangedFrom, Minor, LastRetained;
    NothingIsMinor(st.mq.log);
    if a in cfg.modes && cfg.modes[a] == CommandOnly {
      var document := LastCommandDocument(on, status, e.env.clock(st.w.ticks));
      var st1 := PublishTo(e, st.(w := Tick(st.w)), Publish(LastCommandTopic(a), document, QOS, true)).0;
      RetainedAppend(st.mq.log, Publish(LastCommandTopic(a), document, QOS, true), BridgeAvailability);
      ChangedIsMinor(e, st1, cfg.devices, Some(a.deviceId));
      MinorKeepsBridge(st1.mq.log, ChangedFrom(e, st1, cfg.devices, Some(a.deviceId)).0.mq.log);
    } else if status.Confirmed? {
      ObservationIsMinor(e, st, a, status.observation);
      MinorKeepsBridge(st.mq.log, PublishObservation(e, st, a, status.observation).0.mq.log);
    }
  }

  lemma MinorKeepsBridge(log: seq<Publish>, longer: seq<Publish>)
    requires Minor(log, longer)
    ensures log <= longer && (IsOnline(longer) <==> IsOnline(log))
  {
    MinorKeeps(log, longer, BridgeAvailability);
  }

  lemma ServingKeepsBridge(e: RtEnv, cfg: Config, st: St, a: Address, on: bool)
    ensures var r := ServeCommand(e, cfg, st, a, on).0;
            st.mq.log <= r.mq.log && r.connected == st.connected && (IsOnline(r.mq.log) <==> IsOnline(st.mq.log))
  {
    hide SetDesired, SimSetDesired, ReportOutcome, IsOnline, CacheAgrees;
    var c := Command(st.requests, a.deviceId, a.endpoint, a.capability, BoolValue(on));
    var (st1, r) := AskCommand(e, st.(requests := st.requests + 1), c);
    if r.Success? {
      ReportKeepsBridge(e, cfg, st1, a, on, r.value.status);
      ReportKeeps(e, cfg, st1, a, on, r.value.status);
    }
  }

  lemma MessageTellsBridge(e: RtEnv, cfg: Config, st: St, m: BrokerEvent)
    requires m.Message?
    ensures var (r, ok) := HandleMessage(e, cfg, st, m);
            && r.connected == st.connected
            && (if AsksSnapshot(cfg, Some(m), true) then
                  && HandleMessage(e, cfg, st, m) == PublishSnapshot(e, cfg, st)
                  && (ok ==> IsOnline(r.mq.log))
                else IsOnline(r.mq.log) <==> IsOnline(st.mq.log))
  {
    hide PublishSnapshot, ServeCommand, Announces, Showing, CacheAgrees, LastRetained, DecodeOnOff, ParseCommandTopic;
    SnapshotAnnounces(e, cfg, st);
    SnapshotKeeps(e, cfg, st);
    if m.topic != cfg.statusTopic && Addressed(cfg, m).Some? {
      var a := Addressed(cfg, m).value;
      var st1 := AskAvailability(e, st, a.deviceId).0;
      if DecodeOnOff(m.payload).Some? {
        ServingKeepsBridge(e, cfg, st1, a, DecodeOnOff(m.payload).value);
      }
    }
  }

  lemma UpkeepKeepsBridge(e: RtEnv, cfg: Config, st: St)
    ensures var r := Upkeep(e, cfg, st).0;
            st.mq.log <= r.mq.log && r.connected == st.connected && (IsOnline(r.mq.log) <==> IsOnline(st.mq.log))
  {
    hide Refresh, ChangedFrom, IsOnline, CacheAgrees, Minor;
    if st.connected && st.back.HarmonyG2? {
      var s := Refresh(e.env, Sys(st.back.g, st.w)).0;
      var st1 := st.(back := HarmonyG2(s.g), w := s.w);
      ChangedIsMinor(e, st1, cfg.devices, None);
      MinorKeepsBridge(st1.mq.log, ChangedFrom(e, st1, cfg.devices, None).0.mq.log);
      ChangedKeeps(e, st1, cfg.devices, None);
    }
  }

  /** Where the snapshot of a turn begins: after the will, if it fired, and after the subscriptions of a connection. */
  function SnapshotStart(e: RtEnv, cfg: Config, st: St, input: Input): St {
    var st0 := FireWill(st, input.will);
    if input.event == Some(Connected) then Subscribe(e, st0.(connected := true), SubscriptionNames(cfg)).0 else st0
  }

  lemma DispatchTellsBridge(e: RtEnv, cfg: Config, st: St, event: Option<BrokerEvent>)
    ensures var (r, ok) := Dispatch(e, cfg, st, event);
            && (ok ==> r.connected == ConnectedBy(event, st.connected))
            && (ok && AsksSnapshot(cfg, event, st.connected) ==> IsOnline(r.mq.log))
            && (!AsksSnapshot(cfg, event, st.connected) ==> (IsOnline(r.mq.log) <==> IsOnline(st.mq.log)))
            && (ok && AsksSnapshot(cfg, event, st.connected) ==>
                  (r, ok) == PublishSnapshot(e, cfg, SnapshotStart(e, cfg, st, Input(false, event, false))))
  {
    hide PublishSnapshot, HandleMessage, Subscribe, Announces, Showing, CacheAgrees, LastRetained;
    if event == Some(Connected) {
      var st0 := st.(connected := true);
      SubscribeKeeps(e, st0, SubscriptionNames(cfg));
      var st1 := Subscribe(e, st0, SubscriptionNames(cfg)).0;
      SnapshotAnnounces(e, cfg, st1);
      SnapshotKeeps(e, cfg, st1);
    } else if event.Some? && event.value.Message? && st.connected {
      MessageTellsBridge(e, cfg, st, event.value);
    }
  }

  /** A turn after which the loop goes on leaves the bridge online if it published a snapshot, and as it was otherwise,
      except that the will takes it offline first. */
  lemma TurnTellsBridge(e: RtEnv, cfg: Config, st: St, input: Input)
    ensures var (r, exit) := Turn(e, cfg, st, input);
            exit == Running ==>
              && !input.stop && r.connected == ConnectedBy(input.event, st.connected)
              && (IsOnline(r.mq.log) <==>
                    AsksSnapshot(cfg, input.event, st.connected) || (IsOnline(st.mq.log) && !input.will))
  {
    hide Dispatch, Upkeep, LastRetained;
    var st0 := FireWill(st, input.will);
    RetainedAppend(st.mq.log, BRIDGE_OFFLINE, BridgeAvailability);
    OfflineIsNotOnline();
    DispatchTellsBridge(e, cfg, st0, input.event);
    UpkeepKeepsBridge(e, cfg, Dispatch(e, cfg, st0, input.event).0);
  }

  lemma OfflineIsNotOnline()
    ensures Text("offline") != Text("online")
  {
    assert |"offline"| != |"online"|;
  }

  /** A turn that was asked for a snapshot and after which the loop goes on has published a whole one. */
  lemma TurnPublishesSnapshot(e: RtEnv, cfg: Config, st: St, input: Input)
    requires Turn(e, cfg, st, input).1 == Running && AsksSnapshot(cfg, input.event, st.connected)
    ensures var start := SnapshotStart(e, cfg, st, input);
            && start.mq.log == FireWill(st, input.will).mq.log && start.back == st.back
            && PublishSnapshot(e, cfg, start).1
            && PublishSnapshot(e, cfg, start).0.mq.log <= Turn(e, cfg, st, input).0.mq.log
            && Announces(cfg, start.mq.log, PublishSnapshot(e, cfg, start).0.mq.log)
  {
    hide Dispatch, Upkeep, PublishSnapshot, Announces, Showing, LastRetained, IsOnline, Subscribe;
    var st0 := FireWill(st, input.will);
    DispatchTellsBridge(e, cfg, st0, input.event);
    UpkeepKeepsBridge(e, cfg, Dispatch(e, cfg, st0, input.event).0);
    SubscribeKeeps(e, st0.(connected := true), SubscriptionNames(cfg));
    SnapshotAnnounces(e, cfg, SnapshotStart(e, cfg, st, input));
  }

  /** There was a snapshot, and no will has fired since. */
  predicate OnlineBy(cfg: Config, inputs: seq<Input>) {
    inputs != []
    && var front, last := inputs[..|inputs| - 1], inputs[|inputs| - 1];
       AsksSnapshot(cfg, last.event, Linked(front)) || (OnlineBy(cfg, front) && !last.will)
  }

  /** Over every run, with any backend: while the loop goes on, the broker retains the bridge as online if and only if a
      connection or a birth message has come and no will has fired since. */
  lemma {:induction false} BridgeIsOnlineExactly(e: RtEnv, cfg: Config, st: St, inputs: seq<Input>)
    requires st.mq.log == [] && !st.connected
    ensures var (r, exit) := RunLoop(e, cfg, st, inputs);
            exit == Running ==>
              && r.connected == Linked(inputs)
              && (LastRetained(r.mq.log, BridgeAvailability) == Some(Text("online")) <==> OnlineBy(cfg, inputs))
  {
    hide Turn, AsksSnapshot;
    if inputs != [] {
      BridgeIsOnlineExactly(e, cfg, st, inputs[..|inputs| - 1]);
      TurnTellsBridge(e, cfg, RunLoop(e, cfg, st, inputs[..|inputs| - 1]).0, inputs[|inputs| - 1]);
    }
  }

  /** Closing a connected bridge takes it offline if the broker accepts the publication, and publishes nothing else. */
  lemma CloseTakesBridgeOffline(e: RtEnv, st: St)
    ensures var (r, ok) := CloseBridge(e, st);
            && (ok && st.connected ==>
                  && r.mq.log == st.mq.log + [Publish(BridgeAvailability, Text("offline"), 1, true)]
                  && LastRetained(r.mq.log, BridgeAvailability) == Some(Text("offline")))
            && (!ok || !st.connected ==> r.mq.log == st.mq.log)
  {
    hide Close, LastRetained;
    RetainedAppend(st.mq.log, BRIDGE_OFFLINE, BridgeAvailability);
  }
}
