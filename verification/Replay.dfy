/** Whole runs of the bridge over the gateway backend: nothing is commanded that was not just asked for. */
module Replay {
  import opened Wrappers
  import opened Identity
  import opened Topics
  import opened Transport
  import opened Model
  import opened Backend
  import opened Safety
  import opened Outcomes
  import opened Runs
  import opened Runtime
  import opened Retained

  /** A message that asks, by its own text, to switch an address on or off: it names the command topic of a
      configured address, is not retained, has QoS 1, and carries exactly ON or OFF. */
  predicate IsCommand(cfg: Config, m: BrokerEvent, a: Address, on: bool) {
    && m.Message? && !m.retain && m.qos == QOS && m.payload == EncodeOnOff(on)
    && a in cfg.addresses && m.topic == Render(cfg.layout, CommandTopic(a))
  }

  /** The connection state that the events alone imply. */
  function Linked(inputs: seq<Input>): bool {
    if inputs == [] then false else ConnectedBy(inputs[|inputs| - 1].event, Linked(inputs[..|inputs| - 1]))
  }

  /** A runtime over a gateway backend in a reachable state, created with that backend's devices. */
  ghost predicate GatewayInv(e: RtEnv, cfg: Config, st: St) {
    st.back.HarmonyG2? && Inv(e.env, Sys(st.back.g, st.w)) && st.back.g.devices == cfg.devices
  }

  lemma InvIgnoresClock(e: RtEnv, cfg: Config, st: St, r: St)
    requires GatewayInv(e, cfg, st) && SameBack(st, r)
    ensures GatewayInv(e, cfg, r)
  {
    hide Configured, Sound, Uniform;
  }

  /** The request is the command the message asked for, on the configured component of that device. */
  ghost predicate Carries(e: RtEnv, r: Request, a: Address, on: bool) {
    && r.Switch? && r.on == on && r.endpoint.deviceId == a.deviceId
    && r.endpoint.componentId == ConfiguredAs(e.env, a.deviceId).componentId
  }

  /** What one turn may add to the history: nothing, or the command its message asked for. */
  ghost predicate Answers(e: RtEnv, cfg: Config, event: Option<BrokerEvent>, st: St, r: St) {
    || Posts(r.w.trace) == Posts(st.w.trace)
    || exists a, on, post :: event.Some? && IsCommand(cfg, event.value, a, on) && Carries(e, post, a, on)
                             && Posts(r.w.trace) == Posts(st.w.trace) + [post]
  }

  lemma AddressedMeansTopic(cfg: Config, m: BrokerEvent, on: bool)
    requires m.Message? && Addressed(cfg, m).Some? && DecodeOnOff(m.payload) == Some(on)
    ensures IsCommand(cfg, m, Addressed(cfg, m).value, on)
  {
    CommandTopicRoundTrip(cfg.layout, m.topic, Addressed(cfg, m).value);
    OnOffRoundTrip(m.payload, on);
  }

  /** The checks of `_handle_message` before the availability check accept exactly the command messages. */
  lemma CommandIsAddressed(cfg: Config, m: BrokerEvent, a: Address, on: bool)
    requires ValidConfig(cfg) && Clean(cfg.layout.topicPrefix) && m.Message?
    ensures IsCommand(cfg, m, a, on) <==> Addressed(cfg, m) == Some(a) && DecodeOnOff(m.payload) == Some(on)
  {
    CommandTopicRoundTrip(cfg.layout, m.topic, a);
    OnOffRoundTrip(m.payload, on);
    if a in cfg.addresses {
      assert ProvidedBy(cfg.devices, a, cfg.modes[a]);
      assert Generated(cfg, CommandTopic(a));
    }
  }

  /** A command to the gateway backend: at most one request, carrying exactly what was asked. */
  lemma GatewayCommand(e: RtEnv, cfg: Config, st: St, c: Command, on: bool)
    requires GatewayInv(e, cfg, st) && c.desired == BoolValue(on)
    ensures var (r, result) := AskCommand(e, st, c);
            && GatewayInv(e, cfg, r)
            && r.mq == st.mq && r.cache == st.cache && r.connected == st.connected
            && (Posts(r.w.trace) == Posts(st.w.trace)
                || exists post :: Carries(e, post, Address(c.deviceId, c.endpoint, c.capability), on)
                                  && Posts(r.w.trace) == Posts(st.w.trace) + [post])
  {
    hide SetDesired, Inv, Posts, Maintain, Problem, Judge;
    var s := Sys(st.back.g, st.w);
    SetDesiredIsSound(e.env, s, c);
    var r := SetDesired(e.env, s, c).0;
    if !Quiet(s.w.trace, r.w.trace) {
      CommandIsFresh(e.env, s, c);
      var m := Maintain(e.env, s).0;
      var post := r.w.trace[|m.w.trace|].request;
      assert r.w.trace[|r.w.trace| - 1].request == post;
      assert Carries(e, post, Address(c.deviceId, c.endpoint, c.capability), on);
    }
  }

  lemma CommandIsAnswered(e: RtEnv, cfg: Config, st: St, a: Address, on: bool)
    requires GatewayInv(e, cfg, st)
    ensures var r := ServeCommand(e, cfg, st, a, on).0;
            && GatewayInv(e, cfg, r)
            && (Posts(r.w.trace) == Posts(st.w.trace)
                || exists post :: Carries(e, post, a, on) && Posts(r.w.trace) == Posts(st.w.trace) + [post])
            && r.connected == st.connected && (CacheAgrees(st) ==> CacheAgrees(r)) && st.mq.log <= r.mq.log
  {
    hide AskCommand, ReportOutcome, CacheAgrees, Inv, Posts, Carries;
    var c := Command(st.requests, a.deviceId, a.endpoint, a.capability, BoolValue(on));
    var st1 := st.(requests := st.requests + 1);
    SameCache(st, st1);
    InvIgnoresClock(e, cfg, st, st1);
    GatewayCommand(e, cfg, st1, c, on);
    var (st2, r) := AskCommand(e, st1, c);
    assert Address(c.deviceId, c.endpoint, c.capability) == a;
    SameCache(st1, st2);
    if r.Success? {
      ReportKeeps(e, cfg, st2, a, on, r.value.status);
      InvIgnoresClock(e, cfg, st2, ReportOutcome(e, cfg, st2, a, on, r.value.status).0);
    }
  }

  lemma MessageIsAnswered(e: RtEnv, cfg: Config, st: St, m: BrokerEvent)
    requires m.Message? && GatewayInv(e, cfg, st)
    ensures var (r, ok) := HandleMessage(e, cfg, st, m);
            && GatewayInv(e, cfg, r) && Answers(e, cfg, Some(m), st, r)
            && r.connected == st.connected && (CacheAgrees(st) ==> CacheAgrees(r)) && st.mq.log <= r.mq.log
  {
    hide PublishSnapshot, ServeCommand, CacheAgrees, GatewayInv, Posts, Carries, IsCommand, Addressed, AskAvailability;
    var r := HandleMessage(e, cfg, st, m).0;
    if m.topic == cfg.statusTopic {
      SnapshotKeeps(e, cfg, st);
      InvIgnoresClock(e, cfg, st, r);
    } else if Addressed(cfg, m).Some? {
      var a := Addressed(cfg, m).value;
      AskAvailabilityKeeps(e, st, a.deviceId);
      var (st1, state) := AskAvailability(e, st, a.deviceId);
      InvIgnoresClock(e, cfg, st, st1);
      if state == Online && DecodeOnOff(m.payload).Some? {
        var on := DecodeOnOff(m.payload).value;
        AddressedMeansTopic(cfg, m, on);
        CommandIsAnswered(e, cfg, st1, a, on);
      }
    }
  }

  lemma DispatchIsAnswered(e: RtEnv, cfg: Config, st: St, event: Option<BrokerEvent>)
    requires GatewayInv(e, cfg, st)
    ensures var (r, ok) := Dispatch(e, cfg, st, event);
            && GatewayInv(e, cfg, r)
            && (if st.connected then Answers(e, cfg, event, st, r) else Posts(r.w.trace) == Posts(st.w.trace))
            && (CacheAgrees(st) ==> CacheAgrees(r)) && st.mq.log <= r.mq.log
            && r.connected == ConnectedBy(event, st.connected)
  {
    hide HandleMessage, PublishSnapshot, Subscribe, CacheAgrees, Inv, Posts, Carries;
    if event == Some(Connected) {
      var st0 := st.(connected := true);
      SubscribeKeeps(e, st0, SubscriptionNames(cfg));
      var st1 := Subscribe(e, st0, SubscriptionNames(cfg)).0;
      SameCache(st, st1);
      SnapshotKeeps(e, cfg, st1);
      InvIgnoresClock(e, cfg, st, Dispatch(e, cfg, st, event).0);
    } else if event.Some? && event.value.Message? && st.connected {
      MessageIsAnswered(e, cfg, st, event.value);
    } else {
      SameCache(st, Dispatch(e, cfg, st, event).0);
      InvIgnoresClock(e, cfg, st, Dispatch(e, cfg, st, event).0);
    }
  }

  /** After a returned upkeep of a connected bridge, every device is cached as the backend reports it. */
  lemma UpkeepIsQuiet(e: RtEnv, cfg: Config, st: St)
    requires GatewayInv(e, cfg, st)
    ensures var (r, ok) := Upkeep(e, cfg, st);
            && GatewayInv(e, cfg, r) && Posts(r.w.trace) == Posts(st.w.trace)
            && (CacheAgrees(st) ==> CacheAgrees(r)) && st.mq.log <= r.mq.log && r.connected == st.connected
            && (ok && st.connected ==> forall d | d in cfg.devices :: UpToDate(r, d.deviceId))
  {
    hide Refresh, ChangedFrom, CacheAgrees, Inv, Posts, UpToDate;
    if st.connected {
      var s := Sys(st.back.g, st.w);
      RefreshIsSound(e.env, s);
      var r := Refresh(e.env, s).0;
      var st1 := st.(back := HarmonyG2(r.g), w := r.w);
      SameCache(st, st1);
      ChangedKeeps(e, st1, cfg.devices, None);
      InvIgnoresClock(e, cfg, st1, ChangedFrom(e, st1, cfg.devices, None).0);
      DevicesAreKnown(e, cfg, st1);
    }
  }

  lemma DevicesAreKnown(e: RtEnv, cfg: Config, st: St)
    requires GatewayInv(e, cfg, st)
    ensures forall d | d in cfg.devices :: d.deviceId in st.back.g.availability
  {
    ConfiguredIds(e.env, st.back.g);
    forall d | d in cfg.devices ensures d.deviceId in st.back.g.availability {
      var i :| 0 <= i < |cfg.devices| && cfg.devices[i] == d;
      assert Ids(cfg.devices)[i] == d.deviceId;
    }
  }

  /** One turn of the loop over the gateway backend. */
  lemma TurnIsAnswered(e: RtEnv, cfg: Config, st: St, input: Input)
    requires GatewayInv(e, cfg, st)
    ensures var (r, exit) := Turn(e, cfg, st, input);
            && GatewayInv(e, cfg, r)
            && (if st.connected && !input.stop then Answers(e, cfg, input.event, st, r)
                else Posts(r.w.trace) == Posts(st.w.trace))
            && (CacheAgrees(st) ==> CacheAgrees(r)) && st.mq.log <= r.mq.log
            && r.connected == ConnectedBy(input.event, st.connected)
            && (exit == Running && r.connected ==> forall d | d in cfg.devices :: UpToDate(r, d.deviceId))
  {
    hide Dispatch, Upkeep, CacheAgrees, Inv, Posts, UpToDate;
    var st0 := FireWill(st, input.will);
    WillKeeps(e, cfg, st, input.will);
    InvIgnoresClock(e, cfg, st, st0);
    if input.stop {
      var r := st0.(connected := ConnectedBy(input.event, st0.connected));
      SameCache(st0, r);
      InvIgnoresClock(e, cfg, st0, r);
    } else {
      DispatchIsAnswered(e, cfg, st0, input.event);
      var (st1, ok) := Dispatch(e, cfg, st0, input.event);
      UpkeepIsQuiet(e, cfg, st1);
    }
  }

  /** These commands are, in order and one for one, what a subsequence of the messages asked for while the
      bridge was connected. */
  ghost predicate Image(e: RtEnv, cfg: Config, inputs: seq<Input>, sources: seq<nat>, sent: seq<Request>) {
    && |sources| == |sent|
    && (forall j, k | 0 <= j < k < |sources| :: sources[j] < sources[k])
    && (forall k | 0 <= k < |sources| :: sources[k] < |inputs| && IsSource(e, cfg, inputs, sources[k], sent[k]))
  }

  ghost predicate IsSource(e: RtEnv, cfg: Config, inputs: seq<Input>, i: nat, r: Request)
    requires i < |inputs|
  {
    && Linked(inputs[..i]) && !inputs[i].stop && inputs[i].event.Some?
    && exists a, on :: IsCommand(cfg, inputs[i].event.value, a, on) && Carries(e, r, a, on)
  }

  lemma ImageExtends(e: RtEnv, cfg: Config, front: seq<Input>, last: Input, sources: seq<nat>, sent: seq<Request>)
    requires Image(e, cfg, front, sources, sent)
    ensures Image(e, cfg, front + [last], sources, sent)
  {
    var inputs := front + [last];
    forall k | 0 <= k < |sources| ensures IsSource(e, cfg, inputs, sources[k], sent[k]) {
      assert inputs[..sources[k]] == front[..sources[k]] && inputs[sources[k]] == front[sources[k]];
    }
  }

  lemma ImageGrows(e: RtEnv, cfg: Config, front: seq<Input>, last: Input, sources: seq<nat>, sent: seq<Request>,
                   r: Request)
    requires Image(e, cfg, front, sources, sent)
    requires IsSource(e, cfg, front + [last], |front|, r)
    ensures Image(e, cfg, front + [last], sources + [|front|], sent + [r])
  {
    hide IsSource;
    ImageExtends(e, cfg, front, last, sources, sent);
  }

  /** No replay, over whole runs: for every sequence of broker events and every behaviour of clock, broker,
      gateway and file system, the commands sent are an order-preserving one-to-one image of command messages
      received while connected. Connecting, reconnecting, birth messages, refreshing and stopping send none. */
  lemma {:induction false} NoReplay(e: RtEnv, cfg: Config, st: St, inputs: seq<Input>)
    requires GatewayInv(e, cfg, st) && !st.connected
    ensures var (r, exit) := RunLoop(e, cfg, st, inputs);
            && GatewayInv(e, cfg, r)
            && (exit == Running ==> r.connected == Linked(inputs))
            && exists sources, sent ::
                 Posts(r.w.trace) == Posts(st.w.trace) + sent && Image(e, cfg, inputs, sources, sent)
  {
    hide Turn, Inv, Posts, GatewayInv, IsSource, Image;
    var r := RunLoop(e, cfg, st, inputs).0;
    if inputs == [] {
      NothingSent(e, cfg, inputs);
      assert Posts(r.w.trace) == Posts(st.w.trace) + [];
    } else {
      var front, last := inputs[..|inputs| - 1], inputs[|inputs| - 1];
      assert inputs == front + [last];
      NoReplay(e, cfg, st, front);
      var (before, earlier) := RunLoop(e, cfg, st, front);
      var sources, sent :| Posts(before.w.trace) == Posts(st.w.trace) + sent && Image(e, cfg, front, sources, sent);
      ImageExtends(e, cfg, front, last, sources, sent);
      if earlier == Running {
        TurnIsAnswered(e, cfg, before, last);
        var more, requests := AfterTurn(e, cfg, before, front, last, Posts(st.w.trace), sources, sent);
        assert Posts(r.w.trace) == Posts(st.w.trace) + requests;
      }
    }
  }

  /** One more turn keeps the commands an image of the messages. */
  lemma AfterTurn(e: RtEnv, cfg: Config, before: St, front: seq<Input>, last: Input,
                  earlier: seq<Request>, sources: seq<nat>, sent: seq<Request>)
    returns (more: seq<nat>, requests: seq<Request>)
    requires GatewayInv(e, cfg, before) && before.connected == Linked(front) && Image(e, cfg, front, sources, sent)
    requires Posts(before.w.trace) == earlier + sent
    ensures Image(e, cfg, front + [last], more, requests)
    ensures Posts(Turn(e, cfg, before, last).0.w.trace) == earlier + requests
  {
    hide Turn, Inv, Posts, GatewayInv, IsSource, Image, CacheAgrees;
    var r := Turn(e, cfg, before, last).0;
    TurnIsAnswered(e, cfg, before, last);
    if Posts(r.w.trace) == Posts(before.w.trace) {
      ImageExtends(e, cfg, front, last, sources, sent);
      more, requests := sources, sent;
    } else {
      var post := SentBy(e, cfg, front, last, before, r);
      ImageGrows(e, cfg, front, last, sources, sent, post);
      more, requests := sources + [|front|], sent + [post];
    }
  }

  lemma NothingSent(e: RtEnv, cfg: Config, inputs: seq<Input>)
    ensures Image(e, cfg, inputs, [], [])
  {
  }

  lemma SentBy(e: RtEnv, cfg: Config, front: seq<Input>, last: Input, before: St, r: St) returns (post: Request)
    requires Linked(front) && !last.stop && Answers(e, cfg, last.event, before, r)
    requires Posts(r.w.trace) != Posts(before.w.trace)
    ensures IsSource(e, cfg, front + [last], |front|, post)
    ensures Posts(r.w.trace) == Posts(before.w.trace) + [post]
  {
    hide Posts, Carries;
    var a, on, request :| IsCommand(cfg, last.event.value, a, on) && Carries(e, request, a, on)
                          && Posts(r.w.trace) == Posts(before.w.trace) + [request];
    post := request;
    var inputs := front + [last];
    assert inputs[..|front|] == front && inputs[|front|] == last;
  }

  /** Over the gateway backend, at every turn and also when a turn ends in an exception, each cached
      availability is the one the broker retains for that device's topic; and at the end of every connected turn
      the retained availability of every device is the backend's. */
  lemma {:induction false} AvailabilityIsRetained(e: RtEnv, cfg: Config, st: St, inputs: seq<Input>)
    requires GatewayInv(e, cfg, st) && st.cache == map[] && !st.connected
    ensures var (r, exit) := RunLoop(e, cfg, st, inputs);
            && GatewayInv(e, cfg, r) && CacheAgrees(r)
            && (exit == Running && Linked(inputs) ==> forall d | d in cfg.devices ::
                  && d.deviceId in r.back.g.availability
                  && WireRetained(cfg.layout, r.mq.log, Render(cfg.layout, DeviceAvailability(d.deviceId)))
                     == Some(Text(r.back.g.availability[d.deviceId].state.Name())))
  {
    hide Turn, Inv, Posts;
    var (r, exit) := RunLoop(e, cfg, st, inputs);
    NoReplay(e, cfg, st, inputs);
    if inputs != [] {
      AvailabilityIsRetained(e, cfg, st, inputs[..|inputs| - 1]);
      var (before, earlier) := RunLoop(e, cfg, st, inputs[..|inputs| - 1]);
      if earlier == Running {
        TurnIsAnswered(e, cfg, before, inputs[|inputs| - 1]);
        if exit == Running && r.connected {
          RetainedIsCurrent(cfg, r);
        }
      }
    }
  }

  lemma RetainedIsCurrent(cfg: Config, r: St)
    requires r.back.HarmonyG2? && CacheAgrees(r) && forall d | d in cfg.devices :: UpToDate(r, d.deviceId)
    ensures forall d | d in cfg.devices ::
              && d.deviceId in r.back.g.availability
              && WireRetained(cfg.layout, r.mq.log, Render(cfg.layout, DeviceAvailability(d.deviceId)))
                 == Some(Text(r.back.g.availability[d.deviceId].state.Name()))
  {
    hide Render;
    forall d | d in cfg.devices
      ensures d.deviceId in r.back.g.availability
      ensures WireRetained(cfg.layout, r.mq.log, Render(cfg.layout, DeviceAvailability(d.deviceId)))
           == Some(Text(r.back.g.availability[d.deviceId].state.Name()))
    {
      assert UpToDate(r, d.deviceId);
      RetainedByName(cfg.layout, r.mq.log, DeviceAvailability(d.deviceId));
    }
  }

  /** `close` sends no command and leaves the backend closed with every device offline, also when publishing
      the bridge's own availability fails. */
  lemma CloseIsQuiet(e: RtEnv, cfg: Config, st: St)
    requires GatewayInv(e, cfg, st)
    ensures var r := CloseBridge(e, st).0;
            GatewayInv(e, cfg, r) && r.back.g.closed && AllAre(r.back.g, Offline) && r.w.trace == st.w.trace
  {
    hide Close, Inv, PublishTo;
    PublishToKeeps(e, st, BRIDGE_OFFLINE);
    var st1 := if st.connected then PublishTo(e, st, BRIDGE_OFFLINE).0 else st;
    InvIgnoresClock(e, cfg, st, st1);
    CloseIsSound(e.env, Sys(st1.back.g, st1.w));
  }

  /** The runtime as it is created over a freshly opened gateway backend. */
  function Started(g: G2, w: World): St {
    St(false, map[], 0, HarmonyG2(g), w, Mqtt([], [], 0))
  }

  /** From an empty history, through `open`, the whole run of the bridge and its `close`: every command that was ever
      sent was asked for by its own message, in order, and every token ever used had been durable before. */
  lemma EveryCommandWasAskedFor(e: RtEnv, cfg: Config, w: World, inputs: seq<Input>)
    requires w.trace == [] && Open(e.env, w).1.Success? && cfg.devices == Open(e.env, w).1.value.devices
    ensures var (world, g) := Open(e.env, w);
            var r := CloseBridge(e, RunLoop(e, cfg, Started(g.value, world), inputs).0).0;
            && PersistedFirst(r.w.trace)
            && exists sources :: Image(e, cfg, inputs, sources, Posts(r.w.trace))
  {
    hide Open, RunLoop, CloseBridge, Image, Uniform, AllAre, Configured;
    OpenIsSound(e.env, w);
    var (world, g) := Open(e.env, w);
    var st := Started(g.value, world);
    assert Posts(world.trace) == [];
    NoReplay(e, cfg, st, inputs);
    var r := RunLoop(e, cfg, st, inputs).0;
    var sources, sent :| Posts(r.w.trace) == Posts(st.w.trace) + sent && Image(e, cfg, inputs, sources, sent);
    assert Posts(r.w.trace) == sent;
    CloseIsQuiet(e, cfg, r);
  }
}
