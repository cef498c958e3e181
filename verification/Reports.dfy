/** What the bridge says about the last command, and that it is true of the wire (runtime.py, `_handle_message`). */
module Reports {
  import opened Wrappers
  import opened Identity
  import opened Values
  import opened Topics
  import opened Transport
  import opened Model
  import opened Backend
  import opened Simulator
  import opened Safety
  import opened Outcomes
  import opened Runtime
  import opened Retained
  import opened Replay
  import opened Delivery
  import opened Snapshots

  // ---- one served command ----

  function Asked(st: St, a: Address, on: bool): Command {
    Command(st.requests, a.deviceId, a.endpoint, a.capability, BoolValue(on))
  }

  /** A returned command to an address without feedback: the broker retains for it exactly the direction asked for,
      the status that the backend returned and the clock reading after it, and for every other address what it did
      before. */
  lemma ServedCommandIsReported(e: RtEnv, cfg: Config, st: St, a: Address, on: bool)
    requires a in cfg.modes && cfg.modes[a] == CommandOnly
    ensures var (r, ok) := ServeCommand(e, cfg, st, a, on);
            var (asked, result) := AskCommand(e, st.(requests := st.requests + 1), Asked(st, a, on));
            && (ok ==>
                  && result.Success?
                  && LastRetained(r.mq.log, LastCommandTopic(a))
                     == Some(LastCommandDocument(on, result.value.status, e.env.clock(asked.w.ticks))))
            && (forall b | b != a ::
                  LastRetained(r.mq.log, LastCommandTopic(b)) == LastRetained(st.mq.log, LastCommandTopic(b)))
  {
    hide SetDesired, SimSetDesired, ChangedFrom, LastRetained, Minor;
    var (asked, result) := AskCommand(e, st.(requests := st.requests + 1), Asked(st, a, on));
    assert asked.mq == st.mq;
    if result.Success? {
      var document := LastCommandDocument(on, result.value.status, e.env.clock(asked.w.ticks));
      var p := Publish(LastCommandTopic(a), document, QOS, true);
      var st1 := PublishTo(e, asked.(w := Tick(asked.w)), p).0;
      ChangedIsMinor(e, st1, cfg.devices, Some(a.deviceId));
      var longer := ChangedFrom(e, st1, cfg.devices, Some(a.deviceId)).0.mq.log;
      forall b
        ensures LastRetained(st.mq.log + [p], LastCommandTopic(b))
             == if b == a then Some(p.payload) else LastRetained(st.mq.log, LastCommandTopic(b))
        ensures LastRetained(longer, LastCommandTopic(b)) == LastRetained(st1.mq.log, LastCommandTopic(b))
      {
        RetainedAppend(st.mq.log, p, LastCommandTopic(b));
        MinorKeeps(st1.mq.log, longer, LastCommandTopic(b));
      }
    }
  }

  /** A command to an address with feedback: a confirmed boolean observation is retained, and nothing is published for
      any other outcome. */
  lemma ServedObservationIsShown(e: RtEnv, cfg: Config, st: St, a: Address, on: bool)
    requires a in cfg.modes && cfg.modes[a] == Observable
    ensures var (r, ok) := ServeCommand(e, cfg, st, a, on);
            var result := AskCommand(e, st.(requests := st.requests + 1), Asked(st, a, on)).1;
            && (ok && result.value.status.Confirmed? && result.value.status.observation.value.BoolValue? ==>
                  LastRetained(r.mq.log, StateTopic(a))
                  == Some(Text(if result.value.status.observation.value.b then "ON" else "OFF")))
            && (ok && !result.value.status.Confirmed? ==> r.mq == st.mq)
            && (ok <== result.Success? && !result.value.status.Confirmed?)
  {
    hide SetDesired, SimSetDesired, PublishObservation, LastRetained;
    var (asked, result) := AskCommand(e, st.(requests := st.requests + 1), Asked(st, a, on));
    assert asked.mq == st.mq;
    if result.Success? && result.value.status.Confirmed? {
      ObservationShows(e, asked, a, result.value.status.observation);
    }
  }

  // ---- what may be said of a command ----

  /** The status agrees with the exchange of a command. */
  ghost predicate IsTrueOf(status: Status, x: Exchange) {
    if Delivered(x) && Maps(x.json.value, "success", Bool(true)) then status == Accepted
    else if !Submitted(x) || (Answered(x) && (x.status == 400 || x.status == 401 || x.status == 403)) then
      status.Rejected?
    else status == Indeterminate
  }

  predicate CommandAt(trace: seq<Event>, i: nat)
    requires i < |trace|
  {
    trace[i].Sent? && trace[i].request.Switch?
  }

  /** The status agrees with what was sent since `earlier`: with the exchange of a command, or, if there was none, it
      is a rejection. */
  ghost predicate AgreesWithWire(gateway: Transport.Gateway, earlier: seq<Event>, later: seq<Event>, status: Status) {
    || (exists i :: |earlier| <= i < |later| && CommandAt(later, i) && IsTrueOf(status, gateway(later[..i + 1])))
    || ((forall i | |earlier| <= i < |later| :: !CommandAt(later, i)) && status.Rejected?)
  }

  lemma {:induction false} QuietSendsNone(earlier: seq<Event>, later: seq<Event>)
    requires earlier <= later
    ensures |Posts(earlier)| <= |Posts(later)|
    ensures Posts(later) == Posts(earlier) ==> forall i | |earlier| <= i < |later| :: !CommandAt(later, i)
  {
    if |earlier| < |later| {
      var front := later[..|later| - 1];
      QuietSendsNone(earlier, front);
      if Posts(later) == Posts(earlier) {
        forall i | |earlier| <= i < |later| ensures !CommandAt(later, i) {
          assert i < |front| ==> CommandAt(front, i) == CommandAt(later, i);
        }
      }
    } else {
      assert earlier == later;
    }
  }

  lemma QuietKeepsAgreement(gateway: Transport.Gateway, earlier: seq<Event>, middle: seq<Event>, later: seq<Event>,
                            status: Status)
    requires AgreesWithWire(gateway, earlier, middle, status) && earlier <= middle && Quiet(middle, later)
    ensures AgreesWithWire(gateway, earlier, later, status)
  {
    hide IsTrueOf, Posts;
    QuietSendsNone(middle, later);
    if i :| |earlier| <= i < |middle| && CommandAt(middle, i) && IsTrueOf(status, gateway(middle[..i + 1])) {
      assert later[..i + 1] == middle[..i + 1] && CommandAt(later, i);
    } else {
      forall i | |earlier| <= i < |later| ensures !CommandAt(later, i) {
        assert i < |middle| ==> CommandAt(later, i) == CommandAt(middle, i);
      }
    }
  }

  /** The status that the gateway backend returns agrees with the wire. */
  lemma ReturnedStatusAgrees(env: Env, s: Sys, c: Command)
    requires Inv(env, s) && SetDesired(env, s, c).1.Success?
    ensures var (r, result) := SetDesired(env, s, c);
            s.w.trace <= r.w.trace && AgreesWithWire(env.gateway, s.w.trace, r.w.trace, result.value.status)
  {
    hide SetDesired, Inv, Posts, Maintain, Problem, MarksExchange, MarksFailure, Concludes, Maps, Delivered, Answered;
    hide Submitted, Overwhelms, AllAre;
    SetDesiredIsSound(env, s, c);
    var (r, result) := SetDesired(env, s, c);
    if Quiet(s.w.trace, r.w.trace) {
      QuietSendsNone(s.w.trace, r.w.trace);
    } else {
      SentCommandComesTo(env, s, c);
      assert |r.w.trace| == |s.w.trace| ==> r.w.trace == s.w.trace;
      var n := |r.w.trace| - 1;
      assert r.w.trace[..n + 1] == r.w.trace && CommandAt(r.w.trace, n);
      assert IsTrueOf(result.value.status, env.gateway(r.w.trace[..n + 1]));
    }
  }

  // ---- over the gateway, turn by turn ----

  /** The turn hands a command for this address to the backend. */
  ghost predicate Serves(cfg: Config, st: St, input: Input, a: Address) {
    && st.connected && !input.stop && input.event.Some?
    && (exists on :: IsCommand(cfg, input.event.value, a, on))
    && st.back.HarmonyG2? && a.deviceId in st.back.g.availability && st.back.g.availability[a.deviceId].state == Online
  }

  /** The broker retains a report of a command that this message asked for, with a status that agrees with the wire. */
  ghost predicate TellsTruth(cfg: Config, gateway: Transport.Gateway, event: Option<BrokerEvent>, a: Address,
                             earlier: seq<Event>, later: seq<Event>, retained: Option<Payload>)
  {
    exists on, status, at ::
      && event.Some? && IsCommand(cfg, event.value, a, on)
      && retained == Some(LastCommandDocument(on, status, at)) && AgreesWithWire(gateway, earlier, later, status)
  }

  ghost predicate SameReports(st: St, r: St) {
    forall a :: LastRetained(r.mq.log, LastCommandTopic(a)) == LastRetained(st.mq.log, LastCommandTopic(a))
  }

  lemma MinorKeepsReports(st: St, r: St)
    requires Minor(st.mq.log, r.mq.log)
    ensures SameReports(st, r)
  {
    hide Minor, LastRetained;
    forall a ensures LastRetained(r.mq.log, LastCommandTopic(a)) == LastRetained(st.mq.log, LastCommandTopic(a)) {
      MinorKeeps(st.mq.log, r.mq.log, LastCommandTopic(a));
    }
  }

  lemma {:induction false} DiscoveryKeepsReports(e: RtEnv, st: St, devices: seq<RuntimeDevice>)
    ensures SameReports(st, DiscoveryFrom(e, st, devices).0)
    decreases |devices|
  {
    hide LastRetained;
    if devices != [] {
      var p := Publish(DiscoveryTopic(devices[0].deviceId), DiscoveryDocument(devices[0]), QOS, false);
      PublishKeepsReports(e, st, p);
      DiscoveryKeepsReports(e, PublishTo(e, st, p).0, devices[1..]);
    }
  }

  lemma PublishKeepsReports(e: RtEnv, st: St, p: Publish)
    requires !p.topic.LastCommandTopic?
    ensures SameReports(st, PublishTo(e, st, p).0)
  {
    hide LastRetained;
    forall a
      ensures LastRetained(st.mq.log + [p], LastCommandTopic(a)) == LastRetained(st.mq.log, LastCommandTopic(a))
    {
      RetainedAppend(st.mq.log, p, LastCommandTopic(a));
    }
  }

  lemma SnapshotKeepsReports(e: RtEnv, cfg: Config, st: St)
    ensures SameReports(st, PublishSnapshot(e, cfg, st).0)
  {
    hide PublishTo, DiscoveryFrom, DevicesFrom, LastRetained, Minor, Showing;
    PublishKeepsReports(e, st, BRIDGE_OFFLINE);
    var st1 := PublishTo(e, st, BRIDGE_OFFLINE).0;
    DiscoveryKeepsReports(e, st1, cfg.devices);
    var st2 := DiscoveryFrom(e, st1, cfg.devices).0;
    DevicesTell(e, cfg, st2, cfg.devices);
    var st3 := DevicesFrom(e, cfg, st2, cfg.devices).0;
    MinorKeepsReports(st2, st3);
    PublishKeepsReports(e, st3, BRIDGE_ONLINE);
  }

  lemma UpkeepKeepsReports(e: RtEnv, cfg: Config, st: St)
    requires GatewayInv(e, cfg, st)
    ensures var r := Upkeep(e, cfg, st).0;
            SameReports(st, r) && Quiet(st.w.trace, r.w.trace)
  {
    hide Refresh, ChangedFrom, LastRetained, Minor, Inv, Posts, CacheAgrees;
    if st.connected {
      RefreshIsSound(e.env, Sys(st.back.g, st.w));
      var s := Refresh(e.env, Sys(st.back.g, st.w)).0;
      var st1 := st.(back := HarmonyG2(s.g), w := s.w);
      ChangedIsMinor(e, st1, cfg.devices, None);
      MinorKeepsReports(st1, ChangedFrom(e, st1, cfg.devices, None).0);
      ChangedKeeps(e, st1, cfg.devices, None);
    }
  }

  lemma ServingTellsTruth(e: RtEnv, cfg: Config, st: St, m: BrokerEvent, a: Address, on: bool)
    requires GatewayInv(e, cfg, st) && ValidConfig(cfg) && a in cfg.addresses && IsCommand(cfg, m, a, on)
    ensures var (r, ok) := ServeCommand(e, cfg, st, a, on);
            && (ok ==> TellsTruth(cfg, e.env.gateway, Some(m), a, st.w.trace, r.w.trace,
                                  LastRetained(r.mq.log, LastCommandTopic(a))))
            && (ok ==> st.w.trace <= r.w.trace)
            && (forall b | b != a ::
                  LastRetained(r.mq.log, LastCommandTopic(b)) == LastRetained(st.mq.log, LastCommandTopic(b)))
  {
    hide SetDesired, ReportOutcome, LastRetained, Inv, AgreesWithWire, IsCommand, ValidConfig, CacheAgrees;
    GatewayIsCommandOnly(e, cfg, st, a);
    ServedCommandIsReported(e, cfg, st, a, on);
    var (asked, result) := AskCommand(e, st.(requests := st.requests + 1), Asked(st, a, on));
    if result.Success? {
      ReturnedStatusAgrees(e.env, Sys(st.back.g, st.w), Asked(st, a, on));
      ReportKeeps(e, cfg, asked, a, on, result.value.status);
    }
  }

  lemma MessageTellsTruth(e: RtEnv, cfg: Config, st: St, m: BrokerEvent, a: Address)
    requires GatewayInv(e, cfg, st) && ValidConfig(cfg) && Clean(cfg.layout.topicPrefix) && st.connected && m.Message?
    requires a in cfg.addresses
    ensures var (r, ok) := HandleMessage(e, cfg, st, m);
            ok ==>
              && st.w.trace <= r.w.trace
              && if Serves(cfg, st, Input(false, Some(m), false), a) then
                   TellsTruth(cfg, e.env.gateway, Some(m), a, st.w.trace, r.w.trace,
                              LastRetained(r.mq.log, LastCommandTopic(a)))
                 else LastRetained(r.mq.log, LastCommandTopic(a)) == LastRetained(st.mq.log, LastCommandTopic(a))
  {
    hide PublishSnapshot, ServeCommand, LastRetained, TellsTruth, Inv, IsCommand, ValidConfig, DecodeOnOff;
    hide ParseCommandTopic;
    hide CacheAgrees;
    forall b, on
      ensures IsCommand(cfg, m, b, on) <==> Addressed(cfg, m) == Some(b) && DecodeOnOff(m.payload) == Some(on)
    {
      CommandIsAddressed(cfg, m, b, on);
    }
    if m.topic == cfg.statusTopic {
      SnapshotKeepsReports(e, cfg, st);
      SnapshotKeeps(e, cfg, st);
    } else if Addressed(cfg, m).Some? && DecodeOnOff(m.payload).Some? {
      var b, on := Addressed(cfg, m).value, DecodeOnOff(m.payload).value;
      assert IsCommand(cfg, m, b, on);
      if AskAvailability(e, st, b.deviceId).1 == Online {
        ServingTellsTruth(e, cfg, st, m, b, on);
      }
    }
  }

  lemma DispatchTellsTruth(e: RtEnv, cfg: Config, st: St, event: Option<BrokerEvent>, a: Address)
    requires GatewayInv(e, cfg, st) && ValidConfig(cfg) && Clean(cfg.layout.topicPrefix) && a in cfg.addresses
    ensures var (r, ok) := Dispatch(e, cfg, st, event);
            ok ==>
              && st.w.trace <= r.w.trace
              && if Serves(cfg, st, Input(false, event, false), a) then
                   TellsTruth(cfg, e.env.gateway, event, a, st.w.trace, r.w.trace,
                              LastRetained(r.mq.log, LastCommandTopic(a)))
                 else LastRetained(r.mq.log, LastCommandTopic(a)) == LastRetained(st.mq.log, LastCommandTopic(a))
  {
    hide PublishSnapshot, HandleMessage, Subscribe, LastRetained, TellsTruth, GatewayInv, ValidConfig, CacheAgrees;
    if event == Some(Connected) {
      var st0 := st.(connected := true);
      SubscribeKeeps(e, st0, SubscriptionNames(cfg));
      var st1 := Subscribe(e, st0, SubscriptionNames(cfg)).0;
      SnapshotKeepsReports(e, cfg, st1);
      SnapshotKeeps(e, cfg, st1);
    } else if event.Some? && event.value.Message? && st.connected {
      MessageTellsTruth(e, cfg, st, event.value, a);
    }
  }

  lemma TruthIsKept(cfg: Config, gateway: Transport.Gateway, event: Option<BrokerEvent>, a: Address,
                    earlier: seq<Event>, middle: seq<Event>, later: seq<Event>, retained: Option<Payload>)
    requires TellsTruth(cfg, gateway, event, a, earlier, middle, retained) && earlier <= middle && Quiet(middle, later)
    ensures TellsTruth(cfg, gateway, event, a, earlier, later, retained)
  {
    hide AgreesWithWire, Quiet, IsCommand;
    var on, status, at :| IsCommand(cfg, event.value, a, on) && retained == Some(LastCommandDocument(on, status, at))
                          && AgreesWithWire(gateway, earlier, middle, status);
    QuietKeepsAgreement(gateway, earlier, middle, later, status);
  }

  /** After a turn that hands a command for an address to the gateway and returns, the broker retains a true report of
      it; every other turn leaves the report as it was. */
  lemma TurnTellsTruth(e: RtEnv, cfg: Config, st: St, input: Input, a: Address)
    requires GatewayInv(e, cfg, st) && ValidConfig(cfg) && Clean(cfg.layout.topicPrefix) && a in cfg.addresses
    ensures var (r, exit) := Turn(e, cfg, st, input);
            exit == Running ==>
              if Serves(cfg, st, input, a) then
                TellsTruth(cfg, e.env.gateway, input.event, a, st.w.trace, r.w.trace,
                           LastRetained(r.mq.log, LastCommandTopic(a)))
              else LastRetained(r.mq.log, LastCommandTopic(a)) == LastRetained(st.mq.log, LastCommandTopic(a))
  {
    hide Dispatch, Upkeep, LastRetained, TellsTruth, GatewayInv, ValidConfig, Quiet, IsCommand, Answers, CacheAgrees;
    var st0 := FireWill(st, input.will);
    WillKeeps(e, cfg, st, input.will);
    InvIgnoresClock(e, cfg, st, st0);
    RetainedAppend(st.mq.log, BRIDGE_OFFLINE, LastCommandTopic(a));
    if !input.stop {
      DispatchTellsTruth(e, cfg, st0, input.event, a);
      DispatchIsAnswered(e, cfg, st0, input.event);
      var st1 := Dispatch(e, cfg, st0, input.event).0;
      UpkeepKeepsReports(e, cfg, st1);
      if Turn(e, cfg, st, input).1 == Running && Serves(cfg, st, input, a) {
        assert Serves(cfg, st0, Input(false, input.event, false), a);
        TruthIsKept(cfg, e.env.gateway, input.event, a, st.w.trace, st1.w.trace, Upkeep(e, cfg, st1).0.w.trace,
                    LastRetained(st1.mq.log, LastCommandTopic(a)));
      }
    }
  }

  /** The last turn of a run that handed a command for this address to the gateway. */
  ghost function LastServed(e: RtEnv, cfg: Config, st: St, inputs: seq<Input>, a: Address): (i: Option<nat>)
    ensures i.Some? ==> i.value < |inputs|
  {
    if inputs == [] then None
    else
      var n := |inputs| - 1;
      if Serves(cfg, RunLoop(e, cfg, st, inputs[..n]).0, inputs[n], a) then Some(n)
      else LastServed(e, cfg, st, inputs[..n], a)
  }

  /** Over every run over the gateway: while the loop goes on, the broker retains for each address a report of the last
      command that was served for it, with the direction of its message and a status that agrees with what was sent in
      that turn and how the gateway answered; and no report if none was served. */
  lemma {:induction false} LastCommandIsTrue(e: RtEnv, cfg: Config, st: St, inputs: seq<Input>, a: Address)
    requires GatewayInv(e, cfg, st) && ValidConfig(cfg) && Clean(cfg.layout.topicPrefix) && a in cfg.addresses
    requires st.mq.log == [] && !st.connected
    ensures var (r, exit) := RunLoop(e, cfg, st, inputs);
            exit == Running ==>
              match LastServed(e, cfg, st, inputs, a)
              case None => LastRetained(r.mq.log, LastCommandTopic(a)) == None
              case Some(i) =>
                TellsTruth(cfg, e.env.gateway, inputs[i].event, a, RunLoop(e, cfg, st, inputs[..i]).0.w.trace,
                           RunLoop(e, cfg, st, inputs[..i + 1]).0.w.trace, LastRetained(r.mq.log, LastCommandTopic(a)))
  {
    hide Turn, Serves, TellsTruth, GatewayInv, ValidConfig, Image, Posts;
    if inputs != [] {
      var n := |inputs| - 1;
      var front := inputs[..n];
      LastCommandIsTrue(e, cfg, st, front, a);
      NoReplay(e, cfg, st, front);
      var (before, earlier) := RunLoop(e, cfg, st, front);
      if earlier == Running {
        TurnTellsTruth(e, cfg, before, inputs[n], a);
        assert inputs[..n + 1] == inputs;
        var last := LastServed(e, cfg, st, front, a);
        if last.Some? {
          assert front[..last.value] == inputs[..last.value] && front[..last.value + 1] == inputs[..last.value + 1];
        }
      }
    }
  }

  // ---- availability beside the reports ----

  /** While every device is cached as the gateway backend reports it, no availability is published again. */
  lemma {:induction false} UnchangedIsQuiet(e: RtEnv, st: St, devices: seq<RuntimeDevice>)
    requires forall d | d in devices :: UpToDate(st, d.deviceId)
    ensures ChangedFrom(e, st, devices, None) == (st, true)
    decreases |devices|
  {
    if devices != [] {
      assert devices[0] in devices && UpToDate(st, devices[0].deviceId);
      UnchangedIsQuiet(e, st, devices[1..]);
    }
  }

  /** After a served command without feedback the availability of its device is published again, changed or not. */
  lemma {:induction false} ForcedIsPublished(e: RtEnv, st: St, devices: seq<RuntimeDevice>, id: DeviceId)
    requires exists d :: d in devices && d.deviceId == id
    ensures var (r, ok) := ChangedFrom(e, st, devices, Some(id));
            ok ==> exists i :: |st.mq.log| <= i < |r.mq.log| && r.mq.log[i].topic == DeviceAvailability(id)
    decreases |devices|
  {
    hide Minor;
    var d, rest := devices[0], devices[1..];
    var (st1, ok1) := ChangedStep(e, st, d.deviceId, Some(id));
    var (r, ok) := ChangedFrom(e, st, devices, Some(id));
    ChangedStepIsMinor(e, st, d.deviceId, Some(id));
    ChangedIsMinor(e, st1, rest, Some(id));
    MinorExtends(st.mq.log, st1.mq.log);
    MinorExtends(st1.mq.log, ChangedFrom(e, st1, rest, Some(id)).0.mq.log);
    if ok && d.deviceId == id {
      assert r.mq.log[|st.mq.log|] == st1.mq.log[|st.mq.log|];
    } else if ok {
      assert devices == [d] + rest;
      ForcedIsPublished(e, st1, rest, id);
    }
  }
}
