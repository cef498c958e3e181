/** What ends the event loop: over the gateway backend, with a broker that takes everything, only an unexpected
    disconnection and a reply that overwhelms the JSON reader. */
module Stops {
  import opened Wrappers
  import opened Identity
  import opened Topics
  import opened Model
  import opened Backend
  import opened Safety
  import opened Outcomes
  import opened Escape
  import opened Runtime
  import opened Retained
  import opened Replay

  ghost predicate Accepting(e: RtEnv) {
    forall n :: e.accepts(n)
  }

  // ---- publishing to an accepting broker always returns ----

  lemma AvailabilityReturns(e: RtEnv, st: St, id: DeviceId, state: AvailabilityState)
    requires Accepting(e)
    ensures PublishAvailability(e, st, id, state).1
  {
  }

  lemma ObservationReturns(e: RtEnv, st: St, a: Address, o: Observation)
    requires Accepting(e)
    ensures PublishObservation(e, st, a, o).2
  {
  }

  lemma {:induction false} AddressesReturn(e: RtEnv, cfg: Config, st: St, id: DeviceId, addresses: seq<Address>,
                                           complete: bool)
    requires Accepting(e)
    ensures AddressesFrom(e, cfg, st, id, addresses, complete).2
    decreases |addresses|
  {
    hide PublishObservation, AskObservation;
    if addresses != [] {
      var (st1, o) := AskObservation(e, st, addresses[0]);
      if o.Some? {
        ObservationReturns(e, st1, addresses[0], o.value);
      }
      var (st2, complete1, _) := AddressStep(e, cfg, st, id, addresses[0], complete);
      AddressesReturn(e, cfg, st2, id, addresses[1..], complete1);
    }
  }

  lemma {:induction false} DevicesReturn(e: RtEnv, cfg: Config, st: St, devices: seq<RuntimeDevice>)
    requires Accepting(e)
    ensures DevicesFrom(e, cfg, st, devices).1
    decreases |devices|
  {
    hide AddressesFrom, AskAvailability;
    if devices != [] {
      AddressesReturn(e, cfg, st, devices[0].deviceId, cfg.addresses, true);
      var (st1, complete, _) := AddressesFrom(e, cfg, st, devices[0].deviceId, cfg.addresses, true);
      var (st2, state) := AskAvailability(e, st1, devices[0].deviceId);
      AvailabilityReturns(e, st2, devices[0].deviceId, if complete then state else Offline);
      DevicesReturn(e, cfg, DeviceStep(e, cfg, st, devices[0].deviceId).0, devices[1..]);
    }
  }

  lemma {:induction false} DiscoveryReturns(e: RtEnv, st: St, devices: seq<RuntimeDevice>)
    requires Accepting(e)
    ensures DiscoveryFrom(e, st, devices).1
    decreases |devices|
  {
    if devices != [] {
      var p := Publish(DiscoveryTopic(devices[0].deviceId), DiscoveryDocument(devices[0]), QOS, false);
      DiscoveryReturns(e, PublishTo(e, st, p).0, devices[1..]);
    }
  }

  lemma SnapshotReturns(e: RtEnv, cfg: Config, st: St)
    requires Accepting(e)
    ensures PublishSnapshot(e, cfg, st).1
  {
    hide DiscoveryFrom, DevicesFrom;
    var st1 := PublishTo(e, st, BRIDGE_OFFLINE).0;
    DiscoveryReturns(e, st1, cfg.devices);
    DevicesReturn(e, cfg, DiscoveryFrom(e, st1, cfg.devices).0, cfg.devices);
  }

  lemma {:induction false} ChangedReturns(e: RtEnv, st: St, devices: seq<RuntimeDevice>, force: Option<DeviceId>)
    requires Accepting(e)
    ensures ChangedFrom(e, st, devices, force).1
    decreases |devices|
  {
    hide AskAvailability;
    if devices != [] {
      var (st1, state) := AskAvailability(e, st, devices[0].deviceId);
      AvailabilityReturns(e, st1, devices[0].deviceId, state);
      ChangedReturns(e, ChangedStep(e, st, devices[0].deviceId, force).0, devices[1..], force);
    }
  }

  lemma ReportReturns(e: RtEnv, cfg: Config, st: St, a: Address, on: bool, status: Status)
    requires Accepting(e)
    ensures ReportOutcome(e, cfg, st, a, on, status).1
  {
    hide ChangedFrom;
    var p := Publish(LastCommandTopic(a), LastCommandDocument(on, status, e.env.clock(st.w.ticks)), QOS, true);
    ChangedReturns(e, PublishTo(e, st.(w := Tick(st.w)), p).0, cfg.devices, Some(a.deviceId));
    if status.Confirmed? {
      ObservationReturns(e, st, a, status.observation);
    }
  }

  lemma {:induction false} SubscribeReturns(e: RtEnv, st: St, names: seq<string>)
    requires Accepting(e)
    ensures Subscribe(e, st, names).1
    decreases |names|
  {
    if names != [] {
      SubscribeReturns(e, st.(mq := st.mq.(names := st.mq.names + [names[0]], calls := st.mq.calls + 1)), names[1..]);
    }
  }

  // ---- one turn ----

  /** Some reply between the two states overwhelms the JSON reader. */
  ghost predicate Struck(e: RtEnv, st: St, r: St) {
    st.w.trace <= r.w.trace && Overwhelmed(e.env.gateway, st.w.trace, r.w.trace)
  }

  lemma NotStruck(e: RtEnv, st: St, r: St)
    requires r.w.trace == st.w.trace
    ensures !Struck(e, st, r)
  {
    MetByNothing(e.env.gateway, st.w.trace);
  }

  lemma ServingStops(e: RtEnv, cfg: Config, st: St, a: Address, on: bool)
    requires Accepting(e) && GatewayInv(e, cfg, st)
    ensures var (r, ok) := ServeCommand(e, cfg, st, a, on);
            st.w.trace <= r.w.trace && (!ok <==> Struck(e, st, r))
  {
    hide SetDesired, ReportOutcome, Overwhelmed, Inv;
    var s := Sys(st.back.g, st.w);
    var c := Command(st.requests, a.deviceId, a.endpoint, a.capability, BoolValue(on));
    SetDesiredEscapes(e.env, s, c);
    SetDesiredIsSound(e.env, s, c);
    var (st2, r) := AskCommand(e, st.(requests := st.requests + 1), c);
    if r.Success? {
      ReportReturns(e, cfg, st2, a, on, r.value.status);
      ReportKeeps(e, cfg, st2, a, on, r.value.status);
    }
  }

  lemma MessageStops(e: RtEnv, cfg: Config, st: St, m: BrokerEvent)
    requires m.Message? && Accepting(e) && GatewayInv(e, cfg, st)
    ensures var (r, ok) := HandleMessage(e, cfg, st, m);
            st.w.trace <= r.w.trace && (!ok <==> Struck(e, st, r))
  {
    hide PublishSnapshot, AskAvailability, ServeCommand, Addressed, DecodeOnOff, GatewayInv, Struck;
    NotStruck(e, st, st);
    if m.topic == cfg.statusTopic {
      SnapshotReturns(e, cfg, st);
      SnapshotKeeps(e, cfg, st);
      NotStruck(e, st, PublishSnapshot(e, cfg, st).0);
    } else if Addressed(cfg, m).Some? {
      var a := Addressed(cfg, m).value;
      AskAvailabilityKeeps(e, st, a.deviceId);
      var (st1, state) := AskAvailability(e, st, a.deviceId);
      InvIgnoresClock(e, cfg, st, st1);
      NotStruck(e, st, st1);
      if state == Online && DecodeOnOff(m.payload).Some? {
        ServingStops(e, cfg, st1, a, DecodeOnOff(m.payload).value);
        SameStruck(e, st, st1, ServeCommand(e, cfg, st1, a, DecodeOnOff(m.payload).value).0);
      }
    }
  }

  lemma SameStruck(e: RtEnv, st: St, st1: St, r: St)
    requires st1.w.trace == st.w.trace
    ensures Struck(e, st, r) == Struck(e, st1, r)
  {
  }

  /** The connection was lost for a reason. */
  predicate Drops(event: Option<BrokerEvent>) {
    event.Some? && event.value.Disconnected? && event.value.reason.Some?
  }

  lemma DispatchStops(e: RtEnv, cfg: Config, st: St, event: Option<BrokerEvent>)
    requires Accepting(e) && GatewayInv(e, cfg, st)
    ensures var (r, ok) := Dispatch(e, cfg, st, event);
            st.w.trace <= r.w.trace && (!ok <==> Drops(event) || Struck(e, st, r))
  {
    hide PublishSnapshot, HandleMessage, Subscribe, GatewayInv, Struck;
    NotStruck(e, st, st);
    if event == Some(Connected) {
      var st0 := st.(connected := true);
      SubscribeReturns(e, st0, SubscriptionNames(cfg));
      SubscribeKeeps(e, st0, SubscriptionNames(cfg));
      var st1 := Subscribe(e, st0, SubscriptionNames(cfg)).0;
      SnapshotReturns(e, cfg, st1);
      SnapshotKeeps(e, cfg, st1);
      NotStruck(e, st, PublishSnapshot(e, cfg, st1).0);
    } else if event.Some? && event.value.Message? && st.connected {
      MessageStops(e, cfg, st, event.value);
    } else {
      NotStruck(e, st, Dispatch(e, cfg, st, event).0);
    }
  }

  lemma UpkeepStops(e: RtEnv, cfg: Config, st: St)
    requires Accepting(e) && GatewayInv(e, cfg, st)
    ensures var (r, ok) := Upkeep(e, cfg, st);
            st.w.trace <= r.w.trace && (!ok <==> Struck(e, st, r))
  {
    hide Refresh, ChangedFrom, Overwhelmed, Inv;
    MetByNothing(e.env.gateway, st.w.trace);
    if st.connected {
      var s := Sys(st.back.g, st.w);
      RefreshEscapes(e.env, s);
      RefreshIsSound(e.env, s);
      var r := Refresh(e.env, s).0;
      var st1 := st.(back := HarmonyG2(r.g), w := r.w);
      ChangedReturns(e, st1, cfg.devices, None);
      ChangedKeeps(e, st1, cfg.devices, None);
    }
  }

  lemma StruckInPart(e: RtEnv, a: St, b: St, c: St)
    requires a.w.trace <= b.w.trace <= c.w.trace
    ensures Struck(e, a, c) <==> Struck(e, a, b) || Struck(e, b, c)
  {
    InPart(e.env.gateway, a.w.trace, b.w.trace, c.w.trace);
  }

  /** One turn raises if and only if it takes an unexpected disconnection or a reply overwhelms the JSON reader. */
  lemma TurnStops(e: RtEnv, cfg: Config, st: St, input: Input)
    requires Accepting(e) && GatewayInv(e, cfg, st)
    ensures var (r, exit) := Turn(e, cfg, st, input);
            st.w.trace <= r.w.trace && (exit == Raised <==> !input.stop && (Drops(input.event) || Struck(e, st, r)))
  {
    hide Dispatch, Upkeep, GatewayInv, Struck;
    var st0 := FireWill(st, input.will);
    WillKeeps(e, cfg, st, input.will);
    InvIgnoresClock(e, cfg, st, st0);
    if !input.stop {
      DispatchStops(e, cfg, st0, input.event);
      DispatchIsAnswered(e, cfg, st0, input.event);
      var st1 := Dispatch(e, cfg, st0, input.event).0;
      UpkeepStops(e, cfg, st1);
      var r := Turn(e, cfg, st, input).0;
      SameStruck(e, st, st0, r);
      SameStruck(e, st, st0, st1);
      StruckInPart(e, st0, st1, Upkeep(e, cfg, st1).0);
    }
  }

  /** Over every run with an accepting broker and no unexpected disconnection, the loop ends with an exception if and
      only if some reply of the gateway overwhelms the JSON reader. */
  lemma {:induction false} RunStops(e: RtEnv, cfg: Config, st: St, inputs: seq<Input>)
    requires Accepting(e) && GatewayInv(e, cfg, st) && !st.connected
    requires forall i | 0 <= i < |inputs| :: !Drops(inputs[i].event)
    ensures var (r, exit) := RunLoop(e, cfg, st, inputs);
            st.w.trace <= r.w.trace && (exit == Raised <==> Struck(e, st, r))
  {
    hide Turn, GatewayInv, Struck;
    if inputs == [] {
      NotStruck(e, st, st);
    } else {
      var front, last := inputs[..|inputs| - 1], inputs[|inputs| - 1];
      RunStops(e, cfg, st, front);
      NoReplay(e, cfg, st, front);
      var (before, exit) := RunLoop(e, cfg, st, front);
      if exit == Running {
        TurnStops(e, cfg, before, last);
        StruckInPart(e, st, before, Turn(e, cfg, before, last).0);
        if last.stop {
          StopIsQuiet(e, cfg, before, last);
        }
      }
    }
  }

  lemma StopIsQuiet(e: RtEnv, cfg: Config, st: St, input: Input)
    requires input.stop
    ensures !Struck(e, st, Turn(e, cfg, st, input).0)
  {
    NotStruck(e, st, Turn(e, cfg, st, input).0);
  }
}
