/** Recovery as the broker sees it: a turn of the bridge brings the retained availability back online. */
module Restoration {
  import opened Wrappers
  import opened Topics
  import opened Inventory
  import opened Backend
  import opened Safety
  import opened Outcomes
  import opened Recovery
  import opened Runtime
  import opened Retained
  import opened Replay

  /** Every connected turn that returns ends with exactly one refresh of the backend. */
  lemma TurnRefreshes(e: RtEnv, cfg: Config, st: St, input: Input)
    requires GatewayInv(e, cfg, st)
    ensures var (r, exit) := Turn(e, cfg, st, input);
            var st1 := Dispatch(e, cfg, FireWill(st, input.will), input.event).0;
            exit == Running && r.connected ==>
              st1.back.HarmonyG2? && r.back == HarmonyG2(Refresh(e.env, Sys(st1.back.g, st1.w)).0.g)
  {
    hide Dispatch, Refresh, ChangedFrom, CacheAgrees, Inv, Posts, Answers;
    var st0 := FireWill(st, input.will);
    WillKeeps(e, cfg, st, input.will);
    InvIgnoresClock(e, cfg, st, st0);
    DispatchIsAnswered(e, cfg, st0, input.event);
    var st1 := Dispatch(e, cfg, st0, input.event).0;
    if st1.connected {
      var s := Refresh(e.env, Sys(st1.back.g, st1.w)).0;
      ChangedKeeps(e, st1.(back := HarmonyG2(s.g), w := s.w), cfg.devices, None);
    }
  }

  /** Against a healthy gateway, a connected turn without an event whose refresh is due leaves every device retained
      online; only a read that is refused for a superseded token, without a renewal before it, leaves them offline. */
  lemma TurnRestoresDevices(e: RtEnv, cfg: Config, st: St, input: Input, pages: Listing, k: nat, entries: seq<Entry>)
    requires GatewayInv(e, cfg, st) && CacheAgrees(st) && st.connected
    requires input.event.None? && Turn(e, cfg, st, input).1 == Running
    requires Healthy(e.env, st.w, pages, k, entries) && Due(e.env, Sys(st.back.g, st.w))
    ensures forall d | d in cfg.devices ::
              WireRetained(cfg.layout, Turn(e, cfg, st, input).0.mq.log,
                  Render(cfg.layout, DeviceAvailability(d.deviceId)))
              == Some(Text(if ReadFails(e.env, Begun(e.env, Sys(st.back.g, st.w))) then "offline" else "online"))
  {
    hide Refresh, Turn, CacheAgrees, Inv, Healthy, ReadFails, Due, Render, UpToDate, Answers;
    var s := Sys(st.back.g, st.w);
    DueRefreshIsExact(e.env, pages, k, entries, s);
    TurnRefreshes(e, cfg, st, input);
    TurnIsAnswered(e, cfg, st, input);
    RetainedIsCurrent(cfg, Turn(e, cfg, st, input).0);
  }
}
