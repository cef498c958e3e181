/** Which exceptions escape the gateway backend: exactly those of a JSON reader that is overwhelmed by what it reads.
    The original catches RescueErrors there, and a RecursionError is none. And what a request that fails does to
    availability. */
module Escape {
  import opened Wrappers
  import opened Session
  import JsonText
  import opened Calendar
  import opened Transport
  import opened Inventory
  import opened Client
  import opened Store
  import opened Model
  import opened Backend
  import opened Safety
  import opened Outcomes

  /** Some request made since `earlier` met such an exchange. */
  ghost predicate Met(gateway: Gateway, earlier: seq<Event>, later: seq<Event>, such: Exchange -> bool) {
    exists i :: |earlier| <= i < |later| && MetAt(gateway, later, i, such)
  }

  predicate MetAt(gateway: Gateway, trace: seq<Event>, i: nat, such: Exchange -> bool)
    requires i < |trace|
  {
    trace[i].Sent? && such(gateway(trace[..i + 1]))
  }

  /** Some request made since `earlier` was answered by a body that overwhelms the JSON reader. */
  ghost predicate Overwhelmed(gateway: Gateway, earlier: seq<Event>, later: seq<Event>) {
    Met(gateway, earlier, later, Overwhelms)
  }

  predicate Fails(x: Exchange) {
    Outcome(x).Failure?
  }

  /** Some request made since `earlier` failed. */
  ghost predicate Failed(gateway: Gateway, earlier: seq<Event>, later: seq<Event>) {
    Met(gateway, earlier, later, Fails)
  }

  lemma MetByNothing(gateway: Gateway, trace: seq<Event>)
    ensures !Overwhelmed(gateway, trace, trace) && !Failed(gateway, trace, trace)
  {
  }

  lemma MetByOneMore(gateway: Gateway, earlier: seq<Event>, later: seq<Event>, e: Event, such: Exchange -> bool)
    requires earlier <= later
    ensures Met(gateway, earlier, later + [e], such)
       <==> Met(gateway, earlier, later, such) || (e.Sent? && such(gateway(later + [e])))
  {
    var longer := later + [e];
    forall i: nat | i < |later| ensures MetAt(gateway, longer, i, such) == MetAt(gateway, later, i, such) {
      assert longer[..i + 1] == later[..i + 1];
    }
    assert longer[..|later| + 1] == longer;
    assert MetAt(gateway, longer, |later|, such) == (e.Sent? && such(gateway(longer)));
  }

  lemma OneMoreEvent(gateway: Gateway, earlier: seq<Event>, later: seq<Event>, e: Event)
    requires earlier <= later
    ensures Overwhelmed(gateway, earlier, later + [e])
       <==> Overwhelmed(gateway, earlier, later) || (e.Sent? && Overwhelms(gateway(later + [e])))
    ensures Failed(gateway, earlier, later + [e])
       <==> Failed(gateway, earlier, later) || (e.Sent? && Fails(gateway(later + [e])))
  {
    hide Met, Overwhelms, Fails;
    MetByOneMore(gateway, earlier, later, e, Overwhelms);
    MetByOneMore(gateway, earlier, later, e, Fails);
  }

  lemma MetInPart(gateway: Gateway, a: seq<Event>, b: seq<Event>, c: seq<Event>, such: Exchange -> bool)
    requires a <= b <= c
    ensures Met(gateway, a, c, such) <==> Met(gateway, a, b, such) || Met(gateway, b, c, such)
  {
    forall i: nat | i < |b| ensures MetAt(gateway, c, i, such) == MetAt(gateway, b, i, such) {
      assert c[..i + 1] == b[..i + 1];
    }
  }

  lemma InPart(gateway: Gateway, a: seq<Event>, b: seq<Event>, c: seq<Event>)
    requires a <= b <= c
    ensures Overwhelmed(gateway, a, c) <==> Overwhelmed(gateway, a, b) || Overwhelmed(gateway, b, c)
    ensures Failed(gateway, a, c) <==> Failed(gateway, a, b) || Failed(gateway, b, c)
  {
    hide Met;
    MetInPart(gateway, a, b, c, Overwhelms);
    MetInPart(gateway, a, b, c, Fails);
  }

  // ---- the client ----

  lemma SendEscapes(gateway: Gateway, trace: seq<Event>, r: Request)
    ensures var (sent, reply) := Send(gateway, trace, r);
            && sent == trace + [Sent(r)] && (reply.Success? ==> reply.value.Obj?)
            && (reply == Failure(Uncaught) <==> Overwhelmed(gateway, trace, sent))
            && (reply.Failure? <==> Failed(gateway, trace, sent))
  {
    hide Overwhelms, Outcome, Overwhelmed, Failed;
    SendAlwaysSends(gateway, trace, r);
    OutcomeIsSound(gateway(trace + [Sent(r)]));
    MetByNothing(gateway, trace);
    OneMoreEvent(gateway, trace, trace, Sent(r));
  }

  lemma RenewEscapes(gateway: Gateway, trace: seq<Event>, s: LocalSession, now: Instant)
    ensures var (sent, renewed) := Renew(gateway, trace, s, now);
            && trace <= sent && (renewed == Failure(Uncaught) <==> Overwhelmed(gateway, trace, sent))
            && (Failed(gateway, trace, sent) ==> renewed.Failure?)
  {
    hide Overwhelmed, Failed, Send, ParseRefreshed;
    SendEscapes(gateway, trace, Renewal(s.accessToken, s.refreshToken));
  }

  lemma SwitchEscapes(gateway: Gateway, trace: seq<Event>, endpoint: G2Endpoint, on: bool, token: Token)
    ensures var (sent, e) := SetOnOff(gateway, trace, endpoint, on, token);
            trace <= sent && (e == Some(Uncaught) <==> Overwhelmed(gateway, trace, sent))
  {
    hide Overwhelmed, Failed, Send;
    SendEscapes(gateway, trace, Switch(endpoint, on, token));
  }

  lemma {:induction false} SweepEscapes(gateway: Gateway, trace: seq<Event>, token: Token, page: Page, scan: Scan)
    ensures var (sent, r) := Sweep(gateway, trace, token, page, scan);
            && trace <= sent && (r == Failure(Uncaught) <==> Overwhelmed(gateway, trace, sent))
            && (Failed(gateway, trace, sent) ==> r.Failure?)
    decreases MAX_INVENTORY_PAGES - page
  {
    hide Overwhelmed, Failed, Send, ScanItems;
    SendEscapes(gateway, trace, Inventory(page, token));
    var (asked, reply) := Send(gateway, trace, Inventory(page, token));
    if ReadPage(reply, scan).More? && page < MAX_INVENTORY_PAGES {
      SweepEscapes(gateway, asked, token, page + 1, ReadPage(reply, scan).scan);
      InPart(gateway, trace, asked, Sweep(gateway, trace, token, page, scan).0);
    }
  }

  // ---- the backend ----

  lemma SaveEscapesNothing(gateway: Gateway, fs: FileSystem, store: StoreState, trace: seq<Event>, s: LocalSession)
    ensures var saved := Save(fs, store, trace, s).1;
            trace <= saved && !Overwhelmed(gateway, trace, saved) && !Failed(gateway, trace, saved)
  {
    hide RunSave, Encode, Overwhelmed, Failed;
    MetByNothing(gateway, trace);
    OneMoreEvent(gateway, trace, trace, Committed(s));
  }

  lemma RotateEscapes(env: Env, s: Sys, now: Instant)
    ensures var (r, e) := Rotate(env, s, now);
            && s.w.trace <= r.w.trace && (e == Some(Uncaught) <==> Overwhelmed(env.gateway, s.w.trace, r.w.trace))
            && (Failed(env.gateway, s.w.trace, r.w.trace) ==> e.Some?)
  {
    hide Renew, Save, Overwhelmed, Failed;
    var (sent, renewed) := Renew(env.gateway, s.w.trace, s.g.session, now);
    RenewEscapes(env.gateway, s.w.trace, s.g.session, now);
    if renewed.Success? {
      SaveEscapesNothing(env.gateway, env.fs, s.w.store, sent, renewed.value);
      InPart(env.gateway, s.w.trace, sent, Save(env.fs, s.w.store, sent, renewed.value).1);
    }
  }

  lemma RediscoverEscapes(env: Env, s: Sys, now: Instant)
    ensures var (r, e) := Rediscover(env, s, now);
            && s.w.trace <= r.w.trace && (e == Some(Uncaught) <==> Overwhelmed(env.gateway, s.w.trace, r.w.trace))
            && (Failed(env.gateway, s.w.trace, r.w.trace) ==> e.Some?)
  {
    hide Sweep, Snapshot, MarkIds, Overwhelmed, Failed;
    SweepEscapes(env.gateway, s.w.trace, s.g.session.accessToken, 1, EMPTY_SCAN);
  }

  lemma MaintainEscapes(env: Env, s: Sys)
    ensures var (r, e) := Maintain(env, s);
            && s.w.trace <= r.w.trace && (e == Some(Uncaught) <==> Overwhelmed(env.gateway, s.w.trace, r.w.trace))
            && (Failed(env.gateway, s.w.trace, r.w.trace) ==> e.Some?)
  {
    hide Rotate, Rediscover, Overwhelmed, Failed;
    var now := env.clock(s.w.ticks);
    var s0 := s.(w := Tick(s.w));
    RotateEscapes(env, s0, now);
    MetByNothing(env.gateway, s.w.trace);
    var s1 := if s.g.forceRenew || NeedsRenewal(s.g.session, now) then Rotate(env, s0, now).0 else s0;
    RediscoverEscapes(env, s1, now);
    InPart(env.gateway, s.w.trace, s1.w.trace, Rediscover(env, s1, now).0.w.trace);
  }

  /** An exception escapes `refresh` if and only if some reply during it overwhelms the JSON reader. */
  lemma RefreshEscapes(env: Env, s: Sys)
    ensures var (r, e) := Refresh(env, s);
            && (e.Some? <==> Overwhelmed(env.gateway, s.w.trace, r.w.trace))
            && (e.Some? ==> e == Some(Uncaught))
  {
    hide Maintain, MarkIds, Overwhelmed, Failed;
    MetByNothing(env.gateway, s.w.trace);
    MaintainEscapes(env, s.(w := Tick(s.w), g := s.g.(nextRefreshAt := env.clock(s.w.ticks) + INVENTORY_FRESHNESS)));
  }

  lemma SubmitEscapes(env: Env, s: Sys, endpoint: G2Endpoint, c: Command, on: bool)
    ensures var (r, result) := Submit(env, s, endpoint, c, on);
            && s.w.trace <= r.w.trace
            && (result == Failure(Uncaught) <==> Overwhelmed(env.gateway, s.w.trace, r.w.trace))
  {
    hide SetOnOff, MarkIds, Overwhelmed, Failed;
    SwitchEscapes(env.gateway, s.w.trace, endpoint, on, s.g.session.accessToken);
    var (sent, e) := SetOnOff(env.gateway, s.w.trace, endpoint, on, s.g.session.accessToken);
    var (r, result) := Submit(env, s, endpoint, c, on);
    assert r.w.trace == sent;
    assert result == Failure(Uncaught) <==> e == Some(Uncaught);
  }

  /** An exception escapes `set_desired` if and only if some reply during it overwhelms the JSON reader. */
  lemma SetDesiredEscapes(env: Env, s: Sys, c: Command)
    requires Inv(env, s)
    ensures var (r, result) := SetDesired(env, s, c);
            && (result.Failure? <==> Overwhelmed(env.gateway, s.w.trace, r.w.trace))
            && (result.Failure? ==> result == Failure(Uncaught))
  {
    hide Maintain, MarkIds, Overwhelmed, Failed, Submit, Inv;
    SetDesiredIsSound(env, s, c);
    MetByNothing(env.gateway, s.w.trace);
    MaintainEscapes(env, s);
    var (m, e) := Maintain(env, s);
    if Problem(s.g, c).None? && e.None? && c.deviceId in m.g.bindings {
      SubmitEscapes(env, m, m.g.bindings[c.deviceId], c, c.desired.b);
      InPart(env.gateway, s.w.trace, m.w.trace, SetDesired(env, s, c).0.w.trace);
    }
  }

  /** `open` raises something other than a RescueError if and only if the session file or some reply overwhelms the JSON
      reader. */
  lemma OpenEscapes(env: Env, w: World)
    ensures var (r, g) := Open(env, w);
            (g == Failure(Uncaught))
            <==> (env.fs.readable && LoadCrashes(w.store.disk, env.fs.limit))
                 || Overwhelmed(env.gateway, w.trace, r.trace)
  {
    hide Renew, Save, Sweep, Snapshot, Overwhelmed, Failed, LoadCrashes, LoadFrom;
    var now := env.clock(w.ticks);
    var (loaded, session) := Load(env.fs, w.store, w.trace);
    MetByNothing(env.gateway, w.trace);
    if session.Success? {
      var first := session.value;
      OneMoreEvent(env.gateway, w.trace, w.trace, Loaded(first));
      var w0 := Tick(w).(trace := loaded);
      OpenRotateEscapes(env, w0, first, now);
      var (w1, current) := OpenSession(env, Tick(w), now);
      InPart(env.gateway, w.trace, loaded, w1.trace);
      MetByNothing(env.gateway, loaded);
      if current.Success? {
        SweepEscapes(env.gateway, w1.trace, current.value.accessToken, 1, EMPTY_SCAN);
        InPart(env.gateway, w.trace, w1.trace, Open(env, w).0.trace);
      }
    }
  }

  lemma OpenRotateEscapes(env: Env, w: World, s: LocalSession, now: Instant)
    ensures var (r, next) := OpenRotate(env, w, s, now);
            w.trace <= r.trace && (next == Failure(Uncaught) <==> Overwhelmed(env.gateway, w.trace, r.trace))
  {
    hide Renew, Save, Overwhelmed, Failed;
    var (sent, renewed) := Renew(env.gateway, w.trace, s, now);
    RenewEscapes(env.gateway, w.trace, s, now);
    if renewed.Success? {
      SaveEscapesNothing(env.gateway, env.fs, w.store, sent, renewed.value);
      InPart(env.gateway, w.trace, sent, Save(env.fs, w.store, sent, renewed.value).1);
    }
  }

  /** A session file of brackets nested one deeper than the interpreter can follow makes `open` raise such an
      exception. */
  lemma DeepFileEscapes(env: Env, w: World)
    requires env.fs.readable && env.fs.limit < MAX_SESSION_BYTES
    requires w.store.disk.file == Some(JsonText.Brackets(env.fs.limit + 1))
    ensures Open(env, w).1 == Failure(Uncaught)
  {
    hide JsonText.Load, Decode;
    JsonText.DeepTextCrashes(env.fs.limit);
    OpenEscapes(env, w);
  }

  // ---- availability after a failed request ----

  /** A request of `refresh` that fails takes every device offline, unless its reply overwhelms the JSON reader: then
      availability stays as it was. */
  lemma FailedRefreshTakesDevicesOffline(env: Env, s: Sys)
    requires Inv(env, s) && Failed(env.gateway, s.w.trace, Refresh(env, s).0.w.trace)
    ensures var r := Refresh(env, s).0;
            if Overwhelmed(env.gateway, s.w.trace, r.w.trace) then r.g.availability == s.g.availability
            else AllAre(r.g, Offline)
  {
    hide Maintain, MarkIds, Overwhelmed, Failed, Inv;
    RefreshIsSound(env, s);
    RefreshEscapes(env, s);
    MetByNothing(env.gateway, s.w.trace);
    MaintainEscapes(env, Begun(env, s));
  }

  /** So does a request of `set_desired`, maintenance or command; but if the command itself was refused with 400 or its
      reply overwhelms the JSON reader, every device is online. */
  lemma FailedCommandTakesDevicesOffline(env: Env, s: Sys, c: Command)
    requires Inv(env, s) && Failed(env.gateway, s.w.trace, SetDesired(env, s, c).0.w.trace)
    ensures var r := SetDesired(env, s, c).0;
            var x := LastExchange(env, r.w.trace);
            if !Quiet(s.w.trace, r.w.trace) then
              if Overwhelms(x) || (Answered(x) && x.status == 400) then AllAre(r.g, Online) else AllAre(r.g, Offline)
            else
              if Overwhelmed(env.gateway, s.w.trace, r.w.trace) then r.g.availability == s.g.availability
              else AllAre(r.g, Offline)
  {
    hide Maintain, SetDesired, Overwhelmed, Failed, Inv, AllAre, Overwhelms, Answered, Quiet, CommandSent;
    SetDesiredIsSound(env, s, c);
    MetByNothing(env.gateway, s.w.trace);
    if Problem(s.g, c).None? && Maintain(env, s).1.None? {
      SentCommandFails(env, s, c);
    } else if Problem(s.g, c).None? {
      FailedMaintenanceIsSound(env, s, c);
      SetDesiredEscapes(env, s, c);
    }
  }

  lemma SentCommandFails(env: Env, s: Sys, c: Command)
    requires Inv(env, s) && Problem(s.g, c).None? && Maintain(env, s).1.None?
    requires Failed(env.gateway, s.w.trace, SetDesired(env, s, c).0.w.trace)
    ensures Judge(LastExchange(env, SetDesired(env, s, c).0.w.trace)) != Acknowledgement
  {
    hide Maintain, SetDesired, Failed, Inv, Posts, Problem, Outcome, MarksExchange, Concludes;
    SetDesiredIsSound(env, s, c);
    MaintainEscapes(env, s);
    var m, r := Maintain(env, s).0, SetDesired(env, s, c).0;
    OneMoreEvent(env.gateway, s.w.trace, m.w.trace, r.w.trace[|r.w.trace| - 1]);
    OutcomeIsSound(LastExchange(env, r.w.trace));
  }
}
