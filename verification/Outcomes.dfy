/** What a command's reported outcome says about the gateway, and what every operation leaves behind. */
module Outcomes {
  import opened Wrappers
  import opened Identity
  import opened Values
  import opened Calendar
  import opened Session
  import opened Transport
  import opened Client
  import opened Store
  import opened Model
  import opened Backend
  import opened Safety

  /** What may truthfully be said of a command, judging by everything that happened on the wire. */
  datatype Verdict = Acknowledgement | NoEffect | Ambiguous

  ghost function Judge(x: Exchange): Verdict {
    if Delivered(x) && Maps(x.json.value, "success", Bool(true)) then Acknowledgement
    else if !Submitted(x) || (Answered(x) && (x.status == 400 || x.status == 401 || x.status == 403)) then NoEffect
    else Ambiguous
  }

  /** The reported status agrees with the verdict. */
  predicate Reports(status: Status, v: Verdict) {
    match v
    case Acknowledgement => status == Accepted
    case NoEffect => status.Rejected?
    case Ambiguous => status == Indeterminate
  }

  /** The exchange that the last request of a history met. */
  function LastExchange(env: Env, trace: seq<Event>): Exchange {
    env.gateway(trace)
  }

  /** What a sent command comes to: a status that agrees with the verdict, or an exception if the reply overwhelms the
      JSON reader. */
  ghost predicate Concludes(result: Result<CommandResult, Error>, c: Command, x: Exchange) {
    if Overwhelms(x) then result == Failure(Uncaught)
    else result.Success? && result.value.requestId == c.requestId && Reports(result.value.status, Judge(x))
  }

  lemma SetOnOffIsExact(gateway: Gateway, trace: seq<Event>, endpoint: G2Endpoint, on: bool, token: Token)
    ensures var (sent, e) := SetOnOff(gateway, trace, endpoint, on, token);
            var x := gateway(sent);
            && sent == trace + [Sent(Switch(endpoint, on, token))]
            && (e.None? <==> Judge(x) == Acknowledgement)
            && (e == Some(Transport(false)) <==> !Submitted(x))
            && (e == Some(Uncaught) <==> Overwhelms(x))
            && (e.Some? ==>
                  && e.value != Validation
                  && (e.value.Response? && e.value.status.Some? ==> Answered(x) && e.value.status == Some(x.status))
                  && (Answered(x) && !(200 <= x.status < 300) ==> e == Some(Response(Some(x.status)))))
  {
    hide Maps, Get;
    SendAlwaysSends(gateway, trace, Switch(endpoint, on, token));
    var x := gateway(trace + [Sent(Switch(endpoint, on, token))]);
    OutcomeIsSound(x);
    if Delivered(x) {
      GetIsExact(x.json.value, "success", Bool(true));
    }
  }

  /** The command was sent and met this exchange, yet every device is still online: it was acknowledged, plainly refused
      with 400, or answered by a body that overwhelms the JSON reader. */
  ghost predicate LeavesOnline(x: Exchange) {
    Judge(x) == Acknowledgement || (Answered(x) && x.status == 400) || Overwhelms(x)
  }

  /** Sending one command to a fully online, freshly maintained system: the outcome is the verdict of the exchange, or
      an exception if the reply overwhelms the JSON reader, and `LeavesOnline` says whether every device is online or
      every device is offline afterwards. */
  lemma SubmitIsSound(env: Env, s: Sys, endpoint: G2Endpoint, c: Command, on: bool)
    requires Inv(env, s) && AllAre(s.g, Online) && c.deviceId in s.g.bindings && !s.g.closed
    ensures var (r, result) := Submit(env, s, endpoint, c, on);
            var x := LastExchange(env, r.w.trace);
            && r.w.trace == s.w.trace + [Sent(Switch(endpoint, on, s.g.session.accessToken))]
            && Inv(env, r) && !r.g.closed && r.g.devices == s.g.devices && r.g.nextRefreshAt == s.g.nextRefreshAt
            && Concludes(result, c, x)
            && (if LeavesOnline(x) then AllAre(r.g, Online) else AllAre(r.g, Offline))
  {
    hide Judge, Overwhelms, Answered, Submitted, Submit, SetOnOff, Inv, AllAre, Concludes;
    var (sent, e) := SetOnOff(env.gateway, s.w.trace, endpoint, on, s.g.session.accessToken);
    SetOnOffIsExact(env.gateway, s.w.trace, endpoint, on, s.g.session.accessToken);
    JudgeByError(env.gateway(sent), e);
    SubmitMarks(env, s, endpoint, c, on);
    SubmitReports(env, s, endpoint, c, on);
  }

  /** The errors of a sent command after which `set_desired` marks no device offline. */
  predicate KeepsOnline(e: Option<Error>) {
    e.None? || e == Some(Uncaught) || e == Some(Response(Some(400)))
  }

  lemma SubmitMarks(env: Env, s: Sys, endpoint: G2Endpoint, c: Command, on: bool)
    requires Inv(env, s) && AllAre(s.g, Online) && c.deviceId in s.g.bindings && !s.g.closed
    requires SetOnOff(env.gateway, s.w.trace, endpoint, on, s.g.session.accessToken).1 != Some(Validation)
    ensures var r := Submit(env, s, endpoint, c, on).0;
            var (sent, e) := SetOnOff(env.gateway, s.w.trace, endpoint, on, s.g.session.accessToken);
            && r.w.trace == sent
            && Inv(env, r) && !r.g.closed && r.g.devices == s.g.devices && r.g.nextRefreshAt == s.g.nextRefreshAt
            && (if KeepsOnline(e) then AllAre(r.g, Online) else AllAre(r.g, Offline))
  {
    hide SetOnOff, Inv, AllAre, MarkAll, MarkOne, AfterFailure;
    var (sent, e) := SetOnOff(env.gateway, s.w.trace, endpoint, on, s.g.session.accessToken);
    SetOnOffIsExact(env.gateway, s.w.trace, endpoint, on, s.g.session.accessToken);
    var s1 := s.(w := s.w.(trace := sent));
    RequestKeepsInv(env, s, Switch(endpoint, on, s.g.session.accessToken));
    if e.None? {
      MarkOnline(env, s1, c.deviceId);
    } else if !KeepsOnline(e) {
      InvParts(env, s1);
      OfflineIsSound(env, s1);
      FailureIsSound(env, s1, e.value);
    }
  }

  lemma RequestKeepsInv(env: Env, s: Sys, r: Request)
    requires Inv(env, s) && r.Switch? && r.accessToken == s.g.session.accessToken
    ensures Inv(env, s.(w := s.w.(trace := s.w.trace + [Sent(r)])))
  {
    hide Configured, Sound;
    SendKeepsSound(s.w.trace, s.g.session, r);
  }

  lemma SubmitReports(env: Env, s: Sys, endpoint: G2Endpoint, c: Command, on: bool)
    ensures var result := Submit(env, s, endpoint, c, on).1;
            var (sent, e) := SetOnOff(env.gateway, s.w.trace, endpoint, on, s.g.session.accessToken);
            Concludes(result, c, env.gateway(sent))
  {
    hide Judge, Overwhelms, Answered, Submitted, SetOnOff, MarkAll, MarkOne, AfterFailure;
    var (sent, e) := SetOnOff(env.gateway, s.w.trace, endpoint, on, s.g.session.accessToken);
    SetOnOffIsExact(env.gateway, s.w.trace, endpoint, on, s.g.session.accessToken);
    JudgeByError(env.gateway(sent), e);
  }

  lemma JudgeByError(x: Exchange, e: Option<Error>)
    requires e.None? <==> Judge(x) == Acknowledgement
    requires e.Some? ==> e.value != Validation
    requires e == Some(Transport(false)) <==> !Submitted(x)
    requires e.Some? && e.value.Response? && e.value.status.Some? ==> Answered(x) && e.value.status == Some(x.status)
    requires e.Some? && Answered(x) && !(200 <= x.status < 300) ==> e == Some(Response(Some(x.status)))
    requires e == Some(Uncaught) <==> Overwhelms(x)
    ensures Judge(x) == NoEffect <==>
              e == Some(Transport(false)) || e == Some(Response(Some(400))) || (e.Some? && IsAuthRefusal(e.value))
    ensures Answered(x) && x.status == 400 <==> e == Some(Response(Some(400)))
  {
  }

  lemma MarkOnline(env: Env, s: Sys, id: DeviceId)
    requires Inv(env, s) && AllAre(s.g, Online) && id in s.g.bindings
    ensures var r := MarkOne(env, s, id, Online);
            && Inv(env, r) && AllAre(r.g, Online)
            && r.g == s.g.(availability := r.g.availability) && r.w.trace == s.w.trace
  {
    hide BindsConfiguration, AssertedDevices, Sound;
    assert id in s.g.availability;
    assert MarkOne(env, s, id, Online).g.availability.Keys == s.g.availability.Keys;
  }

  lemma OfflineIsSound(env: Env, s: Sys)
    requires Configured(env, s.g) && Sound(s.w.trace, s.g.session)
    ensures var r := MarkAll(env, s, Offline);
            && Inv(env, r) && AllAre(r.g, Offline) && r.w.trace == s.w.trace
            && r.g == s.g.(availability := r.g.availability)
  {
    hide Configured, Sound, MarkAll;
    MarkAllIsUniform(env, s, Offline);
  }

  lemma FailureIsSound(env: Env, s: Sys, e: Error)
    requires Configured(env, s.g) && Sound(s.w.trace, s.g.session)
    ensures var r := AfterFailure(env, s, e);
            && Inv(env, r) && AllAre(r.g, Offline)
            && r.w.trace == s.w.trace && r.g.session == s.g.session
            && r.g.closed == s.g.closed && r.g.devices == s.g.devices && r.g.nextRefreshAt == s.g.nextRefreshAt
            && (r.g.forceRenew <==> s.g.forceRenew || e == Response(Some(401)) || e == Response(Some(403)))
  {
    hide MarkAll, Inv, AllAre, Sound;
    OfflineIsSound(env, s.(g := s.g.(forceRenew := s.g.forceRenew || IsAuthRefusal(e))));
  }

  /** An exception that escapes maintenance leaves the invariant as it was, and availability too. */
  lemma EscapeIsSound(env: Env, s: Sys)
    requires Inv(env, s)
    ensures var (m, e) := Maintain(env, s);
            e.Some? ==> Inv(env, m) && m.g.availability == s.g.availability
  {
    hide Maintain, Configured, Sound, Quiet;
    MaintainIsSound(env, s) by { InvParts(env, s); }
  }

  lemma InvParts(env: Env, s: Sys)
    requires Inv(env, s)
    ensures Configured(env, s.g) && Sound(s.w.trace, s.g.session)
  {
  }

  /** The maintenance that a command performs, and the command it sends only after that maintenance. */
  ghost predicate SentAfterMaintenance(env: Env, s: Sys, c: Command, r: Sys, on: bool)
    requires c.deviceId in s.g.bindings
  {
    var (m, e) := Maintain(env, s);
    && e.None? && c.deviceId in m.g.bindings
    && r.w.trace == m.w.trace + [Sent(Switch(m.g.bindings[c.deviceId], on, m.g.session.accessToken))]
    && BoundTo(ConfiguredAs(env, c.deviceId), m.g.bindings)
  }

  /** What a sent command comes to: it is the one asked for, to the configured component, and its outcome agrees with
      the wire. */
  ghost predicate CommandSent(env: Env, s: Sys, c: Command, r: Sys, result: Result<CommandResult, Error>)
    requires Problem(s.g, c).None?
  {
    && SentAfterMaintenance(env, s, c, r, c.desired.b)
    && Posts(r.w.trace) == Posts(s.w.trace) + [r.w.trace[|r.w.trace| - 1].request]
    && Concludes(result, c, LastExchange(env, r.w.trace))
  }

  /** What failed maintenance does: an exception that is no RescueError leaves availability as it was, any other takes
      every device offline, and a 401 or 403 makes a renewal pending. */
  ghost predicate MarksFailure(was: G2, g: G2, e: Error) {
    if e == Uncaught then g.availability == was.availability
    else AllAre(g, Offline) && (e == Response(Some(401)) || e == Response(Some(403)) ==> g.forceRenew)
  }

  /** What the exchange of a sent command does to availability. */
  ghost predicate MarksExchange(g: G2, x: Exchange) {
    if LeavesOnline(x) then AllAre(g, Online) else AllAre(g, Offline)
  }

  /** `set_desired` keeps the invariant, lets no RescueError escape, never reaches its "binding is unavailable"
      branch, and sends at most one command: it sends the one asked for exactly when it finds no problem and
      maintenance succeeds, with an outcome that agrees with the wire unless the reply overwhelms the JSON reader.
      Availability is decided by the error of the maintenance, or else by the exchange of the command. */
  lemma SetDesiredIsSound(env: Env, s: Sys, c: Command)
    requires Inv(env, s)
    ensures var (r, result) := SetDesired(env, s, c);
            && Inv(env, r) && r.g.closed == s.g.closed && r.g.devices == s.g.devices
            && r.g.nextRefreshAt == s.g.nextRefreshAt && s.w.trace <= r.w.trace
            && (result.Failure? ==> result.error == Uncaught)
            && (result.Success? ==> result.value.requestId == c.requestId)
            && (Quiet(s.w.trace, r.w.trace) && result.Success? ==> result.value.status.Rejected?)
            && (!Quiet(s.w.trace, r.w.trace) <==> Problem(s.g, c).None? && Maintain(env, s).1.None?)
            && (!Quiet(s.w.trace, r.w.trace) ==> CommandSent(env, s, c, r, result))
            && (if Problem(s.g, c).Some? then r == s
                else match Maintain(env, s).1
                     case None => MarksExchange(r.g, LastExchange(env, r.w.trace))
                     case Some(e) => MarksFailure(s.g, r.g, e))
  {
    hide Maintain, SetDesired, Inv, Quiet, CommandSent, MarksExchange, MarksFailure;
    if Problem(s.g, c).Some? {
      ProblemIsReported(env, s, c);
    } else if Maintain(env, s).1.Some? {
      FailedMaintenanceIsSound(env, s, c);
    } else {
      SentCommandIsSound(env, s, c);
    }
  }

  lemma ProblemIsReported(env: Env, s: Sys, c: Command)
    requires Problem(s.g, c).Some?
    ensures var (r, result) := SetDesired(env, s, c);
            && r == s && Quiet(s.w.trace, r.w.trace)
            && result.Success? && result.value.requestId == c.requestId && result.value.status.Rejected?
  {
  }

  lemma FailedMaintenanceIsSound(env: Env, s: Sys, c: Command)
    requires Inv(env, s) && Problem(s.g, c).None? && Maintain(env, s).1.Some?
    ensures var (r, result) := SetDesired(env, s, c);
            && Inv(env, r) && r.g.closed == s.g.closed && r.g.devices == s.g.devices
            && r.g.nextRefreshAt == s.g.nextRefreshAt && s.w.trace <= r.w.trace && Quiet(s.w.trace, r.w.trace)
            && MarksFailure(s.g, r.g, Maintain(env, s).1.value)
            && (if Maintain(env, s).1 == Some(Uncaught) then result == Failure(Uncaught)
                else result.Success? && result.value.requestId == c.requestId && result.value.status.Rejected?)
  {
    hide Maintain, AfterFailure, Configured, Sound, AllAre, Posts;
    InvParts(env, s);
    MaintainIsSound(env, s);
    EscapeIsSound(env, s);
    FailureIsSound(env, Maintain(env, s).0, Maintain(env, s).1.value);
  }

  lemma SentCommandIsSound(env: Env, s: Sys, c: Command)
    requires Inv(env, s) && Problem(s.g, c).None? && Maintain(env, s).1.None?
    ensures var (r, result) := SetDesired(env, s, c);
            && Inv(env, r) && r.g.closed == s.g.closed && r.g.devices == s.g.devices
            && r.g.nextRefreshAt == s.g.nextRefreshAt && s.w.trace <= r.w.trace && !Quiet(s.w.trace, r.w.trace)
            && CommandSent(env, s, c, r, result) && MarksExchange(r.g, LastExchange(env, r.w.trace))
            && (result.Failure? ==> result.error == Uncaught)
            && (result.Success? ==> result.value.requestId == c.requestId)
  {
    hide Maintain, Submit, Configured, Sound, LeavesOnline, Posts, Judge, Quiet, BoundTo, Overwhelms, Reports;
    MaintainedForCommand(env, s, c);
    var m := Maintain(env, s).0;
    var endpoint := m.g.bindings[c.deviceId];
    SubmitIsSound(env, m, endpoint, c, c.desired.b);
    CommandIsNotQuiet(s.w.trace, m.w.trace, Switch(endpoint, c.desired.b, m.g.session.accessToken));
  }

  /** The state in which a command is sent. */
  lemma MaintainedForCommand(env: Env, s: Sys, c: Command)
    requires Inv(env, s) && Problem(s.g, c).None? && Maintain(env, s).1.None?
    ensures var m := Maintain(env, s).0;
            && Inv(env, m) && AllAre(m.g, Online) && c.deviceId in m.g.bindings && !m.g.closed
            && m.g.devices == s.g.devices && m.g.nextRefreshAt == s.g.nextRefreshAt && Quiet(s.w.trace, m.w.trace)
            && BoundTo(ConfiguredAs(env, c.deviceId), m.g.bindings)
  {
    hide Maintain, Configured, Sound, AllAre, Posts, BoundTo;
    InvParts(env, s);
    MaintainIsSound(env, s);
    SameKeys(env, s.g, Maintain(env, s).0.g);
    SettingOf(env, Maintain(env, s).0.g, c.deviceId);
  }

  /** Everything that a sent command can come to, in literals. */
  ghost predicate ComesTo(g: G2, c: Command, result: Result<CommandResult, Error>, x: Exchange) {
    if Delivered(x) && Maps(x.json.value, "success", Bool(true)) then
      result == Success(CommandResult(c.requestId, Accepted)) && AllAre(g, Online)
    else if Overwhelms(x) then result == Failure(Uncaught) && AllAre(g, Online)
    else if Answered(x) && x.status == 400 then
      result == Success(CommandResult(c.requestId, Rejected("G2 refused command"))) && AllAre(g, Online)
    else if Answered(x) && (x.status == 401 || x.status == 403) then
      && result == Success(CommandResult(c.requestId, Rejected("G2 refused command")))
      && AllAre(g, Offline) && g.forceRenew
    else if !Submitted(x) then
      result == Success(CommandResult(c.requestId, Rejected("G2 command was not submitted"))) && AllAre(g, Offline)
    else result == Success(CommandResult(c.requestId, Indeterminate)) && AllAre(g, Offline)
  }

  /** A sent command is accepted if and only if the exchange delivered an object whose "success" member is true itself.
      Any other object that is delivered, an empty one or a 1 in place of true included, makes the outcome indeterminate
      and takes every device offline. */
  lemma SentCommandComesTo(env: Env, s: Sys, c: Command)
    requires Inv(env, s) && !Quiet(s.w.trace, SetDesired(env, s, c).0.w.trace)
    ensures var (r, result) := SetDesired(env, s, c);
            ComesTo(r.g, c, result, LastExchange(env, r.w.trace))
  {
    hide Maintain, Submit, Inv, Quiet, ComesTo, CommandSent, MarksExchange, MarksFailure;
    SetDesiredIsSound(env, s, c);
    MaintainedForCommand(env, s, c);
    var m := Maintain(env, s).0;
    SubmitComesTo(env, m, m.g.bindings[c.deviceId], c, c.desired.b);
  }

  lemma SubmitComesTo(env: Env, s: Sys, endpoint: G2Endpoint, c: Command, on: bool)
    requires Inv(env, s) && AllAre(s.g, Online) && c.deviceId in s.g.bindings && !s.g.closed
    ensures var (r, result) := Submit(env, s, endpoint, c, on);
            ComesTo(r.g, c, result, LastExchange(env, r.w.trace))
  {
    hide SetOnOff, Inv, AllAre, MarkOne, Overwhelms, Answered, Submitted, Maps, MarkAll;
    var (sent, e) := SetOnOff(env.gateway, s.w.trace, endpoint, on, s.g.session.accessToken);
    var x := env.gateway(sent);
    SetOnOffIsExact(env.gateway, s.w.trace, endpoint, on, s.g.session.accessToken);
    SubmitMarks(env, s, endpoint, c, on);
    var s1 := s.(w := s.w.(trace := sent));
    RequestKeepsInv(env, s, Switch(endpoint, on, s.g.session.accessToken));
    InvParts(env, s1);
    if e.Some? {
      FailureIsSound(env, s1, e.value);
    }
  }

  lemma CommandIsNotQuiet(earlier: seq<Event>, middle: seq<Event>, r: Request)
    requires Quiet(earlier, middle) && r.Switch?
    ensures Posts(middle + [Sent(r)]) == Posts(earlier) + [r]
    ensures earlier <= middle + [Sent(r)] && !Quiet(earlier, middle + [Sent(r)])
  {
    var later := middle + [Sent(r)];
    assert later[..|later| - 1] == middle;
    assert |Posts(later)| == |Posts(earlier)| + 1;
  }

  lemma SameKeys(env: Env, g: G2, h: G2)
    requires Configured(env, g) && Configured(env, h)
    ensures g.bindings.Keys == h.bindings.Keys
  {
    assert forall id :: id in g.bindings <==> id in h.bindings;
  }

  /** The setting of a configured device. */
  ghost function ConfiguredAs(env: Env, id: DeviceId): Setting
  {
    if exists i :: 0 <= i < |env.settings| && env.settings[i].deviceId == id then
      var i :| 0 <= i < |env.settings| && env.settings[i].deviceId == id;
      env.settings[i]
    else Setting(id, "", "", "")
  }

  lemma SettingOf(env: Env, g: G2, id: DeviceId)
    requires Configured(env, g) && id in g.bindings
    ensures ConfiguredAs(env, id) in env.settings && ConfiguredAs(env, id).deviceId == id
    ensures BoundTo(ConfiguredAs(env, id), g.bindings)
  {
  }

  /** After a command was sent, every device is online or every device is offline, and which of them the exchange
      decides. */
  lemma CommandFailureTakesDevicesOffline(env: Env, s: Sys, c: Command)
    requires Inv(env, s) && !Quiet(s.w.trace, SetDesired(env, s, c).0.w.trace)
    ensures var r := SetDesired(env, s, c).0;
            var x := LastExchange(env, r.w.trace);
            if LeavesOnline(x) then AllAre(r.g, Online) else AllAre(r.g, Offline)
  {
    hide SetDesired, Maintain, Posts, LeavesOnline, Inv;
    SetDesiredIsSound(env, s, c);
  }

  predicate Due(env: Env, s: Sys) {
    !s.g.closed && env.clock(s.w.ticks) >= s.g.nextRefreshAt
  }

  /** The state in which a due refresh begins its maintenance. */
  function Begun(env: Env, s: Sys): Sys {
    s.(w := Tick(s.w), g := s.g.(nextRefreshAt := env.clock(s.w.ticks) + INVENTORY_FRESHNESS))
  }


  lemma BegunKeepsInv(env: Env, s: Sys)
    requires Inv(env, s)
    ensures Inv(env, Begun(env, s))
  {
  }

  /** `refresh` keeps the invariant, sends no command and lets no RescueError escape. Before it is due it does
      nothing; a due one takes every device online if its maintenance succeeds, leaves availability as it was if an
      exception escapes, and otherwise takes every device offline. */
  lemma RefreshIsSound(env: Env, s: Sys)
    requires Inv(env, s)
    ensures var (r, escaped) := Refresh(env, s);
            && Inv(env, r) && Quiet(s.w.trace, r.w.trace)
            && r.g.closed == s.g.closed && r.g.devices == s.g.devices
            && (s.g.closed ==> r == s)
            && (escaped.Some? ==> escaped == Some(Uncaught))
            && (if !Due(env, s) then r.g == s.g && r.w.trace == s.w.trace && escaped.None?
                else match Maintain(env, Begun(env, s)).1
                     case None => AllAre(r.g, Online) && escaped.None?
                     case Some(e) => MarksFailure(s.g, r.g, e) && (escaped.None? <==> e != Uncaught))
  {
    hide Maintain, AfterFailure, Posts, Sound, Configured, AllAre;
    if Due(env, s) {
      BegunKeepsInv(env, s);
      MaintainIsSound(env, Begun(env, s));
      var (m, e) := Maintain(env, Begun(env, s));
      EscapeIsSound(env, Begun(env, s));
      if e.Some? {
        FailureIsSound(env, m, e.value);
      }
    }
  }

  lemma CloseIsSound(env: Env, s: Sys)
    requires Inv(env, s)
    ensures var r := Close(env, s);
            Inv(env, r) && r.g.closed && AllAre(r.g, Offline) && r.w.trace == s.w.trace && r.g.devices == s.g.devices
  {
    hide MarkAll, Sound, AssertedDevices, BindsConfiguration;
    if !s.g.closed {
      MarkAllIsUniform(env, s.(g := s.g.(closed := true)), Offline);
    }
  }

  /** `open` starts every device online with a durable session and sends no command, whether it succeeds or not. */
  lemma OpenIsSound(env: Env, w: World)
    requires PersistedFirst(w.trace)
    ensures var (w', g) := Open(env, w);
            && PersistedFirst(w'.trace) && Quiet(w.trace, w'.trace)
            && (g.Success? ==>
                  && Inv(env, Sys(g.value, w')) && AllAre(g.value, Online) && !g.value.closed && !g.value.forceRenew
                  && g.value.nextRefreshAt == env.clock(w.ticks) + INVENTORY_FRESHNESS)
  {
    hide Posts, Endpoints, Bind, AssertedDevices, OpenSession, PersistedFirst;
    var now := env.clock(w.ticks);
    OpenSessionIsSound(env, Tick(w), now);
    var (w1, session) := OpenSession(env, Tick(w), now);
    if session.Success? {
      SweepIsSound(env, w1.trace, session.value);
      var (sent, listed) := Endpoints(env.gateway, w1.trace, session.value.accessToken);
      QuietIsTransitive(w.trace, w1.trace, sent);
      if listed.Success? && Snapshot(env.settings, env.profiles, listed.value).Some? {
        FreshIsConfigured(env, session.value, listed.value, now);
      }
    }
  }

  lemma OpenSessionIsSound(env: Env, w: World, now: Instant)
    requires PersistedFirst(w.trace)
    ensures var (r, s) := OpenSession(env, w, now);
            PersistedFirst(r.trace) && Quiet(w.trace, r.trace) && (s.Success? ==> Sound(r.trace, s.value))
  {
    hide Posts, Stored, OpenRotate, PersistedFirst, Held;
    var (loaded, session) := Load(env.fs, w.store, w.trace);
    if session.Success? {
      LoadIsSound(w.trace, session.value);
      OpenRotateIsSound(env, w.(trace := loaded), session.value, now);
      QuietIsTransitive(w.trace, loaded, OpenSession(env, w, now).0.trace);
    }
  }

  lemma LoadIsSound(trace: seq<Event>, s: LocalSession)
    requires PersistedFirst(trace)
    ensures Sound(trace + [Loaded(s)], s) && Quiet(trace, trace + [Loaded(s)])
  {
    Append(trace, Loaded(s));
  }

  lemma OpenRotateIsSound(env: Env, w: World, s: LocalSession, now: Instant)
    requires Sound(w.trace, s)
    ensures var (r, next) := OpenRotate(env, w, s, now);
            PersistedFirst(r.trace) && Quiet(w.trace, r.trace) && (next.Success? ==> Sound(r.trace, next.value))
  {
    hide Posts, Renew, Save, PersistedFirst, Held;
    RenewSendsOnce(env.gateway, w.trace, s, now);
    SendKeepsSound(w.trace, s, Renewal(s.accessToken, s.refreshToken));
    var (sent, renewed) := Renew(env.gateway, w.trace, s, now);
    if renewed.Success? {
      CommitKeepsSound(sent, s, renewed.value);
      SaveReturnsCommitted(env.fs, w.store, sent, renewed.value);
      QuietIsTransitive(w.trace, sent, sent + [Committed(renewed.value)]);
    }
  }

  lemma SameIds(settings: seq<Setting>, devices: seq<RuntimeDevice>, bindings: map<DeviceId, G2Endpoint>, id: DeviceId)
    requires BindsConfiguration(settings, bindings) && |devices| == |settings|
    requires forall i | 0 <= i < |settings| :: devices[i].deviceId == settings[i].deviceId
    ensures id in bindings <==> exists d :: d in devices && d.deviceId == id
  {
    if id in bindings {
      var i :| 0 <= i < |settings| && settings[i].deviceId == id;
      assert devices[i] in devices;
    }
    if d :| d in devices && d.deviceId == id {
      var i :| 0 <= i < |devices| && devices[i] == d;
      assert settings[i].deviceId == id;
    }
  }

  lemma FreshIsConfigured(env: Env, session: LocalSession, endpoints: seq<G2Endpoint>, now: Instant)
    requires Snapshot(env.settings, env.profiles, endpoints).Some?
    ensures var g := Fresh(session, Snapshot(env.settings, env.profiles, endpoints).value, now);
            Configured(env, g) && AllAre(g, Online)
  {
    hide Bind, AssertedDevices, BindsConfiguration;
    BindIsFaithful(env.settings, env.profiles, endpoints);
    AssertedIds(env.settings, env.profiles);
    var found := Snapshot(env.settings, env.profiles, endpoints).value;
    var g := Fresh(session, found, now);
    forall id ensures id in g.availability <==> id in g.bindings {
      SameIds(env.settings, found.devices, found.bindings, id);
    }
    assert g.availability.Keys == g.bindings.Keys;
  }
}
