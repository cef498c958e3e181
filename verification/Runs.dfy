/** Whole runs of the gateway backend: its invariant, command freshness, the refresh rate and recovery. */
module Runs {
  import opened Model
  import opened Backend
  import opened Safety
  import opened Outcomes

  datatype Op = DoRefresh | DoSet(command: Command) | DoClose

  function Apply(env: Env, s: Sys, op: Op): Sys {
    match op
    case DoRefresh => Refresh(env, s).0
    case DoSet(c) => SetDesired(env, s, c).0
    case DoClose => Close(env, s)
  }

  function Run(env: Env, s: Sys, ops: seq<Op>): Sys {
    if ops == [] then s else Apply(env, Run(env, s, ops[..|ops| - 1]), ops[|ops| - 1])
  }

  lemma ApplyIsSound(env: Env, s: Sys, op: Op)
    requires Inv(env, s)
    ensures var r := Apply(env, s, op);
            && Inv(env, r) && r.g.devices == s.g.devices && s.w.trace <= r.w.trace
            && (s.g.closed ==> r.g.closed && r.w.trace == s.w.trace)
  {
    hide Refresh, Close, Maintain, Submit, AfterFailure, Inv, Posts;
    match op
    case DoRefresh => RefreshIsSound(env, s);
    case DoSet(c) => SetDesiredIsSound(env, s, c);
    case DoClose => CloseIsSound(env, s);
  }

  /** Every state reachable from a successful `open` satisfies the invariant, and its device list is the one
      that was opened with. */
  lemma {:induction false} ReachableStatesAreSound(env: Env, w: World, ops: seq<Op>)
    requires PersistedFirst(w.trace) && Open(env, w).1.Success?
    ensures var (world, g) := Open(env, w);
            var r := Run(env, Sys(g.value, world), ops);
            Inv(env, r) && r.g.devices == g.value.devices
  {
    hide Open, Apply, Inv, PersistedFirst;
    OpenIsSound(env, w);
    if ops != [] {
      ReachableStatesAreSound(env, w, ops[..|ops| - 1]);
      var (world, g) := Open(env, w);
      ApplyIsSound(env, Run(env, Sys(g.value, world), ops[..|ops| - 1]), ops[|ops| - 1]);
    }
  }

  /** Once closed, the backend stays closed with every device offline and makes no further request. */
  lemma {:induction false} ClosedIsAbsorbing(env: Env, s: Sys, ops: seq<Op>)
    requires Inv(env, s) && s.g.closed
    ensures var r := Run(env, s, ops);
            Inv(env, r) && r.g.closed && AllAre(r.g, Offline) && r.w.trace == s.w.trace
  {
    hide Apply, Configured, Sound, Uniform, AllAre;
    if ops != [] {
      ClosedIsAbsorbing(env, s, ops[..|ops| - 1]);
      ApplyIsSound(env, Run(env, s, ops[..|ops| - 1]), ops[|ops| - 1]);
    }
  }

  /** A command is sent only in a fresh state: no renewal pending, every device online, the inventory younger
      than 60 seconds at the maintenance reading, and the credential sent is that of the current session, which
      either has more than five minutes left or was renewed and saved within this very call. */
  lemma CommandIsFresh(env: Env, s: Sys, c: Command)
    requires Inv(env, s) && !Quiet(s.w.trace, SetDesired(env, s, c).0.w.trace)
    ensures var r := SetDesired(env, s, c).0;
            var m := Maintain(env, s).0;
            var now := env.clock(s.w.ticks);
            && |r.w.trace| == |m.w.trace| + 1 && m.w.trace <= r.w.trace
            && r.w.trace[|m.w.trace|].Sent? && r.w.trace[|m.w.trace|].request.Switch?
            && r.w.trace[|m.w.trace|].request.accessToken == m.g.session.accessToken
            && r.w.trace[|m.w.trace|].request.endpoint.deviceId == c.deviceId
            && r.w.trace[|m.w.trace|].request.endpoint.componentId == ConfiguredAs(env, c.deviceId).componentId
            && c.desired == BoolValue(r.w.trace[|m.w.trace|].request.on)
            && !m.g.forceRenew && AllAre(m.g, Online)
            && now - m.g.inventoryAt < INVENTORY_FRESHNESS
            && (m.g.session.expiresAt > now + SESSION_REFRESH_MARGIN || RenewedSince(s.w.trace, m.w.trace, m.g.session))
  {
    hide Maintain, SetDesired, Posts, Judge, Configured, Sound, Uniform, RenewedSince;
    SetDesiredIsSound(env, s, c);
    MaintainIsSound(env, s) by { InvParts(env, s); }
    BoundToConfigured(env, s, c);
  }

  lemma BoundToConfigured(env: Env, s: Sys, c: Command)
    requires Inv(env, s) && c.deviceId in s.g.bindings
    requires BoundTo(ConfiguredAs(env, c.deviceId), Maintain(env, s).0.g.bindings)
    ensures Maintain(env, s).0.g.bindings[c.deviceId].deviceId == c.deviceId
    ensures Maintain(env, s).0.g.bindings[c.deviceId].componentId == ConfiguredAs(env, c.deviceId).componentId
  {
    hide Maintain, AssertedDevices, Sound;
    SettingOf(env, s.g, c.deviceId);
  }

  // ---- rate of unprompted maintenance ----

  /** A refresh that gets as far as maintenance. */
  predicate Attempts(env: Env, s: Sys, op: Op) {
    op.DoRefresh? && !s.g.closed && env.clock(s.w.ticks) >= s.g.nextRefreshAt
  }

  /** The clock readings at which the refreshes of a run attempted maintenance. */
  function AttemptReadings(env: Env, s: Sys, ops: seq<Op>): seq<int> {
    if ops == [] then []
    else
      var before := Run(env, s, ops[..|ops| - 1]);
      AttemptReadings(env, s, ops[..|ops| - 1])
      + if Attempts(env, before, ops[|ops| - 1]) then [env.clock(before.w.ticks) as int] else []
  }

  /** The readings are at least a minute apart, and the k-th is at least k minutes past the first due time. */
  predicate Spaced(first: int, readings: seq<int>) {
    && (forall k | 0 <= k < |readings| :: readings[k] >= first + k * INVENTORY_FRESHNESS)
    && (forall k | 0 < k < |readings| :: readings[k] >= readings[k - 1] + INVENTORY_FRESHNESS)
  }

  function NextDue(first: int, readings: seq<int>): int {
    if readings == [] then first else readings[|readings| - 1] + INVENTORY_FRESHNESS
  }

  lemma NextRefreshStep(env: Env, s: Sys, op: Op)
    requires Inv(env, s)
    ensures Apply(env, s, op).g.nextRefreshAt
         == if Attempts(env, s, op) then env.clock(s.w.ticks) + INVENTORY_FRESHNESS else s.g.nextRefreshAt
  {
    hide Maintain, Submit, MarkAll, AssertedDevices, BindsConfiguration, Sound, Posts;
    match op
    case DoSet(c) => SetDesiredIsSound(env, s, c);
    case DoClose =>
      if !s.g.closed {
        MarkAllIsUniform(env, s.(g := s.g.(closed := true)), Offline);
      }
    case DoRefresh =>
      if Attempts(env, s, op) {
        var now := env.clock(s.w.ticks);
        var s0 := s.(w := Tick(s.w), g := s.g.(nextRefreshAt := now + INVENTORY_FRESHNESS));
        MaintainIsSound(env, s0);
        var (m, e) := Maintain(env, s0);
        if e.Some? {
          FailureIsSound(env, m, e.value);
        }
      }
  }

  /** For any clock, monotone or not: attempts made by `refresh` are at least a minute of readings apart, and
      the k-th one happens at a reading of at least the first due time plus k minutes. Commands do not move
      this schedule. */
  lemma {:induction false} RefreshRateIsBounded(env: Env, s: Sys, ops: seq<Op>)
    requires Inv(env, s)
    ensures var readings := AttemptReadings(env, s, ops);
            && Spaced(s.g.nextRefreshAt, readings)
            && Run(env, s, ops).g.nextRefreshAt == NextDue(s.g.nextRefreshAt, readings)
            && Inv(env, Run(env, s, ops))
  {
    hide Apply, Inv, Spaced;
    if ops == [] {
      NothingSpaced(s.g.nextRefreshAt);
    } else {
      var front, last := ops[..|ops| - 1], ops[|ops| - 1];
      RefreshRateIsBounded(env, s, front);
      var before := Run(env, s, front);
      ApplyIsSound(env, before, last);
      NextRefreshStep(env, before, last);
      var earlier := AttemptReadings(env, s, front);
      if Attempts(env, before, last) {
        SpacedMore(s.g.nextRefreshAt, earlier, env.clock(before.w.ticks));
      } else {
        assert AttemptReadings(env, s, ops) == earlier;
      }
    }
  }

  lemma NothingSpaced(first: int)
    ensures Spaced(first, [])
  {
  }

  lemma SpacedMore(first: int, readings: seq<int>, next: int)
    requires Spaced(first, readings) && next >= NextDue(first, readings)
    ensures Spaced(first, readings + [next])
  {
  }

  /** From `open` on: the k-th unprompted maintenance, counting from zero, is due no earlier than k + 1 minutes
      after discovery. */
  lemma RefreshRateFromOpen(env: Env, w: World, ops: seq<Op>)
    requires PersistedFirst(w.trace) && Open(env, w).1.Success?
    ensures var (world, g) := Open(env, w);
            var readings := AttemptReadings(env, Sys(g.value, world), ops);
            forall k | 0 <= k < |readings| :: readings[k] >= env.clock(w.ticks) + (k + 1) * INVENTORY_FRESHNESS
  {
    hide Open, Inv, AttemptReadings;
    OpenIsSound(env, w);
    var (world, g) := Open(env, w);
    RefreshRateIsBounded(env, Sys(g.value, world), ops);
  }
}
