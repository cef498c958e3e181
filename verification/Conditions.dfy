/** When the operations of the gateway backend succeed, down to what the gateway delivered, what the session file
    holds and how a save fared. */
module Conditions {
  import opened Wrappers
  import opened Identity
  import opened Calendar
  import opened Session
  import JsonText
  import opened Transport
  import opened Inventory
  import opened Client
  import opened Store
  import opened Model
  import opened Backend
  import opened Safety
  import opened Outcomes
  import opened Binding

  // ---- renewal ----

  /** The exchange of the renewal request delivers a response that grants this session. */
  ghost predicate Renews(gateway: Gateway, trace: seq<Event>, s: LocalSession, now: Instant, next: LocalSession) {
    var x := gateway(trace + [Sent(Renewal(s.accessToken, s.refreshToken))]);
    Delivered(x) && GrantedBy(x.json.value, now, next.accessToken, next.refreshToken, next.expiresAt)
  }

  /** A renewal is one request with both tokens of the session; it returns the session that its response grants. */
  lemma RenewIsExact(gateway: Gateway, trace: seq<Event>, s: LocalSession, now: Instant)
    ensures var (sent, r) := Renew(gateway, trace, s, now);
            && sent == trace + [Sent(Renewal(s.accessToken, s.refreshToken))]
            && (forall next :: r == Success(next) <==> Renews(gateway, trace, s, now, next))
            && (r.Failure? && Outcome(gateway(sent)).Success? ==> r.error == Response(None))
            && (Outcome(gateway(sent)).Failure? ==> r == Failure(Outcome(gateway(sent)).error))
  {
    hide ParseRefreshed, GrantedBy, Outcome, Delivered;
    var x := gateway(trace + [Sent(Renewal(s.accessToken, s.refreshToken))]);
    SendAlwaysSends(gateway, trace, Renewal(s.accessToken, s.refreshToken));
    OutcomeIsSound(x);
    if Delivered(x) {
      DeliveredIsObject(x);
      RenewalIsExact(x.json.value, now);
    }
  }

  /** The save of the new session comes to its end. */
  predicate Keeps(env: Env, store: StoreState) {
    var plan := env.fs.plans(store.saves);
    && plan.parentValid && plan.fileValid && (store.disk.file.Some? ==> |store.disk.file.value| <= 32_768)
    && plan.tempCreated && plan.modeSet && plan.wrote && plan.stillValid && plan.replaced && plan.directorySynced
  }

  function AfterRenewal(trace: seq<Event>, s: LocalSession, next: LocalSession): seq<Event> {
    trace + [Sent(Renewal(s.accessToken, s.refreshToken))] + [Committed(next)]
  }

  lemma SaveIsExact(env: Env, store: StoreState, trace: seq<Event>, s: LocalSession)
    ensures Save(env.fs, store, trace, s).2 <==> Keeps(env, store)
    ensures Keeps(env, store) ==> Save(env.fs, store, trace, s).1 == trace + [Committed(s)]
  {
    hide RunSave;
    SaveReturnsExactly(store.disk, Encode(s), env.fs.plans(store.saves));
  }

  // ---- inventory ----

  /** The listing that the gateway gives under this token ends within the page limit, and the configuration can be bound
      to it. */
  ghost predicate Relists(env: Env, trace: seq<Event>, token: Token) {
    exists k, entries ::
      EndsAt(ListingOf(env.gateway, trace, token), k, entries) && Bindable(env.settings, env.profiles, Flatten(entries))
  }

  lemma RelistingIsExact(env: Env, trace: seq<Event>, token: Token)
    ensures var r := Endpoints(env.gateway, trace, token).1;
            r.Success? && Snapshot(env.settings, env.profiles, r.value).Some? <==> Relists(env, trace, token)
  {
    hide Endpoints, EndsAt, Flatten, Snapshot, Bindable;
    InventoryIsExact(env.gateway, trace, token);
    var r := Endpoints(env.gateway, trace, token).1;
    if r.Success? {
      SnapshotIsExact(env.settings, env.profiles, r.value);
      var k, entries :| EndsAt(ListingOf(env.gateway, trace, token), k, entries);
      assert r.value == Flatten(entries);
    }
  }

  // ---- maintenance ----

  ghost predicate IsFresh(s: Sys, now: Instant) {
    now - s.g.inventoryAt < 60_000_000 && forall id | id in s.g.availability :: s.g.availability[id].state == Online
  }

  /** Five minutes before expiry or after a refused credential, the session is renewed and saved; then the inventory,
      if it is a minute old or a device is not online, is listed and bound again. */
  ghost predicate Maintains(env: Env, s: Sys) {
    var now := env.clock(s.w.ticks);
    if s.g.forceRenew || s.g.session.expiresAt <= now + 300_000_000 then
      exists next ::
        && Renews(env.gateway, s.w.trace, s.g.session, now, next) && Keeps(env, s.w.store)
        && (IsFresh(s, now) || Relists(env, AfterRenewal(s.w.trace, s.g.session, next), next.accessToken))
    else IsFresh(s, now) || Relists(env, s.w.trace, s.g.session.accessToken)
  }

  lemma RotationIsExact(env: Env, s: Sys, now: Instant)
    ensures var (r, e) := Rotate(env, s, now);
            && (e.None? <==> Keeps(env, s.w.store)
                             && exists next :: Renews(env.gateway, s.w.trace, s.g.session, now, next))
            && (forall next | e.None? && Renews(env.gateway, s.w.trace, s.g.session, now, next) ::
                  r.g == s.g.(session := next, forceRenew := false)
                  && r.w.trace == AfterRenewal(s.w.trace, s.g.session, next))
  {
    hide Renew, Renews, Save, Keeps, Outcome;
    RenewIsExact(env.gateway, s.w.trace, s.g.session, now);
    var (sent, renewed) := Renew(env.gateway, s.w.trace, s.g.session, now);
    if renewed.Success? {
      SaveIsExact(env, s.w.store, sent, renewed.value);
    }
  }

  /** `_maintain` succeeds exactly then. */
  lemma MaintainSucceedsExactly(env: Env, s: Sys)
    ensures Maintain(env, s).1.None? <==> Maintains(env, s)
  {
    hide Rotate, Endpoints, Snapshot, MarkIds, Renews, Keeps, Relists;
    var now := env.clock(s.w.ticks);
    var s0 := s.(w := Tick(s.w));
    RotationIsExact(env, s0, now);
    var s1 := Rotate(env, s0, now).0;
    RelistingIsExact(env, s1.w.trace, s1.g.session.accessToken);
    RelistingIsExact(env, s.w.trace, s.g.session.accessToken);
  }

  // ---- commands ----

  /** `set_desired` sends a command exactly if the backend is open, the device configured, the command an explicit On
      or Off of OnOff at endpoint 1, and maintenance succeeds. */
  lemma CommandIsSentIff(env: Env, s: Sys, c: Command)
    requires Inv(env, s)
    ensures !Quiet(s.w.trace, SetDesired(env, s, c).0.w.trace) <==>
              && !s.g.closed && (exists i :: 0 <= i < |env.settings| && env.settings[i].deviceId == c.deviceId)
              && c.endpoint == 1 && c.capability == OnOff && c.desired.BoolValue?
              && Maintains(env, s)
  {
    hide SetDesired, Maintain, Maintains, Sound, AssertedDevices, CommandSent, MarksExchange, MarksFailure, Quiet;
    SetDesiredIsSound(env, s, c);
    MaintainSucceedsExactly(env, s);
  }

  // ---- opening ----

  /** The session file can be read and holds this session. */
  ghost predicate Stores(fs: FileSystem, disk: Disk, s: LocalSession) {
    && fs.readable && disk.file.Some? && |disk.file.value| <= 32_768
    && JsonText.Load(disk.file.value, fs.limit).Object?
    && var fields := JsonText.Load(disk.file.value, fs.limit).fields;
    && (forall f | f in fields :: f.name == "access_token" || f.name == "expires_at" || f.name == "refresh_token")
    && JsonText.Lookup(fields, "access_token") == Some(JsonText.TextItem(s.accessToken))
    && JsonText.Lookup(fields, "refresh_token") == Some(JsonText.TextItem(s.refreshToken))
    && JsonText.Lookup(fields, "expires_at") == Some(JsonText.TextItem(FormatExpiry(s.expiresAt)))
  }

  lemma LoadIsExact(fs: FileSystem, disk: Disk, s: LocalSession)
    ensures Stored(fs, disk) == Success(s) <==> Stores(fs, disk, s)
  {
    hide JsonText.Load, JsonText.Lookup, Decode, FormatExpiry;
    if disk.file.Some? {
      DecodeIsExact(disk.file.value, fs.limit, s);
    }
  }

  /** The file holds a session, which is renewed and saved first if it expires within five minutes, and the
      configuration can be bound to what the gateway then lists. */
  ghost predicate Opens(env: Env, w: World) {
    var now := env.clock(w.ticks);
    exists s: LocalSession ::
      && Stores(env.fs, w.store.disk, s)
      && var loaded := w.trace + [Loaded(s)];
      if s.expiresAt <= now + 300_000_000 then
        exists next ::
          && Renews(env.gateway, loaded, s, now, next) && Keeps(env, w.store)
          && Relists(env, AfterRenewal(loaded, s, next), next.accessToken)
      else Relists(env, loaded, s.accessToken)
  }

  lemma OpeningRotationIsExact(env: Env, w: World, s: LocalSession, now: Instant)
    ensures var (r, next) := OpenRotate(env, w, s, now);
            && (forall n :: next == Success(n) <==> Keeps(env, w.store) && Renews(env.gateway, w.trace, s, now, n))
            && (next.Success? ==> r.trace == AfterRenewal(w.trace, s, next.value))
  {
    hide Renew, Renews, Save, Keeps, Outcome;
    RenewIsExact(env.gateway, w.trace, s, now);
    var (sent, renewed) := Renew(env.gateway, w.trace, s, now);
    if renewed.Success? {
      SaveIsExact(env, w.store, sent, renewed.value);
    }
  }

  /** `open` succeeds exactly then. */
  lemma OpenSucceedsExactly(env: Env, w: World)
    ensures Open(env, w).1.Success? <==> Opens(env, w)
  {
    hide Stored, OpenRotate, Endpoints, Snapshot, Stores, Renews, Keeps, Relists;
    var now := env.clock(w.ticks);
    forall s ensures Stored(env.fs, w.store.disk) == Success(s) <==> Stores(env.fs, w.store.disk, s) {
      LoadIsExact(env.fs, w.store.disk, s);
    }
    if Stored(env.fs, w.store.disk).Success? {
      var s := Stored(env.fs, w.store.disk).value;
      var w0 := Tick(w).(trace := w.trace + [Loaded(s)]);
      OpeningRotationIsExact(env, w0, s, now);
      var (w1, current) := OpenSession(env, Tick(w), now);
      if current.Success? {
        RelistingIsExact(env, w1.trace, current.value.accessToken);
      }
    }
  }

  // ---- matches are never ambiguous ----

  /** On the endpoints of an inventory a configured device is listed once as soon as it is listed at all: binding fails
      on missing devices only. */
  lemma MatchIsNeverAmbiguous(env: Env, trace: seq<Event>, token: Token, c: Setting)
    requires Endpoints(env.gateway, trace, token).1.Success?
    ensures var endpoints := Endpoints(env.gateway, trace, token).1.value;
            (exists k: nat :: ListedOnce(c, endpoints, k))
            <==> exists p :: p in endpoints && p.deviceId == c.deviceId && p.componentId == c.componentId
  {
    hide Endpoints;
    var endpoints := Endpoints(env.gateway, trace, token).1.value;
    if k: nat :| ListedOnce(c, endpoints, k) {
      assert endpoints[k] in endpoints;
    }
    if p :| p in endpoints && p.deviceId == c.deviceId && p.componentId == c.componentId {
      var k :| 0 <= k < |endpoints| && endpoints[k] == p;
      forall j | 0 <= j < |endpoints|
        ensures endpoints[j].deviceId == c.deviceId && endpoints[j].componentId == c.componentId <==> j == k
      {
        if j < k {
          InventoryPairsAreUnique(env.gateway, trace, token, j, k);
        } else if k < j {
          InventoryPairsAreUnique(env.gateway, trace, token, k, j);
        }
      }
      assert ListedOnce(c, endpoints, k);
    }
  }
}
