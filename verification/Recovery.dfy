/** Recovery without commands: against a healthy gateway, due refreshes bring every device back online. */
module Recovery {
  import opened Wrappers
  import opened Values
  import opened Calendar
  import opened Session
  import opened Transport
  import opened Inventory
  import opened Client
  import opened Store
  import opened Model
  import opened Backend
  import opened Safety
  import opened Binding
  import opened Outcomes
  import opened Runs
  import opened Rate

  // ---- stale tokens ----

  /** The access token in a renewal reply. */
  function GrantedToken(reply: Result<Value, Error>): Option<string>
    requires reply.Success? ==> reply.value.Obj?
  {
    if reply.Failure? then None
    else
      match Get(reply.value, "access_token")
      case Some(Str(token)) => Some(token)
      case _ => None
  }

  /** A renewal request that never left, or that was answered with a refusal: it cannot have replaced a token. */
  predicate Ineffective(x: Exchange) {
    !Submitted(x) || (Answered(x) && !(200 <= x.status < 300))
  }

  /** The last renewal that may have had an effect did not hand this token out, so it may have replaced it. A token of
      the provisioned file is not superseded until then. */
  predicate Superseded(gateway: Gateway, trace: seq<Event>, token: string) {
    if trace == [] then false
    else if EffectiveRenewal(gateway, trace) then GrantedToken(Outcome(gateway(trace))) != Some(token)
    else Superseded(gateway, trace[..|trace| - 1], token)
  }

  predicate EffectiveRenewal(gateway: Gateway, trace: seq<Event>)
    requires trace != []
  {
    var last := trace[|trace| - 1];
    last.Sent? && last.request.Renewal? && !Ineffective(gateway(trace))
  }

  lemma SupersededUnlessRenewed(gateway: Gateway, trace: seq<Event>, e: Event, token: string)
    requires !(e.Sent? && e.request.Renewal?)
    ensures Superseded(gateway, trace + [e], token) == Superseded(gateway, trace, token)
  {
    assert (trace + [e])[..|trace|] == trace;
  }

  lemma {:induction false} AskingSupersedesNothing(gateway: Gateway, trace: seq<Event>, asked: Token, n: nat,
                                                   token: string)
    requires n <= MAX_INVENTORY_PAGES
    ensures Superseded(gateway, Asked(trace, asked, n), token) == Superseded(gateway, trace, token)
    ensures trace <= Asked(trace, asked, n)
  {
    if n > 0 {
      AskingSupersedesNothing(gateway, trace, asked, n - 1, token);
      SupersededUnlessRenewed(gateway, Asked(trace, asked, n - 1), Sent(Inventory(n, asked)), token);
    }
  }

  // ---- a healthy gateway and file system ----

  predicate Works(plan: SavePlan) {
    && plan.parentValid && plan.fileValid && plan.tempCreated && plan.modeSet && plan.wrote
    && plan.stillValid && plan.replaced && plan.directorySynced
  }

  /** From this history on, every renewal is granted, with a session that the store can hold. */
  ghost predicate GrantsRenewals(env: Env, from: seq<Event>) {
    forall before: seq<Event>, access: Token, refresh: Token, tick: nat | from <= before ::
      Grants(Outcome(env.gateway(before + [Sent(Renewal(access, refresh))])), env.clock(tick))
  }

  ghost predicate Grants(reply: Result<Value, Error>, now: Instant)
    requires reply.Success? ==> reply.value.Obj?
  {
    reply.Success?
    && exists s: LocalSession ::
         GrantedBy(reply.value, now, s.accessToken, s.refreshToken, s.expiresAt) && EncodedSize(s) <= MAX_SESSION_BYTES
  }

  lemma GrantIsParsed(reply: Result<Value, Error>, now: Instant)
    requires (reply.Success? ==> reply.value.Obj?) && Grants(reply, now)
    ensures reply.Success? && ParseRefreshed(reply.value, now).Some?
    ensures EncodedSize(ParseRefreshed(reply.value, now).value) <= MAX_SESSION_BYTES
  {
    hide GrantedBy, ParseRefreshed, EncodedSize;
    RenewalIsExact(reply.value, now);
  }

  /** From this history on, inventory reads are answered with these pages, or refused with 401 or 403 if the token is
      superseded. */
  ghost predicate ListsPages(env: Env, from: seq<Event>, pages: Listing) {
    forall before: seq<Event>, page: Page, token: Token | from <= before ::
      Lists(Outcome(env.gateway(before + [Sent(Inventory(page, token))])), pages(page),
          Superseded(env.gateway, before, token))
  }

  ghost predicate Lists(reply: Result<Value, Error>, entries: Option<seq<Entry>>, superseded: bool)
    requires reply.Success? ==> reply.value.Obj?
  {
    if reply.Success? then
      entries.Some? ==>
        exists items :: Maps(reply.value, "data", List(items)) && ListsEntries(items, entries.value)
    else superseded && IsRefusal(reply.error)
  }

  /** The credential was refused. */
  predicate IsRefusal(e: Error) {
    e == Response(Some(401)) || e == Response(Some(403))
  }

  lemma ListedPageIsRead(gateway: Gateway, trace: seq<Event>, token: Token, page: Page, entries: seq<Entry>,
                         superseded: bool)
    requires Lists(Outcome(gateway(Asked(trace, token, page))), Some(entries), superseded)
    ensures var reply := Outcome(gateway(Asked(trace, token, page)));
            PageEntries(gateway, trace, token, page) == if reply.Success? then Some(entries) else None
  {
    hide Outcome, Asked, Maps, ListsEntries;
    var x := gateway(Asked(trace, token, page));
    OutcomeIsSound(x);
    PageIsListedExactly(gateway, trace, token, page, entries);
    if Outcome(x).Success? {
      DeliveredIsObject(x);
    }
  }

  /** From now on the gateway and the file system work, and the configured bindings are still listed. */
  ghost predicate Healthy(env: Env, w: World, pages: Listing, k: nat, entries: seq<Entry>) {
    && GrantsRenewals(env, w.trace)
    && ListsPages(env, w.trace, pages)
    && EndsAt(pages, k, entries)
    && Bindable(env.settings, env.profiles, Flatten(entries))
    && (forall n | n >= w.store.saves :: Works(env.fs.plans(n)))
    && !TooLarge(w.store.disk.file)
  }

  lemma HealthyLater(env: Env, w: World, later: World, pages: Listing, k: nat, entries: seq<Entry>)
    requires Healthy(env, w, pages, k, entries)
    requires w.trace <= later.trace && w.store.saves <= later.store.saves && !TooLarge(later.store.disk.file)
    ensures Healthy(env, later, pages, k, entries)
  {
    hide Outcome, Superseded, Grants, Lists, EndsAt, Bindable;
  }

  lemma PageIsListed(env: Env, from: seq<Event>, pages: Listing, trace: seq<Event>, token: Token, page: Page)
    requires ListsPages(env, from, pages) && from <= trace
    ensures Lists(Outcome(env.gateway(Asked(trace, token, page))), pages(page), Superseded(env.gateway, trace, token))
  {
    hide Outcome, Superseded, Lists;
    AskingSupersedesNothing(env.gateway, trace, token, page - 1, token);
    assert Asked(trace, token, page) == Asked(trace, token, page - 1) + [Sent(Inventory(page, token))];
  }

  lemma EndingSoFar(pages: Listing, page: Page, before: seq<Entry>, k: nat, entries: seq<Entry>)
    requires EndsAt(pages, k, entries) && UpTo(pages, page - 1) == Some(before)
    requires forall n: Page | n < page :: IsFull(pages(n))
    ensures pages(page).Some? && Distinct(before + pages(page).value)
    ensures UpTo(pages, page) == Some(before + pages(page).value)
    ensures if IsFull(pages(page)) then page < MAX_INVENTORY_PAGES else entries == before + pages(page).value
  {
    EndingKeepsPrefix(pages, page, k, entries);
  }

  /** A healthy inventory read delivers the listing, or is refused for a token that is superseded. */
  lemma {:induction false} HealthySweep(env: Env, from: seq<Event>, pages: Listing, k: nat, entries: seq<Entry>,
                                        trace: seq<Event>, token: Token, page: Page, before: seq<Entry>)
    requires ListsPages(env, from, pages) && EndsAt(pages, k, entries) && from <= trace
    requires UpTo(pages, page - 1) == Some(before) && Distinct(before)
    requires forall n: Page | n < page :: IsFull(pages(n))
    ensures var (sent, r) := Sweep(env.gateway, Asked(trace, token, page - 1), token, page, Summary(before));
            && (r.Success? ==> r.value == Flatten(entries))
            && (r.Failure? ==> IsRefusal(r.error) && Superseded(env.gateway, trace, token))
    decreases MAX_INVENTORY_PAGES - page
  {
    hide Sweep, Outcome, PageEntries, Maps, ListsEntries, Summary, Distinct, Flatten, ListsPages, UpTo, Asked;
    hide Superseded, EndsAt;
    SweepStep(env.gateway, trace, token, page, before);
    PageIsListed(env, from, pages, trace, token, page);
    EndingSoFar(pages, page, before, k, entries);
    ListedPageIsRead(env.gateway, trace, token, page, pages(page).value, Superseded(env.gateway, trace, token));
    if Outcome(env.gateway(Asked(trace, token, page))).Success? && IsFull(pages(page)) {
      HealthySweep(env, from, pages, k, entries, trace, token, page + 1, before + pages(page).value);
    }
  }

  lemma HealthyInventory(env: Env, w: World, pages: Listing, k: nat, entries: seq<Entry>, trace: seq<Event>,
                         token: Token)
    requires Healthy(env, w, pages, k, entries) && w.trace <= trace
    ensures var r := Endpoints(env.gateway, trace, token).1;
            && (r.Success? ==> r.value == Flatten(entries))
            && (r.Failure? ==> IsRefusal(r.error) && Superseded(env.gateway, trace, token))
  {
    hide Sweep, Flatten, Superseded;
    NothingScanned();
    HealthySweep(env, w.trace, pages, k, entries, trace, token, 1, []);
  }

  // ---- one maintenance step ----

  /** The backend holds a token that is not superseded. */
  predicate Current(env: Env, s: Sys) {
    !Superseded(env.gateway, s.w.trace, s.g.session.accessToken)
  }

  /** A granted renewal whose session was saved leaves a token that is not superseded. */
  lemma RotationIsCurrent(env: Env, s: Sys, now: Instant)
    ensures Rotate(env, s, now).1.None? ==> Current(env, Rotate(env, s, now).0)
  {
    hide ParseRefreshed, Encode, Outcome, Superseded, RunSave;
    var request := Renewal(s.g.session.accessToken, s.g.session.refreshToken);
    SendAlwaysSends(env.gateway, s.w.trace, request);
    var sent := s.w.trace + [Sent(request)];
    var renewed := Renew(env.gateway, s.w.trace, s.g.session, now).1;
    if renewed.Success? {
      var reply := Outcome(env.gateway(sent));
      GrantSupersedes(env.gateway, s.w.trace, request, now);
      SaveReturnsCommitted(env.fs, s.w.store, sent, renewed.value);
      SupersededUnlessRenewed(env.gateway, sent, Committed(renewed.value), renewed.value.accessToken);
    }
  }

  lemma GrantSupersedes(gateway: Gateway, trace: seq<Event>, request: Request, now: Instant)
    requires request.Renewal?
    ensures var reply := Outcome(gateway(trace + [Sent(request)]));
            reply.Success? && ParseRefreshed(reply.value, now).Some? ==>
              !Superseded(gateway, trace + [Sent(request)], ParseRefreshed(reply.value, now).value.accessToken)
  {
    OutcomeIsSound(gateway(trace + [Sent(request)]));
  }

  /** A healthy rotation succeeds and leaves room for the next one. */
  lemma HealthyRotation(env: Env, s: Sys, tick: nat, from: seq<Event>)
    requires GrantsRenewals(env, from) && from <= s.w.trace && !TooLarge(s.w.store.disk.file)
    requires Works(env.fs.plans(s.w.store.saves))
    ensures var (r, e) := Rotate(env, s, env.clock(tick));
            e.None? && !TooLarge(r.w.store.disk.file) && r.w.store.saves == s.w.store.saves + 1
  {
    hide ParseRefreshed, EncodedSize, Encode, Outcome, Grants;
    var request := Renewal(s.g.session.accessToken, s.g.session.refreshToken);
    var now := env.clock(tick);
    SendAlwaysSends(env.gateway, s.w.trace, request);
    var sent := s.w.trace + [Sent(request)];
    var reply := Outcome(env.gateway(sent));
    assert Grants(reply, now);
    GrantIsParsed(reply, now);
    var next := ParseRefreshed(reply.value, now).value;
    assert Renew(env.gateway, s.w.trace, s.g.session, now) == (sent, Success(next));
    EncodedSizeIsExact(next);
    WorkingSave(env.fs, s.w.store, sent, next);
  }

  lemma WorkingSave(fs: FileSystem, store: StoreState, trace: seq<Event>, next: LocalSession)
    requires Works(fs.plans(store.saves)) && !TooLarge(store.disk.file)
    ensures var (after, saved, ok) := Save(fs, store, trace, next);
            && after.saves == store.saves + 1 && after.disk == store.disk.(file := Some(Encode(next)))
            && saved == trace + [Committed(next)] && ok
  {
    hide Encode;
  }

  lemma RediscoveryKeepsCurrent(env: Env, s: Sys, now: Instant)
    ensures Current(env, Rediscover(env, s, now).0) == Current(env, s)
    ensures Rediscover(env, s, now).0.w.store == s.w.store && s.w.trace <= Rediscover(env, s, now).0.w.trace
    ensures Rediscover(env, s, now).0.g.session == s.g.session
  {
    hide Endpoints, Snapshot, MarkIds, Superseded;
    var trace, token := s.w.trace, s.g.session.accessToken;
    InventoryIsExact(env.gateway, trace, token);
    var k :| 1 <= k <= MAX_INVENTORY_PAGES && Endpoints(env.gateway, trace, token).0 == Asked(trace, token, k);
    AskingSupersedesNothing(env.gateway, trace, token, k, token);
  }

  /** The step reads the inventory without renewing first, and that read fails. */
  predicate ReadFails(env: Env, s: Sys) {
    && !RotationDue(env, s) && (InventoryStale(env, s) || AnyOffline(s.g))
    && Endpoints(env.gateway, s.w.trace, s.g.session.accessToken).1.Failure?
  }

  /** Healthy maintenance fails exactly by a read that is refused without a renewal before it, of a superseded token. */
  lemma HealthyMaintenance(env: Env, pages: Listing, k: nat, entries: seq<Entry>, s: Sys)
    requires Healthy(env, s.w, pages, k, entries)
    ensures var (r, e) := Maintain(env, s);
            && Healthy(env, r.w, pages, k, entries)
            && (e.Some? <==> ReadFails(env, s))
            && (e.Some? ==> IsRefusal(e.value) && !Current(env, s))
            && (RotationDue(env, s) || Current(env, s) ==> Current(env, r))
  {
    hide Rotate, Endpoints, Superseded, MarkIds, GrantsRenewals, ListsPages, EndsAt, Flatten, Snapshot, Bindable;
    SnapshotIsExact(env.settings, env.profiles, Flatten(entries));
    var now := env.clock(s.w.ticks);
    var s0 := s.(w := Tick(s.w));
    var rotates := RotationDue(env, s);
    if rotates {
      HealthyRotation(env, s0, s.w.ticks, s.w.trace);
      RotationIsCurrent(env, s0, now);
      RotateExtends(env, s0, now);
    }
    var s1 := if rotates then Rotate(env, s0, now).0 else s0;
    HealthyInventory(env, s.w, pages, k, entries, s1.w.trace, s1.g.session.accessToken);
    RediscoveryKeepsCurrent(env, s1, now);
    HealthyLater(env, s.w, Maintain(env, s).0.w, pages, k, entries);
  }

  lemma RotateExtends(env: Env, s: Sys, now: Instant)
    ensures s.w.trace <= Rotate(env, s, now).0.w.trace
  {
    hide Renew, Save;
    RenewSendsOnce(env.gateway, s.w.trace, s.g.session, now);
    var (sent, renewed) := Renew(env.gateway, s.w.trace, s.g.session, now);
    if renewed.Success? {
      SaveReturnsCommitted(env.fs, s.w.store, sent, renewed.value);
    }
  }

  // ---- refreshes ----

  /** After a due refresh against a healthy gateway every device is offline if and only if its read was refused
      without a renewal before it, and online otherwise; the refused token was superseded, and a renewal is then
      pending. */
  lemma DueRefreshIsExact(env: Env, pages: Listing, k: nat, entries: seq<Entry>, s: Sys)
    requires Healthy(env, s.w, pages, k, entries) && Inv(env, s) && Due(env, s)
    ensures var (r, e) := Refresh(env, s);
            && e.None? && Healthy(env, r.w, pages, k, entries)
            && (AllAre(r.g, Offline) <==> ReadFails(env, Begun(env, s)))
            && (AllAre(r.g, Online) <==> !ReadFails(env, Begun(env, s)))
            && (ReadFails(env, Begun(env, s)) ==> r.g.forceRenew && !Current(env, s))
            && (RotationDue(env, Begun(env, s)) || Current(env, s) ==> AllAre(r.g, Online) && Current(env, r))
  {
    hide Maintain, Healthy, MarkAll, AssertedDevices, BindsConfiguration, Sound, Posts, Superseded, ReadFails;
    var s0 := Begun(env, s);
    HealthyLater(env, s.w, s0.w, pages, k, entries) by { InHealth(env, s.w, pages, k, entries); }
    HealthyMaintenance(env, pages, k, entries, s0);
    MaintainIsSound(env, s0);
    var (m, e) := Maintain(env, s0);
    if e.Some? {
      FailureIsSound(env, m, e.value);
      MarkAllIsUniform(env, m.(g := m.g.(forceRenew := m.g.forceRenew || IsAuthRefusal(e.value))), Offline);
      HealthyLater(env, m.w, Refresh(env, s).0.w, pages, k, entries) by { InHealth(env, m.w, pages, k, entries); }
    }
    RenewalReadsOnly(env, s0);
    SomeDevice(env, Refresh(env, s).0.g);
  }

  lemma RenewalReadsOnly(env: Env, s: Sys)
    ensures RotationDue(env, s) ==> !ReadFails(env, s)
  {
  }

  lemma InHealth(env: Env, w: World, pages: Listing, k: nat, entries: seq<Entry>)
    requires Healthy(env, w, pages, k, entries)
    ensures !TooLarge(w.store.disk.file)
  {
  }

  lemma SomeDevice(env: Env, g: G2)
    requires Configured(env, g)
    ensures !(AllAre(g, Online) && AllAre(g, Offline))
  {
    assert env.settings[0].deviceId in g.bindings;
    assert env.settings[0].deviceId in g.availability;
  }

  /** From any open reachable state, for any clock, against a gateway that is healthy from then on and refuses only
      superseded tokens: two due refreshes bring every device online, at the latest with the second, and send no
      command. They are offline after the second exactly if the first left them online and the read of the second is
      refused without a renewal before it; and they are online after both if the token held is not superseded or a
      renewal is due. */
  lemma TwoRefreshesRecover(env: Env, pages: Listing, k: nat, entries: seq<Entry>, s: Sys)
    requires Healthy(env, s.w, pages, k, entries) && Inv(env, s)
    requires Due(env, s) && Due(env, Refresh(env, s).0)
    ensures var first := Refresh(env, s).0;
            var second := Refresh(env, first).0;
            && (AllAre(first.g, Online) || AllAre(second.g, Online))
            && (AllAre(second.g, Offline) <==> AllAre(first.g, Online) && ReadFails(env, Begun(env, first)))
            && (AllAre(second.g, Offline) ==> !Current(env, first))
            && (RotationDue(env, Begun(env, s)) || Current(env, s) ==>
                AllAre(first.g, Online) && AllAre(second.g, Online))
            && Posts(second.w.trace) == Posts(s.w.trace)
  {
    hide Refresh, Healthy, Configured, Sound, Posts, Current, RotationDue, InventoryStale, AnyOffline, Endpoints;
    DueRefreshIsExact(env, pages, k, entries, s);
    RefreshIsSound(env, s);
    var first := Refresh(env, s).0;
    DueRefreshIsExact(env, pages, k, entries, first);
    RefreshIsSound(env, first);
    RenewalPends(env, first);
    SomeDevice(env, first.g) by { InvParts(env, first); }
  }

  lemma RenewalPends(env: Env, s: Sys)
    ensures s.g.forceRenew ==> RotationDue(env, Begun(env, s)) && !ReadFails(env, Begun(env, s))
  {
  }

  // ---- from open, with a clock that never runs back ----

  ghost predicate Monotone(env: Env) {
    forall i: nat, j: nat | i <= j :: env.clock(i) <= env.clock(j)
  }

  /** The token held is not superseded, or it will be renewed before it is used again. */
  ghost predicate Refreshable(env: Env, s: Sys) {
    Current(env, s) || forall tick | tick >= s.w.ticks :: s.g.forceRenew || NeedsRenewal(s.g.session, env.clock(tick))
  }

  /** Whatever a maintenance step meets, a superseded token is due for renewal after it. */
  lemma MaintenanceKeepsRefreshable(env: Env, s: Sys)
    requires Monotone(env) && Refreshable(env, s)
    ensures Refreshable(env, Maintain(env, s).0)
  {
    hide Rotate, Rediscover, Superseded;
    var now := env.clock(s.w.ticks);
    var s0 := s.(w := Tick(s.w));
    RotationIsCurrent(env, s0, now);
    RotationKeepsFields(env, s0, now);
    var s1 := if RotationDue(env, s) then Rotate(env, s0, now).0 else s0;
    RediscoveryKeepsCurrent(env, s1, now);
  }

  lemma RotationKeepsFields(env: Env, s: Sys, now: Instant)
    ensures var (r, e) := Rotate(env, s, now);
            r.w.ticks == s.w.ticks && (e.Some? ==> r.g == s.g)
  {
    hide Renew, Save;
  }

  /** Reading the clock, marking devices and asking for a renewal do not undo it. */
  lemma StillRefreshable(env: Env, s: Sys, r: Sys)
    requires Refreshable(env, s) && r.w.trace == s.w.trace && r.g.session == s.g.session && r.w.ticks >= s.w.ticks
    requires s.g.forceRenew ==> r.g.forceRenew
    ensures Refreshable(env, r)
  {
  }

  lemma SubmitKeepsRefreshable(env: Env, s: Sys, endpoint: G2Endpoint, c: Command, on: bool)
    requires Refreshable(env, s)
    ensures Refreshable(env, Submit(env, s, endpoint, c, on).0)
  {
    hide Submit, Superseded;
    var r := Switch(endpoint, on, s.g.session.accessToken);
    SubmitFields(env, s, endpoint, c, on);
    SupersededUnlessRenewed(env.gateway, s.w.trace, Sent(r), s.g.session.accessToken);
    var s1 := s.(w := s.w.(trace := s.w.trace + [Sent(r)]));
    StillRefreshable(env, s1, Submit(env, s, endpoint, c, on).0);
  }

  lemma SubmitFields(env: Env, s: Sys, endpoint: G2Endpoint, c: Command, on: bool)
    ensures var r := Submit(env, s, endpoint, c, on).0;
            && r.w.trace == s.w.trace + [Sent(Switch(endpoint, on, s.g.session.accessToken))]
            && r.g.session == s.g.session && r.w.ticks >= s.w.ticks && (s.g.forceRenew ==> r.g.forceRenew)
  {
    hide SetOnOff, Judge, MarkIds;
    SetOnOffIsExact(env.gateway, s.w.trace, endpoint, on, s.g.session.accessToken);
  }

  lemma ApplyKeepsRefreshable(env: Env, s: Sys, op: Op)
    requires Monotone(env) && Refreshable(env, s)
    ensures Refreshable(env, Apply(env, s, op))
  {
    hide Maintain, Submit, MarkIds, Refreshable;
    match op
    case DoClose => StillRefreshable(env, s, Close(env, s));
    case DoRefresh =>
      StillRefreshable(env, s, Begun(env, s));
      StillRefreshable(env, s, s.(w := Tick(s.w)));
      MaintenanceKeepsRefreshable(env, Begun(env, s));
      var (m, e) := Maintain(env, Begun(env, s));
      if e.Some? {
        StillRefreshable(env, m, AfterFailure(env, m, e.value));
      }
    case DoSet(c) =>
      MaintenanceKeepsRefreshable(env, s);
      var (m, e) := Maintain(env, s);
      if e.Some? {
        StillRefreshable(env, m, AfterFailure(env, m, e.value));
      } else if Problem(s.g, c).None? && c.deviceId in m.g.bindings {
        SubmitKeepsRefreshable(env, m, m.g.bindings[c.deviceId], c, c.desired.b);
      } else {
        StillRefreshable(env, m, MarkAll(env, m, Offline));
      }
  }

  /** A backend opened without an earlier renewal in the history holds a token that is not superseded. */
  lemma OpenIsCurrent(env: Env, w: World)
    requires w.trace == [] && Open(env, w).1.Success?
    ensures Current(env, Sys(Open(env, w).1.value, Open(env, w).0))
  {
    hide Superseded, OpenSession, Endpoints, Snapshot;
    var now := env.clock(w.ticks);
    SessionIsCurrent(env, Tick(w), now);
    var (w1, current) := OpenSession(env, Tick(w), now);
    var token := current.value.accessToken;
    InventoryIsExact(env.gateway, w1.trace, token);
    var n :| 1 <= n <= MAX_INVENTORY_PAGES && Endpoints(env.gateway, w1.trace, token).0 == Asked(w1.trace, token, n);
    AskingSupersedesNothing(env.gateway, w1.trace, token, n, token);
  }

  lemma SessionIsCurrent(env: Env, w: World, now: Instant)
    requires w.trace == []
    ensures var (r, current) := OpenSession(env, w, now);
            current.Success? ==> !Superseded(env.gateway, r.trace, current.value.accessToken)
  {
    hide Superseded, Stored, OpenRotate;
    var (loaded, session) := Load(env.fs, w.store, w.trace);
    if session.Success? {
      var first := session.value;
      NothingSuperseded(env.gateway, first.accessToken);
      SupersededUnlessRenewed(env.gateway, [], Loaded(first), first.accessToken);
      RenewedIsCurrent(env, w.(trace := loaded), first, now);
    }
  }

  lemma RenewedIsCurrent(env: Env, w: World, s: LocalSession, now: Instant)
    ensures var (r, next) := OpenRotate(env, w, s, now);
            next.Success? ==> !Superseded(env.gateway, r.trace, next.value.accessToken)
  {
    hide ParseRefreshed, Outcome, Superseded, Save;
    var request := Renewal(s.accessToken, s.refreshToken);
    SendAlwaysSends(env.gateway, w.trace, request);
    GrantSupersedes(env.gateway, w.trace, request, now);
    var (sent, renewed) := Renew(env.gateway, w.trace, s, now);
    if renewed.Success? {
      SaveReturnsCommitted(env.fs, w.store, sent, renewed.value);
      SupersededUnlessRenewed(env.gateway, sent, Committed(renewed.value), renewed.value.accessToken);
    }
  }

  lemma NothingSuperseded(gateway: Gateway, token: string)
    ensures !Superseded(gateway, [], token)
  {
  }

  lemma {:induction false} RunKeepsRefreshable(env: Env, s: Sys, ops: seq<Op>)
    requires Monotone(env) && Refreshable(env, s)
    ensures Refreshable(env, Run(env, s, ops))
  {
    hide Apply, Refreshable, Monotone;
    if ops != [] {
      RunKeepsRefreshable(env, s, ops[..|ops| - 1]);
      ApplyKeepsRefreshable(env, Run(env, s, ops[..|ops| - 1]), ops[|ops| - 1]);
    }
  }

  /** From every state of every run since `open`, with a clock that never runs back, against a gateway that is healthy
      from then on: two due refreshes bring every device online and keep them online, already the first one does, and
      no command is sent. */
  lemma RefreshesRecoverFromOpen(env: Env, w: World, ops: seq<Op>, pages: Listing, k: nat, entries: seq<Entry>)
    requires w.trace == [] && Open(env, w).1.Success? && Monotone(env)
    requires Healthy(env, Opened(env, w, ops).w, pages, k, entries)
    requires Due(env, Opened(env, w, ops)) && Due(env, Refresh(env, Opened(env, w, ops)).0)
    ensures var s := Opened(env, w, ops);
            var first := Refresh(env, s).0;
            var second := Refresh(env, first).0;
            AllAre(first.g, Online) && AllAre(second.g, Online) && Posts(second.w.trace) == Posts(s.w.trace)
  {
    hide Open, Run, Refresh, Healthy, Monotone, Inv, Superseded, PersistedFirst, AllAre, Posts;
    var s := Opened(env, w, ops);
    OpenIsCurrent(env, w);
    RunKeepsRefreshable(env, Sys(Open(env, w).1.value, Open(env, w).0), ops);
    assert PersistedFirst(w.trace) by { NothingUsed(w.trace); }
    ReachableStatesAreSound(env, w, ops);
    TwoRefreshesRecover(env, pages, k, entries, s);
  }

  /** Right after `open`, for any clock: both due refreshes leave every device online. */
  lemma RefreshesKeepFreshOpenOnline(env: Env, w: World, pages: Listing, k: nat, entries: seq<Entry>)
    requires w.trace == [] && Open(env, w).1.Success?
    requires Healthy(env, Opened(env, w, []).w, pages, k, entries)
    requires Due(env, Opened(env, w, [])) && Due(env, Refresh(env, Opened(env, w, [])).0)
    ensures var s := Opened(env, w, []);
            var first := Refresh(env, s).0;
            Current(env, s) && AllAre(first.g, Online) && AllAre(Refresh(env, first).0.g, Online)
  {
    hide Open, Refresh, Healthy, Inv, Superseded, PersistedFirst, AllAre, Posts;
    assert PersistedFirst(w.trace) by { NothingUsed(w.trace); }
    OpenIsSound(env, w);
    OpenIsCurrent(env, w);
    TwoRefreshesRecover(env, pages, k, entries, Opened(env, w, []));
  }

  lemma NothingUsed(trace: seq<Event>)
    requires trace == []
    ensures PersistedFirst(trace)
  {
  }

  /** The state that a run reaches after `open`. */
  function Opened(env: Env, w: World, ops: seq<Op>): Sys
    requires Open(env, w).1.Success?
  {
    Run(env, Sys(Open(env, w).1.value, Open(env, w).0), ops)
  }
}
