/** Concrete worlds. One meets the hypotheses of the theorems about runs, so that none of them is about nothing; the
    others are runs from `open` on in which the code does not do what one would expect. */
module Example {
  import opened Wrappers
  import opened Identity
  import opened Values
  import opened Calendar
  import opened Session
  import JsonText
  import opened Transport
  import opened Inventory
  import opened Client
  import opened Store
  import opened Model
  import opened Backend
  import opened Safety
  import opened Binding
  import opened Outcomes
  import opened Runs
  import opened Rate
  import opened Recovery
  import opened Durable

  const DEVICE: DeviceId := "0000000000000000"
  const SWITCH := Profile("switch", "Maker", ["Model"], map[PRIMARY_ENDPOINT := [CapabilityProfile(OnOff, true)]])
  const LAMP := Setting(DEVICE, "Lamp", "switch", "c")

  const PROCESSOR := Obj([Name("name")], [Str("OnOff")])
  const COMPONENT := Obj([Name("id"), Name("processors")], [Str("c"), List([PROCESSOR])])
  const ITEM := Obj([Name("_id"), Name("hwId"), Name("components")], [Str("a"), Str(DEVICE), List([COMPONENT])])
  const LISTED := Obj([Name("data")], [List([ITEM])])
  const ENTRY: Entry := RawEntry("a", ["c"], Some(DEVICE))

  const GRANT := Obj([Name("access_token"), Name("refresh_token"), Name("expires_in")], [Str("b"), Str("c"), Int(3600)])
  const PROVISIONED := LocalSession("a", "b", 3600 * MICROS_PER_SECOND)

  /** An exchange that is answered in full with a status and a body. */
  function Answer(status: int, body: Decoded): Exchange {
    Exchange(Done, true, true, true, Done, true, Done, status, true, true, Done, 0, body)
  }

  function Served(v: Value): Exchange {
    Answer(200, Parsed(v))
  }

  const FAILING := Answer(500, Malformed)
  const REFUSED := Answer(401, Malformed)
  const BAD_REQUEST := Answer(400, Malformed)
  const DEEP := Answer(200, TooDeep)
  const EMPTY := Served(Obj([], []))
  const ONE := Served(Obj([Name("success")], [Int(1)]))
  const TRUE := Served(Obj([Name("success")], [Bool(true)]))

  /** Renewals are granted. Inventory reads are served, except that under the provisioned token only the first
      `served` are and then come `after`. Commands come to `switched`. */
  function Reply(served: nat, after: Exchange, switched: Exchange, trace: seq<Event>): Exchange {
    if trace == [] || !trace[|trace| - 1].Sent? then FAILING
    else
      match trace[|trace| - 1].request
      case Renewal(_, _) => Served(GRANT)
      case Switch(_, _, _) => switched
      case Inventory(_, token) =>
        if token != PROVISIONED.accessToken || Sweeps(trace) <= served then Served(LISTED) else after
  }

  /** A save that works, or one whose directory is not as it should be. */
  function Plan(works: bool): SavePlan {
    SavePlan(works, true, true, true, true, 0, true, true, true, true)
  }

  function Setup(served: nat, after: Exchange, switched: Exchange, clock: nat -> Instant, firstSave: bool): Env {
    Env(clock, trace => Reply(served, after, switched, trace), FileSystem(true, 1, n => Plan(firstSave || n > 0)),
        [LAMP], [SWITCH])
  }

  const WORLD := World(0, StoreState(0, Disk(Some(Encode(PROVISIONED)), []), []), [])

  /** Two minutes pass between one reading and the next. */
  function Walking(n: nat): Instant {
    (if n < 1_000_000 then n else 1_000_000) * 120 * MICROS_PER_SECOND
  }

  /** Two minutes pass after the first reading, and then none. */
  function Standing(n: nat): Instant {
    if n == 0 then 0 else 120 * MICROS_PER_SECOND
  }

  /** The clock jumps an hour ahead for its second reading and is set right again. */
  function Jumping(n: nat): Instant {
    if n == 0 then 0
    else if n == 1 then 3600 * MICROS_PER_SECOND
    else if n < 5 then 120 * MICROS_PER_SECOND
    else 240 * MICROS_PER_SECOND
  }

  const LATER: Instant := 120 * MICROS_PER_SECOND
  const TURN_ON := Command(0, DEVICE, PRIMARY_ENDPOINT, OnOff, BoolValue(true))

  function OnePage(n: Page): Option<seq<Entry>> {
    Some([ENTRY])
  }

  // ---- the replies are acceptable and read as meant ----

  lemma Leaf(v: Value, depth: nat)
    requires (v.Str? || v.Int?) && depth <= MAX_JSON_DEPTH
    ensures Acceptable(v, depth) && Nodes(v) == 1
  {
  }

  lemma SmallNodes(items: seq<Value>)
    requires |items| <= 3
    ensures NodesOf(items) == (if |items| > 0 then Nodes(items[0]) else 0)
            + (if |items| > 1 then Nodes(items[1]) else 0)
                              + (if |items| > 2 then Nodes(items[2]) else 0)
  {
    if |items| > 0 {
      SmallNodes(items[..|items| - 1]);
    }
  }

  lemma ContainerNodes(v: Value)
    requires v.IsContainer()
    ensures Nodes(v) == 1 + NodesOf(v.items)
  {
  }

  /** One level of a small document. */
  lemma Level(v: Value, depth: nat)
    requires v.IsContainer() && 1 <= |v.items| <= 3 && depth < MAX_JSON_DEPTH && (v.Obj? ==> NotText !in v.keys)
    requires forall i | 0 <= i < |v.items| :: Acceptable(v.items[i], depth + 1) && Nodes(v.items[i]) <= 100
    ensures Nodes(v) == 1 + Nodes(v.items[0]) + (if |v.items| > 1 then Nodes(v.items[1]) else 0)
                          + (if |v.items| > 2 then Nodes(v.items[2]) else 0)
    ensures Acceptable(v, depth)
  {
    hide Acceptable, Nodes, NodesOf;
    SmallNodes(v.items);
    ContainerNodes(v);
    AcceptableContainer(v, depth);
  }

  lemma GrantIsAcceptable()
    ensures Acceptable(GRANT, 0)
  {
    hide Acceptable, Nodes;
    Leaf(GRANT.items[0], 1);
    Leaf(GRANT.items[1], 1);
    Leaf(GRANT.items[2], 1);
    Level(GRANT, 0);
  }

  lemma ComponentIsAcceptable()
    ensures Acceptable(COMPONENT, 4) && Nodes(COMPONENT) == 5
  {
    hide Acceptable, Nodes;
    Leaf(PROCESSOR.items[0], 7);
    Level(PROCESSOR, 6);
    Level(List([PROCESSOR]), 5);
    Leaf(COMPONENT.items[0], 5);
    Level(COMPONENT, 4);
  }

  lemma ListedIsAcceptable()
    ensures Acceptable(LISTED, 0)
  {
    hide Acceptable, Nodes;
    ComponentIsAcceptable();
    Level(List([COMPONENT]), 3);
    Leaf(ITEM.items[0], 3);
    Leaf(ITEM.items[1], 3);
    Level(ITEM, 2);
    Level(List([ITEM]), 1);
    Level(LISTED, 0);
  }

  lemma RepliesAreAcceptable()
    ensures Acceptable(GRANT, 0) && Acceptable(LISTED, 0)
  {
    GrantIsAcceptable();
    ListedIsAcceptable();
  }

  lemma FirstOrRest(k: string, v: Value, keys: seq<Key>, items: seq<Value>, name: string)
    ensures GetFrom([Name(k)] + keys, [v] + items, name) == if k == name then Some(v) else GetFrom(keys, items, name)
  {
    assert ([Name(k)] + keys)[1..] == keys && ([v] + items)[1..] == items;
  }

  lemma TwoFields(a: string, b: string, x: Value, y: Value)
    requires a != b
    ensures Get(Obj([Name(a), Name(b)], [x, y]), a) == Some(x) && Get(Obj([Name(a), Name(b)], [x, y]), b) == Some(y)
  {
    assert [Name(a), Name(b)] == [Name(a)] + [Name(b)] && [x, y] == [x] + [y];
    assert [Name(b)] == [Name(b)] + [] && [y] == [y] + [];
    FirstOrRest(a, x, [Name(b)], [y], a);
    FirstOrRest(a, x, [Name(b)], [y], b);
    FirstOrRest(b, y, [], [], b);
  }

  lemma ThreeFields(a: string, b: string, c: string, x: Value, y: Value, z: Value)
    requires a != b && b != c && a != c
    ensures var v := Obj([Name(a), Name(b), Name(c)], [x, y, z]);
            Get(v, a) == Some(x) && Get(v, b) == Some(y) && Get(v, c) == Some(z)
  {
    hide GetFrom;
    var keys, items := [Name(a), Name(b), Name(c)], [x, y, z];
    assert keys == [Name(a)] + [Name(b), Name(c)] && items == [x] + [y, z];
    TwoFields(b, c, y, z);
    FirstOrRest(a, x, [Name(b), Name(c)], [y, z], a);
    FirstOrRest(a, x, [Name(b), Name(c)], [y, z], b);
    FirstOrRest(a, x, [Name(b), Name(c)], [y, z], c);
  }

  lemma ComponentReadsAsMeant()
    ensures ReadComponent(COMPONENT) == Some(Some("c"))
  {
    hide GetFrom;
    assert |"id"| != |"processors"|;
    TwoFields("id", "processors", Str("c"), List([PROCESSOR]));
    assert [PROCESSOR][..0] == [];
    assert ProcessorName(PROCESSOR) == Some("OnOff") by {
      FirstOrRest("name", Str("OnOff"), [], [], "name");
      assert [Name("name")] + [] == [Name("name")] && [Str("OnOff")] + [] == [Str("OnOff")];
    }
    assert ProcessorNames([PROCESSOR]) == Some([] + ["OnOff"]);
    assert "OnOff" in [] + ["OnOff"];
  }

  lemma ItemReadsAsMeant()
    ensures ReadEntry(ITEM) == Some(ENTRY)
  {
    hide ReadComponent, ParseDeviceId, GetFrom;
    assert |"_id"| == 3 && |"hwId"| == 4 && |"components"| == 10;
    ThreeFields("_id", "hwId", "components", Str("a"), Str(DEVICE), List([COMPONENT]));
    ComponentReadsAsMeant();
    assert [COMPONENT][..0] == [];
    var c: Segment := "c";
    assert OnOffIds([COMPONENT]) == Some([] + [c]);
    assert [] + [c] == [c];
    assert ReadComponents(Get(ITEM, "components")) == Some([c]);
    assert ReadLocalId(ITEM) == Some("a");
    CanonicalParses(DEVICE);
    assert ReadHardware(ITEM) == Some(DEVICE);
  }

  lemma PageReadsAsMeant()
    ensures DataItems(LISTED) == Some([ITEM]) && ReadAll([ITEM]) == Some([ENTRY])
  {
    hide ReadEntry;
    ItemReadsAsMeant();
    assert [ITEM][..0] == [];
    assert ReadAll([ITEM]) == Some([] + [ENTRY]);
    assert [] + [ENTRY] == [ENTRY];
  }

  lemma GrantParses(now: Instant)
    requires now + 3600 * MICROS_PER_SECOND < DAYS_IN_RANGE * MICROS_PER_DAY
    ensures ParseRefreshed(GRANT, now) == Some(LocalSession("b", "c", now + 3600 * MICROS_PER_SECOND))
  {
  }

  lemma LampMatches()
    ensures Matches(Flatten([ENTRY]), LAMP) == [G2Endpoint("a", DEVICE, "c")]
  {
    assert [ENTRY][..0] == [];
    var endpoint := G2Endpoint("a", DEVICE, "c");
    assert Flatten([ENTRY]) == [] + EndpointsOf(ENTRY) == [endpoint];
    assert [endpoint][..0] == [];
    assert Filter([endpoint], HasPairOf(LAMP)) == [] + [endpoint];
  }

  lemma SwitchIsFound()
    ensures FindProfile([SWITCH], "switch") == Some(SWITCH)
  {
    assert [SWITCH][..0] == [];
    assert Filter([SWITCH], HasName("switch")) == [] + [SWITCH];
  }

  lemma LampBinds()
    ensures Snapshot([LAMP], [SWITCH], Flatten([ENTRY])).Some?
  {
    hide FindProfile, Matches, Flatten;
    LampMatches();
    SwitchIsFound();
    assert [LAMP][..0] == [];
    assert Bind([], [SWITCH], Flatten([ENTRY])) == Some(Bound([], map[]));
  }

  lemma ListingEnds()
    ensures EndsAt(OnePage, 1, [ENTRY])
  {
    assert UpTo(OnePage, 0) == Some([]);
    assert [] + [ENTRY] == [ENTRY];
  }

  lemma SmallEncoding(s: LocalSession)
    requires |s.accessToken| == 1 && |s.refreshToken| == 1
    ensures EncodedSize(s) <= MAX_SESSION_BYTES && |Encode(s)| <= MAX_SESSION_BYTES
  {
    hide Encode;
    JsonText.QuoteSize(s.accessToken);
    JsonText.QuoteSize(s.refreshToken);
    EncodedSizeIsExact(s);
  }

  lemma RepliesArrive()
    ensures Outcome(Served(GRANT)) == Success(GRANT) && Outcome(Served(LISTED)) == Success(LISTED)
    ensures Delivered(Served(GRANT)) && Delivered(Served(LISTED))
    ensures Outcome(FAILING) == Failure(Response(Some(500))) && Outcome(REFUSED) == Failure(Response(Some(401)))
    ensures Outcome(DEEP) == Failure(Uncaught)
  {
    hide Acceptable;
    RepliesAreAcceptable();
  }

  lemma RenewalReply(served: nat, after: Exchange, switched: Exchange, clock: nat -> Instant, firstSave: bool,
                     before: seq<Event>, access: Token, refresh: Token)
    ensures Setup(served, after, switched, clock, firstSave).gateway(before + [Sent(Renewal(access, refresh))])
            == Served(GRANT)
  {
    hide Sweeps;
  }

  lemma SwitchReply(served: nat, after: Exchange, switched: Exchange, clock: nat -> Instant, firstSave: bool,
                    before: seq<Event>, endpoint: G2Endpoint, on: bool, token: Token)
    ensures Setup(served, after, switched, clock, firstSave).gateway(before + [Sent(Switch(endpoint, on, token))])
            == switched
  {
    hide Sweeps;
  }

  lemma PlanOf(served: nat, after: Exchange, switched: Exchange, clock: nat -> Instant, firstSave: bool, n: nat)
    ensures Setup(served, after, switched, clock, firstSave).fs.plans(n) == Plan(firstSave || n > 0)
  {
  }

  // ---- opening ----

  /** A read is over after one page if the gateway lists the lamp. */
  lemma OnePageIsRead(gateway: Gateway, trace: seq<Event>, token: Token)
    requires Outcome(gateway(trace + [Sent(Inventory(1, token))])) == Success(LISTED)
    ensures Endpoints(gateway, trace, token) == (trace + [Sent(Inventory(1, token))], Success(Flatten([ENTRY])))
  {
    hide Outcome, ReadAll, DataItems, Flatten, Summary, Distinct, Sweep, PageError;
    NothingScanned();
    PageReadsAsMeant();
    EntryIsDistinct();
    assert Asked(trace, token, 0) == trace && Asked(trace, token, 1) == trace + [Sent(Inventory(1, token))];
    assert [] + [ENTRY] == [ENTRY];
    assert ListingOf(gateway, trace, token)(1) == Some([ENTRY]);
    SweepStep(gateway, trace, token, 1, []);
  }

  lemma EntryIsDistinct()
    ensures Distinct([ENTRY])
  {
  }

  /** The read is served. */
  lemma ReadIsServed(served: nat, after: Exchange, switched: Exchange, clock: nat -> Instant, firstSave: bool,
                     trace: seq<Event>, token: Token)
    requires token != PROVISIONED.accessToken || Sweeps(trace) < served
    ensures Endpoints(Setup(served, after, switched, clock, firstSave).gateway, trace, token)
         == (trace + [Sent(Inventory(1, token))], Success(Flatten([ENTRY])))
  {
    hide Outcome, Endpoints, Sweeps;
    RepliesArrive();
    SweepsOfOneMore(trace, Sent(Inventory(1, token)));
    OnePageIsRead(Setup(served, after, switched, clock, firstSave).gateway, trace, token);
  }

  /** The read is not served any more. */
  lemma ReadIsNotServed(served: nat, after: Exchange, switched: Exchange, clock: nat -> Instant, firstSave: bool,
                        trace: seq<Event>)
    requires Sweeps(trace) >= served && Outcome(after).Failure?
    ensures var gateway := Setup(served, after, switched, clock, firstSave).gateway;
            && gateway(trace + [Sent(Inventory(1, PROVISIONED.accessToken))]) == after
            && Endpoints(gateway, trace, PROVISIONED.accessToken)
               == (trace + [Sent(Inventory(1, PROVISIONED.accessToken))], Failure(Outcome(after).error))
  {
    hide Outcome, Sweeps;
    var gateway := Setup(served, after, switched, clock, firstSave).gateway;
    var r := Inventory(1, PROVISIONED.accessToken);
    SweepsOfOneMore(trace, Sent(r));
    SendAlwaysSends(gateway, trace, r);
  }

  const OPENED := [Loaded(PROVISIONED), Sent(Inventory(1, PROVISIONED.accessToken))]

  function OpenedState(env: Env): Sys
    requires Open(env, WORLD).1.Success?
  {
    Sys(Open(env, WORLD).1.value, Open(env, WORLD).0)
  }

  /** In each of the worlds `open` succeeds and leaves the same state. */
  lemma OpenSucceeds(served: nat, after: Exchange, switched: Exchange, clock: nat -> Instant, firstSave: bool)
    requires served > 0 && clock(0) == 0
    ensures var env := Setup(served, after, switched, clock, firstSave);
            && Open(env, WORLD).1.Success? && Untouched(WORLD)
            && var s := OpenedState(env);
               && Inv(env, s) && AllAre(s.g, Online) && DEVICE in s.g.bindings && |s.g.devices| == 1
               && s.w == World(1, WORLD.store, OPENED) && s.g.session == PROVISIONED && s.g.inventoryAt == 0
               && s.g.nextRefreshAt == INVENTORY_FRESHNESS && !s.g.closed && !s.g.forceRenew
  {
    hide Flatten, Snapshot, Endpoints, Encode, Decode, Inv, AllAre;
    var env := Setup(served, after, switched, clock, firstSave);
    SmallEncoding(PROVISIONED);
    SessionRoundTrip(PROVISIONED, 1);
    LoadsWell(PROVISIONED);
    var loaded := [Loaded(PROVISIONED)];
    assert Load(env.fs, WORLD.store, []) == (loaded, Success(PROVISIONED)) by { assert [] + loaded == loaded; }
    assert OpenSession(env, Tick(WORLD), 0) == (Tick(WORLD).(trace := loaded), Success(PROVISIONED));
    SweepsOfOneMore([], Loaded(PROVISIONED));
    assert [] + loaded == loaded;
    ReadIsServed(served, after, switched, clock, firstSave, loaded, PROVISIONED.accessToken);
    assert loaded + [Sent(Inventory(1, PROVISIONED.accessToken))] == OPENED;
    LampBinds();
    assert PersistedFirst(WORLD.trace) by { NothingUsed(WORLD.trace); }
    OpenIsSound(env, WORLD);
    var s := OpenedState(env);
    LampIsBound(env, s);
  }

  lemma LoadsWell(s: LocalSession)
    ensures !JsonText.Load(Encode(s), 1).Crashed?
  {
    FieldsOfMembers(s);
    JsonText.LoadOfDump(Members(s), 1);
  }

  lemma LampIsBound(env: Env, s: Sys)
    requires Inv(env, s) && env.settings == [LAMP]
    ensures DEVICE in s.g.bindings && |s.g.devices| == 1
  {
    assert env.settings[0].deviceId == DEVICE;
    AssertedIds(env.settings, env.profiles);
  }

  // ---- the hypotheses of the theorems about runs and recovery ----

  /** A gateway that never refuses is healthy. */
  lemma ServingIsHealthy(clock: nat -> Instant, w: World)
    requires forall n :: clock(n) <= 1_000_000 * 120 * MICROS_PER_SECOND
    requires !TooLarge(w.store.disk.file)
    ensures Healthy(Setup(1, Served(LISTED), BAD_REQUEST, clock, true), w, OnePage, 1, [ENTRY])
  {
    hide Outcome, Maps, ListsEntries, Flatten, Snapshot, EndsAt, Encode, Superseded, Sweeps, GrantsRenewals, Bindable;
    RepliesArrive();
    PageListsTheLamp();
    ListingEnds();
    LampBinds();
    SnapshotIsExact([LAMP], [SWITCH], Flatten([ENTRY]));
    RenewalsAreGranted(1, Served(LISTED), BAD_REQUEST, clock, true, w.trace);
  }

  lemma PageListsTheLamp()
    ensures Maps(LISTED, "data", List([ITEM])) && ListsEntries([ITEM], [ENTRY])
  {
    hide Maps, ListsEntries, ReadAll;
    PageReadsAsMeant();
    PageIsReadExactly([ITEM], [ENTRY]);
    GetIsExact(LISTED, "data", List([ITEM]));
  }

  lemma RenewalsAreGranted(served: nat, after: Exchange, switched: Exchange, clock: nat -> Instant, firstSave: bool,
                           from: seq<Event>)
    requires forall n :: clock(n) <= 1_000_000 * 120 * MICROS_PER_SECOND
    ensures GrantsRenewals(Setup(served, after, switched, clock, firstSave), from)
  {
    hide Grants, Outcome;
    var env := Setup(served, after, switched, clock, firstSave);
    forall before: seq<Event>, access: Token, refresh: Token, tick: nat | from <= before
      ensures Grants(Outcome(env.gateway(before + [Sent(Renewal(access, refresh))])), env.clock(tick))
    {
      RenewalReply(served, after, switched, clock, firstSave, before, access, refresh);
      RepliesArrive();
      GrantIsGranted(env.clock(tick));
    }
  }

  lemma GrantIsGranted(now: Instant)
    requires now <= 1_000_000 * 120 * MICROS_PER_SECOND
    ensures Grants(Success(GRANT), now)
  {
    assert GRANT.Obj?;
    hide ParseRefreshed, EncodedSize, GrantedBy, GRANT;
    var s := LocalSession("b", "c", now + 3600 * MICROS_PER_SECOND);
    GrantParses(now);
    RenewalIsExact(GRANT, now);
    SmallEncoding(s);
    assert GrantedBy(GRANT, now, s.accessToken, s.refreshToken, s.expiresAt);
  }

  lemma RefreshTicks(env: Env, s: Sys)
    requires !s.g.closed
    ensures Refresh(env, s).0.w.ticks > s.w.ticks
  {
    hide Endpoints, Snapshot, Renew, Save, MarkIds;
  }

  /** All hypotheses of the theorems about runs and about recovery hold together. */
  lemma HypothesesCanBeMet()
    ensures exists env: Env, w: World, pages: Listing, k: nat, entries: seq<Entry> ::
              && Untouched(w) && PersistedFirst(w.trace) && Open(env, w).1.Success? && Monotone(env)
              && var s := Opened(env, w, []);
              && Healthy(env, s.w, pages, k, entries) && Due(env, s) && Due(env, Refresh(env, s).0)
  {
    hide Healthy, Refresh, Open, Encode, Inv, AllAre, Maintain, MarksFailure, LISTED, Reply;
    var env := Setup(1, Served(LISTED), BAD_REQUEST, Walking, true);
    OpenSucceeds(1, Served(LISTED), BAD_REQUEST, Walking, true);
    var s := Opened(env, WORLD, []);
    assert s == OpenedState(env);
    SmallEncoding(PROVISIONED);
    ServingIsHealthy(Walking, s.w);
    assert PersistedFirst(WORLD.trace) by { NothingUsed(WORLD.trace); }
    assert Due(env, s);
    NextRefreshStep(env, s, DoRefresh);
    RefreshTicks(env, s);
    RefreshIsSound(env, s);
    assert Due(env, Refresh(env, s).0);
    assert Monotone(env);
  }

  // ---- runs with a surprise ----

  /** From an opened state, any number of commands read the inventory that often within one clock reading. */
  lemma RateLimitFails(n: nat)
    ensures exists env: Env, w: World, c: Command, now: Instant ::
              && Untouched(w) && Open(env, w).1.Success?
              && var s := Opened(env, w, []);
              && Stuck(env, s, now) && Rate.Waiting(env, s, c, now)
              && Sweeps(Run(env, s, Repeated(c, n)).w.trace) == Sweeps(s.w.trace) + n
  {
    hide Open, Sweeps, Inv, AllAre, Encode, Outcome, BindsConfiguration;
    var env := Setup(1, FAILING, BAD_REQUEST, Standing, true);
    OpenSucceeds(1, FAILING, BAD_REQUEST, Standing, true);
    var s := Opened(env, WORLD, []);
    assert s == OpenedState(env);
    OpenedSweeps();
    assert Outcome(FAILING) == Failure(Response(Some(500))) by { OutcomeIsSound(FAILING); }
    forall later | s.w.trace <= later
      ensures Outcome(env.gateway(later + [Sent(Inventory(1, s.g.session.accessToken))]))
              == Failure(Response(Some(500)))
    {
      SweepsGrow(OPENED, later);
      ReadIsNotServed(1, FAILING, BAD_REQUEST, Standing, true, later);
    }
    assert Stuck(env, s, LATER);
    assert Rate.Waiting(env, s, TURN_ON, LATER);
    CommandsAreNotRateLimited(env, s, TURN_ON, LATER, n);
  }

  lemma OpenedSweeps()
    ensures Sweeps(OPENED) == 1
  {
    var loaded := [Loaded(PROVISIONED)];
    assert [] + loaded == loaded && loaded + [Sent(Inventory(1, PROVISIONED.accessToken))] == OPENED;
    SweepsOfOneMore([], Loaded(PROVISIONED));
    SweepsOfOneMore(loaded, Sent(Inventory(1, PROVISIONED.accessToken)));
  }

  lemma {:induction false} SweepsGrow(trace: seq<Event>, later: seq<Event>)
    requires trace <= later
    ensures Sweeps(trace) <= Sweeps(later)
  {
    if |trace| < |later| {
      SweepsGrow(trace, later[..|later| - 1]);
    } else {
      assert trace == later;
    }
  }

  /** Shortly after an inventory read, maintenance only reads the clock. */
  lemma NothingToMaintain(env: Env, s: Sys)
    requires AllAre(s.g, Online) && !RotationDue(env, s) && !InventoryStale(env, s)
    ensures Maintain(env, s) == (s.(w := Tick(s.w)), None)
  {
    hide Rotate, Rediscover;
    AllOnlineMeansNoneOffline(s.g);
  }

  lemma NoTimePassed(env: Env, s: Sys)
    requires env.clock(s.w.ticks) == 0 && s.g.inventoryAt == 0 && s.g.session == PROVISIONED && !s.g.forceRenew
    ensures !RotationDue(env, s) && !InventoryStale(env, s)
  {
  }

  /** A command right after `open`, with no time passed: it is sent at once and meets the given exchange. */
  lemma CommandMeets(switched: Exchange)
    ensures var env := Setup(1, FAILING, switched, _ => 0, true);
            && Open(env, WORLD).1.Success? && Untouched(WORLD)
            && var s := OpenedState(env);
               var (r, result) := SetDesired(env, s, TURN_ON);
               && Inv(env, s) && |r.w.trace| == |s.w.trace| + 1 && LastExchange(env, r.w.trace) == switched
               && Concludes(result, TURN_ON, switched)
               && (if LeavesOnline(switched) then AllAre(r.g, Online) else AllAre(r.g, Offline))
  {
    hide Open, Inv, Submit, Judge, AllAre, LeavesOnline, Reply, Maintain, Overwhelms, LISTED, GRANT, Untouched, Encode;
    hide RotationDue, InventoryStale;
    var env := Setup(1, FAILING, switched, _ => 0, true);
    OpenSucceeds(1, FAILING, switched, _ => 0, true);
    var s := OpenedState(env);
    var s1 := s.(w := Tick(s.w));
    assert !RotationDue(env, s) && !InventoryStale(env, s) by { NoTimePassed(env, s); }
    NothingToMaintain(env, s);
    TickKeepsInv(env, s);
    var endpoint := s.g.bindings[DEVICE];
    SubmitIsSound(env, s1, endpoint, TURN_ON, true);
    SwitchReply(1, FAILING, switched, _ => 0, true, s.w.trace, endpoint, true, s.g.session.accessToken);
    assert SetDesired(env, s, TURN_ON) == Submit(env, s1, endpoint, TURN_ON, true);
  }

  lemma AllOnlineMeansNoneOffline(g: G2)
    requires AllAre(g, Online)
    ensures !AnyOffline(g)
  {
  }

  lemma TickKeepsInv(env: Env, s: Sys)
    requires Inv(env, s)
    ensures Inv(env, s.(w := Tick(s.w)))
  {
  }

  lemma ReplyVerdicts()
    ensures !Overwhelms(BAD_REQUEST) && Judge(BAD_REQUEST) == NoEffect && LeavesOnline(BAD_REQUEST)
    ensures Overwhelms(DEEP) && LeavesOnline(DEEP) && Submitted(DEEP)
  {
  }

  /** A command that the gateway answers with 400 leaves every device online. */
  lemma RefusalLeavesOnline()
    ensures exists env: Env, w: World, c: Command ::
              && Untouched(w) && Open(env, w).1.Success?
              && var (r, result) := SetDesired(env, Opened(env, w, []), c);
              && result.Success? && result.value.status.Rejected? && AllAre(r.g, Online)
              && Answered(LastExchange(env, r.w.trace)) && LastExchange(env, r.w.trace).status == 400
  {
    hide Open, SetDesired, AllAre, Reply, Judge, LeavesOnline, Overwhelms, Untouched, Inv, LISTED, GRANT;
    ReplyVerdicts();
    CommandMeets(BAD_REQUEST);
    var env := Setup(1, FAILING, BAD_REQUEST, _ => 0, true);
    assert Opened(env, WORLD, []) == OpenedState(env);
  }

  /** A command whose acknowledgement overwhelms the JSON reader was sent, returns no result and leaves every device
      online. */
  lemma DeepReplyEscapesCommand()
    ensures exists env: Env, w: World, c: Command ::
              && Untouched(w) && Open(env, w).1.Success?
              && var s := Opened(env, w, []);
                 var (r, result) := SetDesired(env, s, c);
              && result == Failure(Uncaught) && AllAre(r.g, Online) && |r.w.trace| == |s.w.trace| + 1
              && Submitted(LastExchange(env, r.w.trace))
  {
    hide Open, SetDesired, AllAre, Reply, Judge, LeavesOnline, Overwhelms, Untouched, Inv, LISTED, GRANT;
    ReplyVerdicts();
    CommandMeets(DEEP);
    var env := Setup(1, FAILING, DEEP, _ => 0, true);
    assert Opened(env, WORLD, []) == OpenedState(env);
  }

  lemma OnlyTrueAcknowledges()
    ensures Judge(EMPTY) == Ambiguous && Judge(ONE) == Ambiguous && Judge(TRUE) == Acknowledgement
    ensures !Overwhelms(EMPTY) && !Overwhelms(ONE) && !Overwhelms(TRUE)
    ensures !LeavesOnline(EMPTY) && !LeavesOnline(ONE) && LeavesOnline(TRUE)
  {
    SmallAnswer([], []);
    SmallAnswer([Name("success")], [Int(1)]);
    SmallAnswer([Name("success")], [Bool(true)]);
    GetIsExact(TRUE.json.value, "success", Bool(true));
  }

  lemma SmallAnswer(keys: seq<Key>, items: seq<Value>)
    requires NotText !in keys && (items == [] || (|items| == 1 && (items[0].Int? || items[0].Bool?)))
    ensures Delivered(Served(Obj(keys, items)))
  {
    AcceptableContainer(Obj(keys, items), 0);
    SmallNodes(items);
  }

  /** A command that is answered with an empty object, or with a 1 in place of true, is not accepted: its outcome is
      indeterminate and every device goes offline. Answered with true it is accepted. */
  lemma EmptyAnswerIsIndeterminate(reply: Exchange)
    requires reply == EMPTY || reply == ONE || reply == TRUE
    ensures exists env: Env, w: World, c: Command ::
              && Untouched(w) && Open(env, w).1.Success?
              && var (r, result) := SetDesired(env, Opened(env, w, []), c);
              && LastExchange(env, r.w.trace) == reply && result.Success?
              && (if reply == TRUE then result.value.status == Accepted && AllAre(r.g, Online)
                  else result.value.status == Indeterminate && AllAre(r.g, Offline))
  {
    hide Open, SetDesired, AllAre, Reply, Judge, LeavesOnline, Overwhelms, Untouched, Inv, LISTED, GRANT;
    hide EMPTY, ONE, TRUE;
    OnlyTrueAcknowledges();
    CommandMeets(reply);
    var env := Setup(1, FAILING, reply, _ => 0, true);
    assert Opened(env, WORLD, []) == OpenedState(env);
  }

  /** A due refresh whose read, without a renewal before it, raises an exception that is no RescueError. */
  lemma EscapingRefresh(env: Env, s: Sys)
    requires Due(env, s) && ReadFails(env, Begun(env, s))
    requires Endpoints(env.gateway, s.w.trace, s.g.session.accessToken).1 == Failure(Uncaught)
    ensures var (r, escaped) := Refresh(env, s);
            escaped == Some(Uncaught) && r.g.availability == s.g.availability
  {
    hide Endpoints, Snapshot, MarkIds;
  }

  /** Two minutes after `open` a refresh is due, which reads the inventory without renewing. */
  lemma DueAfterOpen(env: Env, s: Sys)
    requires env.clock == Standing && s.w.ticks == 1 && !s.g.closed && !s.g.forceRenew
    requires s.g.session == PROVISIONED && s.g.inventoryAt == 0 && s.g.nextRefreshAt == INVENTORY_FRESHNESS
    ensures Due(env, s) && !RotationDue(env, Begun(env, s)) && InventoryStale(env, Begun(env, s))
  {
  }

  /** A due refresh whose inventory reply overwhelms the JSON reader raises and leaves every device online. */
  lemma DeepReplyEscapesRefresh()
    ensures exists env: Env, w: World ::
              && Untouched(w) && Open(env, w).1.Success?
              && var (r, escaped) := Refresh(env, Opened(env, w, []));
              escaped == Some(Uncaught) && AllAre(r.g, Online)
  {
    hide Open, AllAre, Endpoints, Sweeps, Refresh, Inv, Outcome, Reply, RotationDue, Due, InventoryStale, Untouched;
    hide LISTED, GRANT;
    var env := Setup(1, DEEP, BAD_REQUEST, Standing, true);
    OpenSucceeds(1, DEEP, BAD_REQUEST, Standing, true);
    var s := Opened(env, WORLD, []);
    assert s == OpenedState(env);
    OpenedSweeps();
    RepliesArrive();
    ReadIsNotServed(1, DEEP, BAD_REQUEST, Standing, true, OPENED);
    DueAfterOpen(env, s);
    EscapingRefresh(env, s);
    SameAvailability(s.g, Refresh(env, s).0.g);
  }

  lemma SameAvailability(g: G2, h: G2)
    requires h.availability == g.availability && AllAre(g, Online)
    ensures AllAre(h, Online)
  {
  }

  // ---- a second refresh that ends offline ----

  /** A due refresh that reads the inventory without renewing, and is served. */
  lemma ServedRefresh(env: Env, s: Sys, sent: seq<Event>)
    requires Due(env, s) && !RotationDue(env, Begun(env, s)) && (InventoryStale(env, Begun(env, s)) || AnyOffline(s.g))
    requires env.settings == [LAMP] && env.profiles == [SWITCH]
    requires Endpoints(env.gateway, s.w.trace, s.g.session.accessToken) == (sent, Success(Flatten([ENTRY])))
    ensures var r := Refresh(env, s).0;
            && r.w.trace == sent && r.w.ticks == s.w.ticks + 3 && r.g.session == s.g.session && r.g.closed == s.g.closed
            && r.g.forceRenew == s.g.forceRenew && r.g.inventoryAt == env.clock(s.w.ticks + 1)
            && r.g.nextRefreshAt == env.clock(s.w.ticks) + INVENTORY_FRESHNESS
  {
    hide Endpoints, Flatten, MarkIds, Matches, FindProfile;
    LampBinds();
    OneLamp();
  }

  lemma OneLamp()
    ensures Snapshot([LAMP], [SWITCH], Flatten([ENTRY])).Some?
    ensures |Snapshot([LAMP], [SWITCH], Flatten([ENTRY])).value.devices| == 1
  {
    hide Matches, FindProfile, Flatten;
    LampBinds();
    assert [LAMP][..0] == [];
    assert Bind([], [SWITCH], Flatten([ENTRY])) == Some(Bound([], map[]));
  }

  /** A renewal that is granted, and a save that fails before it replaces the file. */
  lemma UnsavedRotation(env: Env, s: Sys, c: Command, next: LocalSession, sent: seq<Event>)
    requires Inv(env, s) && RotationDue(env, s) && Problem(s.g, c).None?
    requires Renew(env.gateway, s.w.trace, s.g.session, env.clock(s.w.ticks)) == (sent, Success(next))
    requires !env.fs.plans(s.w.store.saves).parentValid && |s.g.devices| == 1
    ensures var r := SetDesired(env, s, c).0;
            && r.w.trace == sent && r.w.ticks == s.w.ticks + 2
            && r.w.store.saves == s.w.store.saves + 1 && r.w.store.disk == s.w.store.disk
            && r.g == s.g.(availability := r.g.availability) && AllAre(r.g, Offline)
  {
    hide Renew, Encode, MarkIds, Configured, Sound, Rediscover, Problem;
    var m := s.(w := World(s.w.ticks + 1, Save(env.fs, s.w.store, sent, next).0, sent));
    assert Maintain(env, s) == (m, Some(Validation));
    assert Configured(env, m.g) by { InvParts(env, s); }
    assert SetDesired(env, s, c).0 == MarkAll(env, m, Offline);
    MarkAllIsUniform(env, m, Offline);
  }

  const RENEWED := OPENED + [Sent(Renewal(PROVISIONED.accessToken, PROVISIONED.refreshToken))]

  /** A command at the reading that is an hour ahead renews, and the granted session cannot be saved. */
  lemma FailedRotation()
    ensures var env := Setup(2, REFUSED, BAD_REQUEST, Jumping, false);
            && Open(env, WORLD).1.Success? && Untouched(WORLD)
            && var s := OpenedState(env);
               var r := SetDesired(env, s, TURN_ON).0;
               && Inv(env, s) && r == Run(env, s, [DoSet(TURN_ON)])
               && r.w.trace == RENEWED && r.w.ticks == 3 && r.w.store.saves == 1 && r.w.store.disk == WORLD.store.disk
               && r.g == s.g.(availability := r.g.availability) && AllAre(r.g, Offline)
  {
    hide Open, Inv, Reply, Encode, AllAre, ParseRefreshed, SetDesired, Outcome, LISTED, GRANT, Run, Renew;
    var env := Setup(2, REFUSED, BAD_REQUEST, Jumping, false);
    OpenSucceeds(2, REFUSED, BAD_REQUEST, Jumping, false);
    var s := OpenedState(env);
    var now := Jumping(1);
    var next := GrantedRenewal(2, REFUSED, BAD_REQUEST, Jumping, false, OPENED, now);
    PlanOf(2, REFUSED, BAD_REQUEST, Jumping, false, 0);
    UnsavedRotation(env, s, TURN_ON, next, RENEWED);
    RunOnce(env, s, DoSet(TURN_ON));
  }

  lemma RunOnce(env: Env, s: Sys, op: Op)
    ensures Run(env, s, [op]) == Apply(env, s, op)
  {
    hide Apply;
    assert [op][..0] == [];
    assert Run(env, s, []) == s;
  }

  lemma GrantedRenewal(served: nat, after: Exchange, switched: Exchange, clock: nat -> Instant, firstSave: bool,
                       trace: seq<Event>, now: Instant) returns (next: LocalSession)
    requires now <= 1_000_000 * 120 * MICROS_PER_SECOND
    ensures var gateway := Setup(served, after, switched, clock, firstSave).gateway;
            Renew(gateway, trace, PROVISIONED, now)
            == (trace + [Sent(Renewal(PROVISIONED.accessToken, PROVISIONED.refreshToken))], Success(next))
  {
    hide Reply, ParseRefreshed, Outcome;
    var gateway := Setup(served, after, switched, clock, firstSave).gateway;
    RepliesArrive();
    RenewalReply(served, after, switched, clock, firstSave, trace, PROVISIONED.accessToken, PROVISIONED.refreshToken);
    GrantParses(now);
    SendAlwaysSends(gateway, trace, Renewal(PROVISIONED.accessToken, PROVISIONED.refreshToken));
    next := LocalSession("b", "c", now + 3600 * MICROS_PER_SECOND);
  }

  /** From then on the provisioned token is superseded. */
  lemma {:induction false} ProvisionedIsSuperseded(trace: seq<Event>)
    requires RENEWED <= trace
    ensures Superseded(Setup(2, REFUSED, BAD_REQUEST, Jumping, false).gateway, trace, PROVISIONED.accessToken)
  {
    hide Sweeps, Acceptable, Outcome;
    var gateway := Setup(2, REFUSED, BAD_REQUEST, Jumping, false).gateway;
    var last := trace[|trace| - 1];
    RepliesArrive();
    assert GrantedToken(Outcome(Served(GRANT))) == Some("b");
    if !(last.Sent? && last.request.Renewal?) {
      assert |trace| > |RENEWED| by { assert RENEWED[|RENEWED| - 1] == trace[|RENEWED| - 1]; }
      ProvisionedIsSuperseded(trace[..|trace| - 1]);
    }
  }

  lemma PagesAreListed(before: seq<Event>, page: Page, token: Token)
    requires RENEWED <= before
    ensures var gateway := Setup(2, REFUSED, BAD_REQUEST, Jumping, false).gateway;
            Lists(Outcome(gateway(before + [Sent(Inventory(page, token))])), OnePage(page),
                Superseded(gateway, before, token))
  {
    hide Sweeps, Outcome, Superseded, Maps, ListsEntries;
    RepliesArrive();
    PageListsTheLamp();
    ProvisionedIsSuperseded(before);
  }

  lemma RefusingIsHealthy(w: World)
    requires RENEWED <= w.trace && w.store.saves > 0 && !TooLarge(w.store.disk.file)
    ensures Healthy(Setup(2, REFUSED, BAD_REQUEST, Jumping, false), w, OnePage, 1, [ENTRY])
  {
    hide Reply, Flatten, Snapshot, EndsAt, Outcome, Superseded, Lists, GrantsRenewals, Bindable;
    ListingEnds();
    LampBinds();
    SnapshotIsExact([LAMP], [SWITCH], Flatten([ENTRY]));
    RenewalsAreGranted(2, REFUSED, BAD_REQUEST, Jumping, false, w.trace);
    var env := Setup(2, REFUSED, BAD_REQUEST, Jumping, false);
    forall n | n >= w.store.saves ensures Works(env.fs.plans(n)) {
      PlanOf(2, REFUSED, BAD_REQUEST, Jumping, false, n);
    }
    assert ListsPages(env, w.trace, OnePage) by {
      forall before: seq<Event>, page: Page, token: Token | w.trace <= before
        ensures Lists(Outcome(env.gateway(before + [Sent(Inventory(page, token))])), OnePage(page),
                Superseded(env.gateway, before, token))
      {
        PagesAreListed(before, page, token);
      }
    }
  }

  /** The clock is right again: a refresh is due, which reads the inventory without renewing. */
  lemma DueAfterJump(env: Env, s: Sys)
    requires env.clock == Jumping && s.w.ticks == 3 && !s.g.closed && !s.g.forceRenew
    requires s.g.session == PROVISIONED && s.g.nextRefreshAt == INVENTORY_FRESHNESS
    ensures Due(env, s) && !RotationDue(env, Begun(env, s))
  {
  }

  lemma DueAgain(env: Env, s: Sys)
    requires env.clock == Jumping && s.w.ticks == 6 && !s.g.closed && !s.g.forceRenew && s.g.session == PROVISIONED
    requires s.g.nextRefreshAt == Jumping(3) + INVENTORY_FRESHNESS && s.g.inventoryAt == Jumping(4)
    ensures Due(env, s) && !RotationDue(env, Begun(env, s)) && InventoryStale(env, Begun(env, s))
  {
  }

  /** Under a clock that once jumped ahead: a state of a run since `open` and a gateway, healthy from then on, that
      serves a superseded token once more, so that the first due refresh brings every device online and the second
      takes every device offline again. */
  lemma SecondRefreshCanEndOffline()
    ensures exists env: Env, w: World, ops: seq<Op>, pages: Listing, k: nat, entries: seq<Entry> ::
              && Untouched(w) && Open(env, w).1.Success?
              && var s := Opened(env, w, ops);
                 var first := Refresh(env, s).0;
              && Healthy(env, s.w, pages, k, entries) && Due(env, s) && Due(env, first)
              && AllAre(first.g, Online) && AllAre(Refresh(env, first).0.g, Offline)
  {
    hide Open, Refresh, SetDesired, Run, Healthy, Reply, Outcome, AllAre, Inv, Sweeps, Endpoints, Encode, Superseded;
    hide RotationDue, Due, InventoryStale, Untouched, LISTED, GRANT, AnyOffline, Flatten, Maintain, MarksFailure;
    var env := Setup(2, REFUSED, BAD_REQUEST, Jumping, false);
    OpenSucceeds(2, REFUSED, BAD_REQUEST, Jumping, false);
    FailedRotation();
    var ops := [DoSet(TURN_ON)];
    var s := Opened(env, WORLD, ops);
    SmallEncoding(PROVISIONED);
    RefusingIsHealthy(s.w);
    ApplyIsSound(env, OpenedState(env), DoSet(TURN_ON));
    OfflineMeansAnyOffline(env, s);
    DueAfterJump(env, s);
    JumpReads();
    var sent := RENEWED + [Sent(Inventory(1, PROVISIONED.accessToken))];
    ServedRefresh(env, s, sent);
    DueRefreshIsExact(env, OnePage, 1, [ENTRY], s);
    RefreshIsSound(env, s);
    var first := Refresh(env, s).0;
    DueAgain(env, first);
    assert ReadFails(env, Begun(env, first));
    DueRefreshIsExact(env, OnePage, 1, [ENTRY], first);
  }

  /** The second read under the provisioned token is served, the third is refused. */
  lemma JumpReads()
    ensures var gateway := Setup(2, REFUSED, BAD_REQUEST, Jumping, false).gateway;
            var sent := RENEWED + [Sent(Inventory(1, PROVISIONED.accessToken))];
            && Endpoints(gateway, RENEWED, PROVISIONED.accessToken) == (sent, Success(Flatten([ENTRY])))
            && Endpoints(gateway, sent, PROVISIONED.accessToken).1.Failure?
  {
    hide Reply, Outcome, Sweeps, Endpoints, Flatten;
    OpenedSweeps();
    SweepsOfOneMore(OPENED, Sent(Renewal(PROVISIONED.accessToken, PROVISIONED.refreshToken)));
    ReadIsServed(2, REFUSED, BAD_REQUEST, Jumping, false, RENEWED, PROVISIONED.accessToken);
    SweepsOfOneMore(RENEWED, Sent(Inventory(1, PROVISIONED.accessToken)));
    RepliesArrive();
    ReadIsNotServed(2, REFUSED, BAD_REQUEST, Jumping, false, RENEWED + [Sent(Inventory(1, PROVISIONED.accessToken))]);
  }

  lemma OfflineMeansAnyOffline(env: Env, s: Sys)
    requires Inv(env, s) && AllAre(s.g, Offline)
    ensures AnyOffline(s.g)
  {
    SomeDevice(env, s.g);
  }
}
