/** Inventory pages and the strict client (backends/harmony_g2/client.py). */
module Inventory {
  import opened Wrappers
  import opened Text
  import opened Identity
  import opened Values
  import opened Session
  import opened Transport

  const PAGE_SIZE := 100

  // ---- one inventory entry ----

  /** The name of one processor; None is the client's response error. */
  function ProcessorName(v: Value): Option<string> {
    if !v.Obj? then None
    else
      match Get(v, "name")
      case Some(Str(name)) => if name == "" then None else Some(name)
      case _ => None
  }

  function ProcessorNames(items: seq<Value>): Option<seq<string>> {
    if items == [] then Some([])
    else
      match (ProcessorNames(items[..|items| - 1]), ProcessorName(items[|items| - 1]))
      case (Some(names), Some(name)) => Some(names + [name])
      case _ => None
  }

  function ReadProcessors(v: Option<Value>): Option<seq<string>> {
    if v.Some? && v.value.List? then ProcessorNames(v.value.items) else None
  }

  /** The component id of one component that has an OnOff processor, if it has one. */
  function ReadComponent(v: Value): Option<Option<Segment>> {
    if !v.Obj? then None
    else
      match ReadProcessors(Get(v, "processors"))
      case None => None
      case Some(names) =>
        if "OnOff" !in names then Some(None)
        else
          match Get(v, "id")
          case Some(Str(id)) => if IsSegment(id) then Some(Some(id)) else None
          case _ => None
  }

  function OnOffIds(items: seq<Value>): Option<seq<Segment>> {
    if items == [] then Some([])
    else
      match (OnOffIds(items[..|items| - 1]), ReadComponent(items[|items| - 1]))
      case (Some(ids), Some(Some(id))) => Some(ids + [id])
      case (Some(ids), Some(None)) => Some(ids)
      case _ => None
  }

  function ReadComponents(v: Option<Value>): Option<seq<Segment>> {
    if v.Some? && v.value.List? then OnOffIds(v.value.items) else None
  }

  datatype RawEntry = RawEntry(localId: Segment, components: seq<Segment>, hardware: Option<DeviceId>)

  /** One device of the inventory. Its hardware identity is read exactly if it has an OnOff component. */
  type Entry = e: RawEntry | (e.hardware.None? <==> e.components == []) witness RawEntry("a", [], None)

  function ReadLocalId(v: Value): Option<Segment> {
    if !v.Obj? then None
    else
      match Get(v, "_id")
      case Some(Str(id)) => if IsSegment(id) then Some(id) else None
      case _ => None
  }

  function ReadHardware(v: Value): Option<DeviceId>
    requires v.Obj?
  {
    match Get(v, "hwId")
    case Some(Str(raw)) => ParseDeviceId(raw)
    case _ => None
  }

  function ReadEntry(v: Value): Option<Entry> {
    match ReadLocalId(v)
    case None => None
    case Some(id) =>
      match ReadComponents(Get(v, "components"))
      case None => None
      case Some(ids) =>
        if ids == [] then Some(RawEntry(id, [], None))
        else
          match ReadHardware(v)
          case None => None
          case Some(hardware) => Some(RawEntry(id, ids, Some(hardware)))
  }

  function ReadAll(items: seq<Value>): Option<seq<Entry>> {
    if items == [] then Some([])
    else
      match (ReadAll(items[..|items| - 1]), ReadEntry(items[|items| - 1]))
      case (Some(front), Some(last)) => Some(front + [last])
      case _ => None
  }

  // ---- what an entry must be, in literals ----

  /** Pages are as long as the client asks for. */
  lemma PageSizeIsAsked(page: Page, access: Token)
    ensures Wire(Inventory(page, access)).path == "/v2/devices?limit=" + Decimal(PAGE_SIZE) + "&page=" + Decimal(page)
  {
    HundredIsValid();
    assert "/v2/devices?limit=" + "100" + "&page=" == INVENTORY_PATH;
  }

  /** The processors of a component: a list of objects, each with a name. */
  ghost predicate NamesProcessors(v: Value, names: seq<string>) {
    v.Obj? && exists items :: Maps(v, "processors", List(items)) && |items| == |names|
                              && forall i | 0 <= i < |items| :: IsNamed(items[i], names[i])
  }

  ghost predicate IsNamed(v: Value, name: string) {
    v.Obj? && name != "" && Maps(v, "name", Str(name))
  }

  /** A component with an OnOff processor, and one without. */
  ghost predicate HasOnOff(v: Value, id: Segment) {
    exists names :: NamesProcessors(v, names) && "OnOff" in names && Maps(v, "id", Str(id))
  }

  ghost predicate LacksOnOff(v: Value) {
    exists names :: NamesProcessors(v, names) && "OnOff" !in names
  }

  /** These are the ids of the components with an OnOff processor, in order; the others have none. */
  ghost predicate Chooses(items: seq<Value>, ids: seq<Segment>) {
    if items == [] then ids == []
    else
      var front, last := items[..|items| - 1], items[|items| - 1];
      || (LacksOnOff(last) && Chooses(front, ids))
      || (ids != [] && HasOnOff(last, ids[|ids| - 1]) && Chooses(front, ids[..|ids| - 1]))
  }

  /** A device of the inventory: its local id, its OnOff components, and its hardware id if it has one of those. */
  ghost predicate Describes(v: Value, e: Entry) {
    && v.Obj? && Maps(v, "_id", Str(e.localId))
    && (exists items :: Maps(v, "components", List(items)) && Chooses(items, e.components))
    && (e.hardware.Some? ==> exists raw :: Maps(v, "hwId", Str(raw)) && ParseDeviceId(raw) == e.hardware)
  }

  lemma GetsAreMaps(v: Value, name: string)
    requires v.Obj?
    ensures forall x :: Get(v, name) == Some(x) <==> Maps(v, name, x)
  {
    forall x ensures Get(v, name) == Some(x) <==> Maps(v, name, x) {
      GetIsExact(v, name, x);
    }
  }

  lemma NameIsExact(v: Value, name: string)
    ensures ProcessorName(v) == Some(name) <==> IsNamed(v, name)
  {
    hide Get, Maps;
    if v.Obj? {
      GetsAreMaps(v, "name");
    }
  }

  lemma {:induction false} NamesAreExact(items: seq<Value>, names: seq<string>)
    ensures ProcessorNames(items) == Some(names)
       <==> |items| == |names| && forall i | 0 <= i < |items| :: IsNamed(items[i], names[i])
  {
    hide ProcessorName, IsNamed;
    if items != [] && names != [] {
      var n, m := |items| - 1, |names| - 1;
      NamesAreExact(items[..n], names[..m]);
      NameIsExact(items[n], names[m]);
      assert names == names[..m] + [names[m]];
    }
  }

  lemma ProcessorsAreExact(v: Value, names: seq<string>)
    requires v.Obj?
    ensures ReadProcessors(Get(v, "processors")) == Some(names) <==> NamesProcessors(v, names)
  {
    hide Get, Maps, IsNamed, ProcessorNames;
    GetsAreMaps(v, "processors");
    forall items ensures ProcessorNames(items) == Some(names)
                    <==> |items| == |names| && forall i | 0 <= i < |items| :: IsNamed(items[i], names[i])
    {
      NamesAreExact(items, names);
    }
  }

  lemma ComponentIsExact(v: Value, id: Segment)
    ensures ReadComponent(v) == Some(Some(id)) <==> HasOnOff(v, id)
    ensures ReadComponent(v) == Some(None) <==> LacksOnOff(v)
  {
    hide Get, Maps, NamesProcessors, ReadProcessors;
    if v.Obj? {
      forall names ensures ReadProcessors(Get(v, "processors")) == Some(names) <==> NamesProcessors(v, names) {
        ProcessorsAreExact(v, names);
      }
      GetsAreMaps(v, "id");
      if ReadProcessors(Get(v, "processors")).Some? {
        assert NamesProcessors(v, ReadProcessors(Get(v, "processors")).value);
      }
    } else {
      NothingIsNamed(v);
    }
  }

  lemma NothingIsNamed(v: Value)
    requires !v.Obj?
    ensures forall names :: !NamesProcessors(v, names)
  {
  }

  lemma {:induction false} OnOffIdsAreExact(items: seq<Value>, ids: seq<Segment>)
    ensures OnOffIds(items) == Some(ids) <==> Chooses(items, ids)
  {
    hide ReadComponent, HasOnOff, LacksOnOff;
    if items != [] {
      var front, last := items[..|items| - 1], items[|items| - 1];
      OnOffIdsAreExact(front, ids);
      ComponentIsExact(last, "a");
      if ids != [] {
        OnOffIdsAreExact(front, ids[..|ids| - 1]);
        ComponentIsExact(last, ids[|ids| - 1]);
        assert ids == ids[..|ids| - 1] + [ids[|ids| - 1]];
      }
    }
  }

  /** A device of a page is read exactly as it describes itself. */
  lemma EntryIsExact(v: Value, e: Entry)
    ensures ReadEntry(v) == Some(e) <==> Describes(v, e)
  {
    hide Get, Maps, OnOffIds, Chooses, ParseDeviceId;
    if v.Obj? {
      GetsAreMaps(v, "_id");
      GetsAreMaps(v, "components");
      GetsAreMaps(v, "hwId");
      forall items ensures OnOffIds(items) == Some(e.components) <==> Chooses(items, e.components) {
        OnOffIdsAreExact(items, e.components);
      }
    }
  }

  /** The `data` list of a page lists these devices. */
  ghost predicate ListsEntries(items: seq<Value>, entries: seq<Entry>) {
    |items| == |entries| && forall i | 0 <= i < |items| :: Describes(items[i], entries[i])
  }

  lemma {:induction false} PageIsReadExactly(items: seq<Value>, entries: seq<Entry>)
    ensures ReadAll(items) == Some(entries) <==> ListsEntries(items, entries)
  {
    hide ReadEntry, Describes;
    if items != [] && entries != [] {
      var n, m := |items| - 1, |entries| - 1;
      PageIsReadExactly(items[..n], entries[..m]);
      EntryIsExact(items[n], entries[m]);
      assert entries == entries[..m] + [entries[m]];
    }
  }

  // ---- what a listing means, stated without a scan ----

  predicate NoDuplicates(s: seq<Segment>) {
    forall i, j | 0 <= i < j < |s| :: s[i] != s[j]
  }

  /** Two devices of one listing must differ in both of their identities. */
  predicate Apart(a: Entry, b: Entry) {
    a.localId != b.localId && !(a.hardware.Some? && a.hardware == b.hardware)
  }

  /** No local id, hardware id or component of a device repeats. */
  predicate Distinct(entries: seq<Entry>) {
    && (forall i | 0 <= i < |entries| :: NoDuplicates(entries[i].components))
    && (forall i, j | 0 <= i < j < |entries| :: Apart(entries[i], entries[j]))
  }

  function EndpointsOf(e: Entry): (endpoints: seq<G2Endpoint>)
    ensures |endpoints| == |e.components|
  {
    seq(|e.components|, i requires 0 <= i < |e.components| => G2Endpoint(e.localId, e.hardware.value, e.components[i]))
  }

  /** The OnOff components of a listing, in order. */
  function Flatten(entries: seq<Entry>): seq<G2Endpoint> {
    if entries == [] then [] else Flatten(entries[..|entries| - 1]) + EndpointsOf(entries[|entries| - 1])
  }

  // ---- the scan with its seen-sets ----

  datatype Scan = Scan(endpoints: seq<G2Endpoint>, localIds: set<Segment>, hardwareIds: set<DeviceId>)

  const EMPTY_SCAN := Scan([], {}, {})

  /** Appends the endpoints of the first `n` components, refusing one that was seen. */
  function AddComponents(endpoints: seq<G2Endpoint>, e: Entry, n: nat): Option<seq<G2Endpoint>>
    requires n <= |e.components|
  {
    if n == 0 then Some(endpoints)
    else
      match AddComponents(endpoints, e, n - 1)
      case None => None
      case Some(so) => if EndpointsOf(e)[n - 1] in so then None else Some(so + [EndpointsOf(e)[n - 1]])
  }

  function ScanEntry(scan: Scan, e: Entry): Option<Scan> {
    if e.localId in scan.localIds then None
    else if e.components == [] then Some(scan.(localIds := scan.localIds + {e.localId}))
    else if e.hardware.value in scan.hardwareIds then None
    else
      match AddComponents(scan.endpoints, e, |e.components|)
      case None => None
      case Some(endpoints) => Some(Scan(endpoints, scan.localIds + {e.localId}, scan.hardwareIds + {e.hardware.value}))
  }

  function ScanEntries(scan: Scan, entries: seq<Entry>): Option<Scan> {
    if entries == [] then Some(scan)
    else
      match ScanEntries(scan, entries[..|entries| - 1])
      case None => None
      case Some(so) => ScanEntry(so, entries[|entries| - 1])
  }

  /** One page of devices, as the inner loop of `endpoints` reads it. */
  function ScanItems(scan: Scan, items: seq<Value>): Option<Scan> {
    match ReadAll(items)
    case None => None
    case Some(entries) => ScanEntries(scan, entries)
  }

  /** What the seen-sets hold after a listing. */
  ghost function Summary(entries: seq<Entry>): Scan {
    Scan(Flatten(entries),
         set e | e in entries :: e.localId,
         set e | e in entries && e.hardware.Some? :: e.hardware.value)
  }

  lemma DistinctStep(entries: seq<Entry>, e: Entry)
    ensures Distinct(entries + [e])
       <==> Distinct(entries) && NoDuplicates(e.components) && forall f | f in entries :: Apart(f, e)
  {
    var all := entries + [e];
    assert all[|entries|] == e;
    assert forall i | 0 <= i < |entries| :: all[i] == entries[i];
    if Distinct(all) {
      forall f | f in entries ensures Apart(f, e) {
        var i :| 0 <= i < |entries| && entries[i] == f;
        assert Apart(all[i], all[|entries|]);
      }
      assert Distinct(entries) by {
        forall i, j | 0 <= i < j < |entries| ensures Apart(entries[i], entries[j]) {
          assert Apart(all[i], all[j]);
        }
      }
    }
  }

  lemma {:induction false} DistinctPrefix(entries: seq<Entry>, more: seq<Entry>)
    requires Distinct(entries + more)
    ensures Distinct(entries)
  {
    if more == [] {
      assert entries + more == entries;
    } else {
      var front := more[..|more| - 1];
      assert entries + more == (entries + front) + [more[|more| - 1]];
      DistinctStep(entries + front, more[|more| - 1]);
      DistinctPrefix(entries, front);
    }
  }

  lemma {:induction false} FlattenSources(entries: seq<Entry>, endpoint: G2Endpoint)
    requires endpoint in Flatten(entries)
    ensures exists e :: e in entries && e.localId == endpoint.localId && e.hardware == Some(endpoint.deviceId)
  {
    var front, last := entries[..|entries| - 1], entries[|entries| - 1];
    if endpoint in Flatten(front) {
      FlattenSources(front, endpoint);
      var e :| e in front && e.localId == endpoint.localId && e.hardware == Some(endpoint.deviceId);
      assert e in entries;
    } else {
      assert endpoint in EndpointsOf(last) && last in entries;
    }
  }

  lemma NoDuplicatesStep(s: seq<Segment>, x: Segment)
    ensures NoDuplicates(s + [x]) <==> NoDuplicates(s) && x !in s
  {
    var all := s + [x];
    assert all[|s|] == x && forall i | 0 <= i < |s| :: all[i] == s[i];
  }

  /** Adding a device's components to endpoints of other devices fails exactly on a repeated component. */
  lemma {:induction false} AddComponentsIsExact(endpoints: seq<G2Endpoint>, e: Entry, n: nat)
    requires n <= |e.components|
    requires forall p | p in endpoints :: p.localId != e.localId
    ensures AddComponents(endpoints, e, n)
         == if NoDuplicates(e.components[..n]) then Some(endpoints + EndpointsOf(e)[..n]) else None
  {
    if n > 0 {
      AddComponentsIsExact(endpoints, e, n - 1);
      var mine, cs := EndpointsOf(e), e.components;
      assert cs[..n] == cs[..n - 1] + [cs[n - 1]];
      assert mine[..n] == mine[..n - 1] + [mine[n - 1]];
      NoDuplicatesStep(cs[..n - 1], cs[n - 1]);
      assert mine[n - 1] !in endpoints;
      assert mine[n - 1] in endpoints + mine[..n - 1] <==> mine[n - 1] in mine[..n - 1];
      if mine[n - 1] in mine[..n - 1] {
        var i :| 0 <= i < n - 1 && mine[..n - 1][i] == mine[n - 1];
        assert cs[..n - 1][i] == cs[n - 1];
      }
      if cs[n - 1] in cs[..n - 1] {
        var i :| 0 <= i < n - 1 && cs[..n - 1][i] == cs[n - 1];
        assert mine[..n - 1][i] == mine[n - 1];
      }
      assert endpoints + mine[..n] == (endpoints + mine[..n - 1]) + [mine[n - 1]];
    } else {
      assert endpoints + EndpointsOf(e)[..0] == endpoints;
    }
  }

  /** The seen-sets refuse a device exactly when it is not apart from every device seen. */
  lemma SeenMeansNotApart(entries: seq<Entry>, e: Entry)
    ensures var scan := Summary(entries);
            (e.localId in scan.localIds || (e.hardware.Some? && e.hardware.value in scan.hardwareIds))
            <==> exists f :: f in entries && !Apart(f, e)
  {
    var scan := Summary(entries);
    if e.localId in scan.localIds {
      var f :| f in entries && f.localId == e.localId;
      assert !Apart(f, e);
    } else if e.hardware.Some? && e.hardware.value in scan.hardwareIds {
      var f :| f in entries && f.hardware.Some? && f.hardware.value == e.hardware.value;
      assert !Apart(f, e);
    }
  }

  lemma AddAllComponents(entries: seq<Entry>, e: Entry)
    requires forall f | f in entries :: f.localId != e.localId
    ensures AddComponents(Flatten(entries), e, |e.components|)
         == if NoDuplicates(e.components) then Some(Flatten(entries) + EndpointsOf(e)) else None
  {
    forall p | p in Flatten(entries) ensures p.localId != e.localId {
      FlattenSources(entries, p);
    }
    AddComponentsIsExact(Flatten(entries), e, |e.components|);
    assert e.components[..|e.components|] == e.components;
    assert EndpointsOf(e)[..|e.components|] == EndpointsOf(e);
  }

  lemma ScanEntryIsExact(entries: seq<Entry>, e: Entry)
    requires Distinct(entries)
    ensures ScanEntry(Summary(entries), e) == if Distinct(entries + [e]) then Some(Summary(entries + [e])) else None
  {
    DistinctStep(entries, e);
    SeenMeansNotApart(entries, e);
    SummaryStep(entries, e);
    var scan := Summary(entries);
    if e.localId in scan.localIds {
    } else if e.components == [] {
      assert EndpointsOf(e) == [];
      assert scan.endpoints + [] == scan.endpoints && scan.hardwareIds + {} == scan.hardwareIds;
    } else {
      AddAllComponents(entries, e) by {
        forall f | f in entries ensures f.localId != e.localId {
          assert f.localId in scan.localIds;
        }
      }
    }
  }

  lemma SummaryStep(entries: seq<Entry>, e: Entry)
    ensures Summary(entries + [e])
         == Scan(Flatten(entries) + EndpointsOf(e),
                 Summary(entries).localIds + {e.localId},
                 Summary(entries).hardwareIds + if e.hardware.Some? then {e.hardware.value} else {})
  {
    hide EndpointsOf;
    var all := entries + [e];
    assert all[..|all| - 1] == entries;
    assert forall f :: f in all <==> f in entries || f == e;
    assert Summary(all).endpoints == Flatten(entries) + EndpointsOf(e);
    assert Summary(all).localIds == Summary(entries).localIds + {e.localId};
    var more := if e.hardware.Some? then {e.hardware.value} else {};
    assert Summary(all).hardwareIds == Summary(entries).hardwareIds + more;
  }

  /** Scanning on from what `before` leaves accepts exactly the continuations without a repetition. */
  lemma {:induction false} ScanEntriesIsExact(before: seq<Entry>, entries: seq<Entry>)
    requires Distinct(before)
    ensures ScanEntries(Summary(before), entries)
         == if Distinct(before + entries) then Some(Summary(before + entries)) else None
  {
    if entries == [] {
      assert before + entries == before;
    } else {
      var front, last := entries[..|entries| - 1], entries[|entries| - 1];
      assert before + entries == (before + front) + [last];
      ScanEntriesIsExact(before, front);
      if Distinct(before + front) {
        ScanEntryIsExact(before + front, last);
      } else {
        DistinctStep(before + front, last);
      }
    }
  }

  predicate SamePair(p: G2Endpoint, q: G2Endpoint) {
    p.deviceId == q.deviceId && p.componentId == q.componentId
  }

  /** A listed (hardware id, component) pair is listed once. */
  lemma {:induction false} ListedPairsAreUnique(entries: seq<Entry>, i: nat, j: nat)
    requires Distinct(entries) && i < j < |Flatten(entries)|
    ensures !SamePair(Flatten(entries)[i], Flatten(entries)[j])
  {
    var front, last := entries[..|entries| - 1], entries[|entries| - 1];
    assert entries == front + [last];
    DistinctStep(front, last);
    var earlier := Flatten(front);
    if j < |earlier| {
      ListedPairsAreUnique(front, i, j);
    } else if i < |earlier| {
      FlattenSources(front, earlier[i]);
    }
  }

  // ---- a listing spread over pages ----

  /** The devices on each page, None for a page that cannot be read. */
  type Listing = Page -> Option<seq<Entry>>

  /** All devices on the first `n` pages. */
  function UpTo(listing: Listing, n: nat): Option<seq<Entry>>
    requires n <= MAX_INVENTORY_PAGES
  {
    if n == 0 then Some([])
    else
      match (UpTo(listing, n - 1), listing(n))
      case (Some(before), Some(page)) => Some(before + page)
      case _ => None
  }

  predicate IsFull(page: Option<seq<Entry>>) {
    page.Some? && |page.value| >= PAGE_SIZE
  }

  /** Pages 1 to `k` are readable, page `k` is the first short one, and nothing in them repeats. */
  ghost predicate EndsAt(listing: Listing, k: nat, entries: seq<Entry>) {
    && 1 <= k <= MAX_INVENTORY_PAGES
    && UpTo(listing, k) == Some(entries)
    && !IsFull(listing(k))
    && (forall n: Page | n < k :: IsFull(listing(n)))
    && Distinct(entries)
  }

  lemma {:induction false} UpToExtends(listing: Listing, m: nat, n: nat)
    requires m <= n <= MAX_INVENTORY_PAGES && UpTo(listing, n).Some?
    ensures UpTo(listing, m).Some? && UpTo(listing, m).value <= UpTo(listing, n).value
    ensures m < n ==> listing(m + 1).Some?
  {
    if m < n {
      UpToExtends(listing, m, n - 1);
    }
  }

  /** If the listing ends at page `k`, every page up to there is readable and keeps it free of repetition. */
  lemma EndingKeepsPrefix(listing: Listing, page: Page, k: nat, entries: seq<Entry>)
    requires EndsAt(listing, k, entries)
    requires forall n: Page | n < page :: IsFull(listing(n))
    ensures page <= k && listing(page).Some? && (page < k <==> IsFull(listing(page)))
    ensures UpTo(listing, page).Some? && Distinct(UpTo(listing, page).value)
  {
    UpToExtends(listing, page, k);
    UpToExtends(listing, page - 1, k);
    var part := UpTo(listing, page).value;
    assert entries == part + entries[|part|..];
    DistinctPrefix(part, entries[|part|..]);
  }

  // ---- the loops of the client ----

  /** `_processors`. */
  method Processors(v: Option<Value>) returns (r: Option<seq<string>>)
    ensures r == ReadProcessors(v)
  {
    if v.None? || !v.value.List? {
      return None;
    }
    var items := v.value.items;
    var names := [];
    for i := 0 to |items|
      invariant ProcessorNames(items[..i]) == Some(names)
    {
      assert items[..i + 1][..i] == items[..i];
      var name := ProcessorName(items[i]);
      if name.None? {
        ProcessorNamesPrefix(items, i + 1);
        return None;
      }
      names := names + [name.value];
    }
    assert items[..|items|] == items;
    return Some(names);
  }

  lemma {:induction false} ProcessorNamesPrefix(items: seq<Value>, i: nat)
    requires i <= |items| && ProcessorNames(items[..i]).None?
    ensures ProcessorNames(items).None?
  {
    if i < |items| {
      assert items[..|items| - 1][..i] == items[..i];
      ProcessorNamesPrefix(items[..|items| - 1], i);
    } else {
      assert items[..i] == items;
    }
  }

  /** `_on_off_components`. */
  method OnOffComponents(v: Option<Value>) returns (r: Option<seq<Segment>>)
    ensures r == ReadComponents(v)
  {
    if v.None? || !v.value.List? {
      return None;
    }
    var items := v.value.items;
    var ids: seq<Segment> := [];
    for i := 0 to |items|
      invariant OnOffIds(items[..i]) == Some(ids)
    {
      assert items[..i + 1][..i] == items[..i];
      var component := items[i];
      if !component.Obj? {
        OnOffIdsPrefix(items, i + 1);
        return None;
      }
      var names := Processors(Get(component, "processors"));
      if names.None? {
        OnOffIdsPrefix(items, i + 1);
        return None;
      }
      if "OnOff" in names.value {
        var id := Get(component, "id");
        if id.None? || !id.value.Str? || !IsSegment(id.value.s) {
          OnOffIdsPrefix(items, i + 1);
          return None;
        }
        ids := ids + [id.value.s];
      }
    }
    assert items[..|items|] == items;
    return Some(ids);
  }

  lemma {:induction false} OnOffIdsPrefix(items: seq<Value>, i: nat)
    requires i <= |items| && OnOffIds(items[..i]).None?
    ensures OnOffIds(items).None?
  {
    if i < |items| {
      assert items[..|items| - 1][..i] == items[..i];
      OnOffIdsPrefix(items[..|items| - 1], i);
    } else {
      assert items[..i] == items;
    }
  }

  lemma NoComponentAdded(endpoints: seq<G2Endpoint>, e: Entry)
    ensures AddComponents(endpoints, e, 0) == Some(endpoints)
  {
  }

  lemma OneComponentAdded(endpoints: seq<G2Endpoint>, e: Entry, n: nat)
    requires n < |e.components| && AddComponents(endpoints, e, n).Some?
    ensures var so := AddComponents(endpoints, e, n).value;
            var endpoint := G2Endpoint(e.localId, e.hardware.value, e.components[n]);
            AddComponents(endpoints, e, n + 1) == if endpoint in so then None else Some(so + [endpoint])
  {
  }

  lemma {:induction false} AddComponentsPrefix(endpoints: seq<G2Endpoint>, e: Entry, n: nat)
    requires n <= |e.components| && AddComponents(endpoints, e, n).None?
    ensures AddComponents(endpoints, e, |e.components|).None?
    decreases |e.components| - n
  {
    if n < |e.components| {
      AddComponentsPrefix(endpoints, e, n + 1);
    }
  }

  /** A page is refused as soon as a prefix of it is unreadable or repeats something. */
  lemma {:induction false} ScanItemsPrefix(scan: Scan, items: seq<Value>, i: nat)
    requires i <= |items| && ScanItems(scan, items[..i]).None?
    ensures ScanItems(scan, items).None?
  {
    if i < |items| {
      var front := items[..|items| - 1];
      assert front[..i] == items[..i];
      ScanItemsPrefix(scan, front, i);
      if ReadAll(items).Some? {
        var all := ReadAll(items).value;
        assert all[..|all| - 1] == ReadAll(front).value;
      }
    } else {
      assert items[..i] == items;
    }
  }

  lemma ScanItemsStep(scan: Scan, items: seq<Value>, i: nat)
    requires i < |items| && ScanItems(scan, items[..i]).Some?
    ensures ScanItems(scan, items[..i + 1])
         == if ReadEntry(items[i]).None? then None
            else ScanEntry(ScanItems(scan, items[..i]).value, ReadEntry(items[i]).value)
  {
    hide ReadEntry, ScanEntry;
    assert items[..i + 1][..i] == items[..i];
    if ReadEntry(items[i]).Some? {
      var before, e := ReadAll(items[..i]).value, ReadEntry(items[i]).value;
      assert ReadAll(items[..i + 1]) == Some(before + [e]);
      assert (before + [e])[..|before|] == before;
    }
  }

  /** The loop over the devices of one page, with the seen-sets of `endpoints`. */
  method ScanPage(scan: Scan, items: seq<Value>) returns (r: Option<Scan>)
    ensures r == ScanItems(scan, items)
  {
    hide ReadEntry, ScanEntry, ScanItems;
    var current := scan;
    assert ScanItems(scan, items[..0]) == Some(scan) by { NothingToScan(scan, items[..0]); }
    for i := 0 to |items|
      invariant ScanItems(scan, items[..i]) == Some(current)
    {
      ScanItemsStep(scan, items, i);
      var next := ScanDevice(current, items[i]);
      if next.None? {
        ScanItemsPrefix(scan, items, i + 1);
        return None;
      }
      current := next.value;
    }
    assert items[..|items|] == items;
    return Some(current);
  }

  lemma NothingToScan(scan: Scan, items: seq<Value>)
    requires items == []
    ensures ScanItems(scan, items) == Some(scan)
  {
  }

  /** The body of the device loop of `endpoints`. */
  method ScanDevice(scan: Scan, raw: Value) returns (r: Option<Scan>)
    ensures r == if ReadEntry(raw).None? then None else ScanEntry(scan, ReadEntry(raw).value)
  {
    hide ReadHardware, ReadComponents, IsSegment, Get, EndpointsOf, AddComponents;
    var localId := ReadLocalId(raw);
    if localId.None? || localId.value in scan.localIds {
      return None;
    }
    var seenLocalIds := scan.localIds + {localId.value};
    var componentIds := OnOffComponents(Get(raw, "components"));
    if componentIds.None? {
      return None;
    }
    if componentIds.value == [] {
      return Some(scan.(localIds := seenLocalIds));
    }
    var hardwareId := ReadHardware(raw);
    if hardwareId.None? || hardwareId.value in scan.hardwareIds {
      return None;
    }
    var e: Entry := RawEntry(localId.value, componentIds.value, hardwareId);
    var endpoints := scan.endpoints;
    NoComponentAdded(endpoints, e);
    for n := 0 to |componentIds.value|
      invariant AddComponents(scan.endpoints, e, n) == Some(endpoints)
    {
      OneComponentAdded(scan.endpoints, e, n);
      var endpoint := G2Endpoint(localId.value, hardwareId.value, componentIds.value[n]);
      if endpoint in endpoints {
        AddComponentsPrefix(scan.endpoints, e, n + 1);
        return None;
      }
      endpoints := endpoints + [endpoint];
    }
    return Some(Scan(endpoints, seenLocalIds, scan.hardwareIds + {hardwareId.value}));
  }
}
