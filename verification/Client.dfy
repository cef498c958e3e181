/** The three operations of the gateway client: inventory, renewal and On/Off
    (backends/harmony_g2/client.py, `G2Client`). */
module Client {
  import opened Wrappers
  import opened Values
  import opened Calendar
  import opened Session
  import opened Transport
  import opened Inventory

  lemma SendAlwaysSends(gateway: Gateway, trace: seq<Event>, r: Request)
    ensures Send(gateway, trace, r) == (trace + [Sent(r)], Outcome(gateway(trace + [Sent(r)])))
  {
    ClientRequestsAreValid(r);
  }

  // ---- inventory ----

  /** The `data` list of one inventory reply. */
  function DataItems(reply: Value): Option<seq<Value>>
    requires reply.Obj?
  {
    match Get(reply, "data")
    case Some(List(items)) => Some(items)
    case _ => None
  }

  datatype PageResult = Complete(endpoints: seq<G2Endpoint>) | More(scan: Scan) | Refused(error: Error)

  /** What one reply makes of the scan so far. */
  function ReadPage(reply: Result<Value, Error>, scan: Scan): PageResult
    requires reply.Success? ==> reply.value.Obj?
  {
    match reply
    case Failure(e) => Refused(e)
    case Success(v) =>
      match DataItems(v)
      case None => Refused(Response(None))
      case Some(items) =>
        match ScanItems(scan, items)
        case None => Refused(Response(None))
        case Some(next) => if |items| < PAGE_SIZE then Complete(next.endpoints) else More(next)
  }

  /** `endpoints` from page `page` on. */
  function Sweep(gateway: Gateway, trace: seq<Event>, token: Token, page: Page, scan: Scan)
    : (seq<Event>, Result<seq<G2Endpoint>, Error>)
    decreases MAX_INVENTORY_PAGES - page
  {
    var (sent, reply) := Send(gateway, trace, Inventory(page, token));
    assert reply.Success? ==> reply.value.Obj?;
    match ReadPage(reply, scan)
    case Refused(e) => (sent, Failure(e))
    case Complete(endpoints) => (sent, Success(endpoints))
    case More(next) =>
      if page == MAX_INVENTORY_PAGES then (sent, Failure(Response(None)))
      else Sweep(gateway, sent, token, page + 1, next)
  }

  function Endpoints(gateway: Gateway, trace: seq<Event>, token: Token): (seq<Event>, Result<seq<G2Endpoint>, Error>) {
    Sweep(gateway, trace, token, 1, EMPTY_SCAN)
  }

  /** The history after asking for pages 1 to `n`. */
  function Asked(trace: seq<Event>, token: Token, n: nat): seq<Event>
    requires n <= MAX_INVENTORY_PAGES
  {
    if n == 0 then trace else Asked(trace, token, n - 1) + [Sent(Inventory(n, token))]
  }

  /** The devices that the gateway lists on page `n` when asked for pages 1 to `n` in order. */
  function PageEntries(gateway: Gateway, trace: seq<Event>, token: Token, n: Page): Option<seq<Entry>> {
    match Outcome(gateway(Asked(trace, token, n)))
    case Failure(_) => None
    case Success(v) => if DataItems(v).None? then None else ReadAll(DataItems(v).value)
  }

  function ListingOf(gateway: Gateway, trace: seq<Event>, token: Token): Listing {
    (n: Page) => PageEntries(gateway, trace, token, n)
  }

  /** Page `n` lists these devices exactly if its exchange delivered an object with a `data` list of them. */
  lemma PageIsListedExactly(gateway: Gateway, trace: seq<Event>, token: Token, n: Page, entries: seq<Entry>)
    ensures var x := gateway(Asked(trace, token, n));
            PageEntries(gateway, trace, token, n) == Some(entries)
            <==> Delivered(x) && exists items :: Maps(x.json.value, "data", List(items)) && ListsEntries(items, entries)
  {
    hide Get, Maps, ReadAll, ListsEntries, Asked, Delivered;
    var x := gateway(Asked(trace, token, n));
    OutcomeIsSound(x);
    if Delivered(x) {
      DeliveredIsObject(x);
      GetsAreMaps(x.json.value, "data");
      forall items ensures ReadAll(items) == Some(entries) <==> ListsEntries(items, entries) {
        PageIsReadExactly(items, entries);
      }
    }
  }

  lemma DeliveredIsObject(x: Exchange)
    requires Delivered(x)
    ensures x.json.Parsed? && x.json.value.Obj? && Outcome(x) == Success(x.json.value)
  {
  }

  lemma {:induction false} ReadAllLength(items: seq<Value>)
    requires ReadAll(items).Some?
    ensures |ReadAll(items).value| == |items|
  {
    if items != [] {
      ReadAllLength(items[..|items| - 1]);
    }
  }

  /** The error with which an unreadable page ends the sweep. */
  function PageError(reply: Result<Value, Error>): Error {
    if reply.Failure? then reply.error else Response(None)
  }

  /** One page extends the summary of the pages before it, or is refused. */
  lemma PageIsExact(gateway: Gateway, trace: seq<Event>, token: Token, page: Page, before: seq<Entry>)
    requires Distinct(before)
    ensures var reply := Outcome(gateway(Asked(trace, token, page)));
            ReadPage(reply, Summary(before))
            == match PageEntries(gateway, trace, token, page)
               case None => Refused(PageError(reply))
               case Some(entries) =>
                 if !Distinct(before + entries) then Refused(Response(None))
                 else if |entries| < PAGE_SIZE then Complete(Flatten(before + entries))
                 else More(Summary(before + entries))
  {
    hide Outcome, Asked, ReadAll, Distinct, Summary, ScanEntries, DataItems;
    var reply := Outcome(gateway(Asked(trace, token, page)));
    if reply.Success? && DataItems(reply.value).Some? && ReadAll(DataItems(reply.value).value).Some? {
      PageIsScanned(before, DataItems(reply.value).value);
    }
  }

  lemma PageIsScanned(before: seq<Entry>, items: seq<Value>)
    requires Distinct(before) && ReadAll(items).Some?
    ensures var entries := ReadAll(items).value;
            && |entries| == |items|
            && ScanItems(Summary(before), items)
               == (if Distinct(before + entries) then Some(Summary(before + entries)) else None)
            && Summary(before + entries).endpoints == Flatten(before + entries)
  {
    hide ReadAll, Distinct, ScanEntries, Flatten;
    ReadAllLength(items);
    ScanEntriesIsExact(before, ReadAll(items).value);
  }

  /** One step of the sweep, in terms of the reply. */
  lemma SweepUnfolds(gateway: Gateway, trace: seq<Event>, token: Token, page: Page, scan: Scan)
    ensures var asked := Asked(trace, token, page);
            Sweep(gateway, Asked(trace, token, page - 1), token, page, scan)
            == match ReadPage(Outcome(gateway(asked)), scan)
               case Refused(e) => (asked, Failure(e))
               case Complete(endpoints) => (asked, Success(endpoints))
               case More(next) =>
                 if page == MAX_INVENTORY_PAGES then (asked, Failure(Response(None)))
                 else Sweep(gateway, asked, token, page + 1, next)
  {
    hide ReadPage, Outcome, Send;
    SendAlwaysSends(gateway, Asked(trace, token, page - 1), Inventory(page, token));
  }

  /** One step of the sweep, in terms of the listing. */
  lemma SweepStep(gateway: Gateway, trace: seq<Event>, token: Token, page: Page, before: seq<Entry>)
    requires Distinct(before)
    ensures var listing := ListingOf(gateway, trace, token);
            var asked := Asked(trace, token, page);
            Sweep(gateway, Asked(trace, token, page - 1), token, page, Summary(before))
            == match listing(page)
               case None => (asked, Failure(PageError(Outcome(gateway(asked)))))
               case Some(entries) =>
                 if !Distinct(before + entries) then (asked, Failure(Response(None)))
                 else if |entries| < PAGE_SIZE then (asked, Success(Flatten(before + entries)))
                 else if page == MAX_INVENTORY_PAGES then (asked, Failure(Response(None)))
                 else Sweep(gateway, asked, token, page + 1, Summary(before + entries))
  {
    hide Sweep, ReadPage, Outcome, Asked, PageEntries, Distinct, Summary, Flatten, PageError;
    SweepUnfolds(gateway, trace, token, page, Summary(before));
    PageIsExact(gateway, trace, token, page, before);
  }

  /** What a sweep owes to a listing: success exactly where the listing ends, and pages asked for in order. */
  ghost predicate Agrees(listing: Listing, trace: seq<Event>, token: Token, sent: seq<Event>,
                         r: Result<seq<G2Endpoint>, Error>)
  {
    && (r.Success? ==> exists k, entries :: EndsAt(listing, k, entries))
    && (forall k, entries | EndsAt(listing, k, entries) ::
        r == Success(Flatten(entries)) && sent == Asked(trace, token, k))
    && (exists k :: 1 <= k <= MAX_INVENTORY_PAGES && sent == Asked(trace, token, k))
  }

  /** A page that cannot be read, that repeats something, or that is full at the limit: no listing ends. */
  lemma FailureAgrees(listing: Listing, trace: seq<Event>, token: Token, page: Page, before: seq<Entry>, e: Error)
    requires UpTo(listing, page - 1) == Some(before)
    requires forall n: Page | n < page :: IsFull(listing(n))
    requires listing(page).None? || !Distinct(before + listing(page).value)
          || (page == MAX_INVENTORY_PAGES && IsFull(listing(page)))
    ensures Agrees(listing, trace, token, Asked(trace, token, page), Failure(e))
  {
    forall k, entries | EndsAt(listing, k, entries) ensures false {
      EndingKeepsPrefix(listing, page, k, entries);
    }
  }

  lemma SuccessAgrees(listing: Listing, trace: seq<Event>, token: Token, page: Page, before: seq<Entry>)
    requires UpTo(listing, page - 1) == Some(before)
    requires forall n: Page | n < page :: IsFull(listing(n))
    requires listing(page).Some? && Distinct(before + listing(page).value) && !IsFull(listing(page))
    ensures Agrees(listing, trace, token, Asked(trace, token, page), Success(Flatten(before + listing(page).value)))
  {
    assert EndsAt(listing, page, before + listing(page).value);
    forall k, entries | EndsAt(listing, k, entries) ensures k == page && entries == before + listing(page).value {
      EndingKeepsPrefix(listing, page, k, entries);
    }
  }

  /** From page `page` on, the sweep succeeds exactly on the listings that end at that page or later. */
  lemma {:induction false} SweepIsExact(gateway: Gateway, trace: seq<Event>, token: Token, page: Page,
                                        before: seq<Entry>)
    requires UpTo(ListingOf(gateway, trace, token), page - 1) == Some(before) && Distinct(before)
    requires forall n: Page | n < page :: IsFull(ListingOf(gateway, trace, token)(n))
    ensures var (sent, r) := Sweep(gateway, Asked(trace, token, page - 1), token, page, Summary(before));
            Agrees(ListingOf(gateway, trace, token), trace, token, sent, r)
    decreases MAX_INVENTORY_PAGES - page
  {
    hide Outcome, Sweep, ReadAll, Summary;
    var listing := ListingOf(gateway, trace, token);
    SweepStep(gateway, trace, token, page, before);
    if listing(page).None? {
      FailureAgrees(listing, trace, token, page, before, PageError(Outcome(gateway(Asked(trace, token, page)))));
    } else if !Distinct(before + listing(page).value) || (page == MAX_INVENTORY_PAGES && IsFull(listing(page))) {
      FailureAgrees(listing, trace, token, page, before, Response(None));
    } else if !IsFull(listing(page)) {
      SuccessAgrees(listing, trace, token, page, before);
    } else {
      SweepIsExact(gateway, trace, token, page + 1, before + listing(page).value);
    }
  }

  lemma NothingScanned()
    ensures Summary([]) == EMPTY_SCAN && Distinct([])
  {
  }

  /** `endpoints` succeeds exactly when the listing ends within the page limit with every entry readable
      and nothing repeated; it then returns the OnOff components in order, having asked for pages 1 to k
      once each, in order, and nothing else. A failing sweep too asks only for an initial run of pages. */
  lemma InventoryIsExact(gateway: Gateway, trace: seq<Event>, token: Token)
    ensures var listing := ListingOf(gateway, trace, token);
            var (sent, r) := Endpoints(gateway, trace, token);
            && (r.Success? <==> exists k, entries :: EndsAt(listing, k, entries))
            && (forall k, entries | EndsAt(listing, k, entries) ::
                r == Success(Flatten(entries)) && sent == Asked(trace, token, k))
            && (exists k :: 1 <= k <= MAX_INVENTORY_PAGES && sent == Asked(trace, token, k))
  {
    NothingScanned();
    SweepIsExact(gateway, trace, token, 1, []);
  }

  /** A successful inventory never lists the same hardware id and component twice. */
  lemma InventoryPairsAreUnique(gateway: Gateway, trace: seq<Event>, token: Token, i: nat, j: nat)
    requires Endpoints(gateway, trace, token).1.Success?
    requires i < j < |Endpoints(gateway, trace, token).1.value|
    ensures !SamePair(Endpoints(gateway, trace, token).1.value[i], Endpoints(gateway, trace, token).1.value[j])
  {
    InventoryIsExact(gateway, trace, token);
    var k, entries :| EndsAt(ListingOf(gateway, trace, token), k, entries);
    ListedPairsAreUnique(entries, i, j);
  }

  // ---- renewal and On/Off ----

  function Renew(gateway: Gateway, trace: seq<Event>, s: LocalSession, now: Instant)
    : (seq<Event>, Result<LocalSession, Error>)
  {
    var (sent, reply) := Send(gateway, trace, Renewal(s.accessToken, s.refreshToken));
    match reply
    case Failure(e) => (sent, Failure(e))
    case Success(payload) =>
      match ParseRefreshed(payload, now)
      case None => (sent, Failure(Response(None)))
      case Some(renewed) => (sent, Success(renewed))
  }

  predicate Acknowledged(payload: Value)
    requires payload.Obj?
  {
    Get(payload, "success") == Some(Bool(true))
  }

  /** `set_on_off`: None when the gateway acknowledged, else the error it raises. */
  function SetOnOff(gateway: Gateway, trace: seq<Event>, endpoint: G2Endpoint, on: bool, token: Token)
    : (seq<Event>, Option<Error>)
  {
    var (sent, reply) := Send(gateway, trace, Switch(endpoint, on, token));
    match reply
    case Failure(e) => (sent, Some(e))
    case Success(payload) => (sent, if Acknowledged(payload) then None else Some(Response(None)))
  }

  class G2Client {
    const transport: PinnedG2Transport

    constructor (transport: PinnedG2Transport)
      ensures this.transport == transport
    {
      this.transport := transport;
    }

    method RenewSession(s: LocalSession, now: Instant) returns (r: Result<LocalSession, Error>)
      modifies transport.journal
      ensures (transport.journal.events, r) == Renew(transport.gateway, old(transport.journal.events), s, now)
    {
      var reply := transport.Request(Renewal(s.accessToken, s.refreshToken));
      if reply.Failure? {
        return Failure(reply.error);
      }
      var renewed := ParseRefreshed(reply.value, now);
      if renewed.None? {
        return Failure(Response(None));
      }
      return Success(renewed.value);
    }

    method ReadInventory(token: Token) returns (r: Result<seq<G2Endpoint>, Error>)
      modifies transport.journal
      ensures (transport.journal.events, r) == Endpoints(transport.gateway, old(transport.journal.events), token)
    {
      var scan := EMPTY_SCAN;
      for page := 1 to MAX_INVENTORY_PAGES + 1
        invariant page <= MAX_INVENTORY_PAGES ==>
          Endpoints(transport.gateway, old(transport.journal.events), token)
          == Sweep(transport.gateway, transport.journal.events, token, page, scan)
        invariant page == MAX_INVENTORY_PAGES + 1 ==>
          Endpoints(transport.gateway, old(transport.journal.events), token)
          == (transport.journal.events, Failure(Response(None)))
      {
        var reply := transport.Request(Inventory(page, token));
        if reply.Failure? {
          return Failure(reply.error);
        }
        var data := DataItems(reply.value);
        if data.None? {
          return Failure(Response(None));
        }
        var next := ScanPage(scan, data.value);
        if next.None? {
          return Failure(Response(None));
        }
        scan := next.value;
        if |data.value| < PAGE_SIZE {
          return Success(scan.endpoints);
        }
      }
      return Failure(Response(None));
    }

    method SwitchOnOff(endpoint: G2Endpoint, on: bool, token: Token) returns (e: Option<Error>)
      modifies transport.journal
      ensures (transport.journal.events, e)
              == SetOnOff(transport.gateway, old(transport.journal.events), endpoint, on, token)
    {
      var reply := transport.Request(Switch(endpoint, on, token));
      if reply.Failure? {
        return Some(reply.error);
      }
      if !Acknowledged(reply.value) {
        return Some(Response(None));
      }
      return None;
    }
  }
}
