/** Requests to the gateway and the pinned transport that carries them (backends/harmony_g2/transport.py,
    and the request shapes of backends/harmony_g2/client.py). */
module Transport {
  import opened Wrappers
  import opened Text
  import opened Identity
  import opened Values
  import opened Session
  import JsonText

  const MAX_REQUEST_BYTES := 65_536
  const MAX_RESPONSE_BYTES := 2_000_000
  const MAX_INVENTORY_PAGES := 100

  predicate IsSegmentChar(c: char) {
    IsDigit(c) || 'a' <= c <= 'z' || 'A' <= c <= 'Z' || c == '_' || c == '-'
  }

  /** `_safe_segment`: one to 128 characters of a URL-safe alphabet. */
  predicate IsSegment(s: string) {
    1 <= |s| <= 128 && forall c | c in s :: IsSegmentChar(c)
  }

  type Segment = s: string | IsSegment(s) witness "a"

  datatype G2Endpoint = G2Endpoint(localId: Segment, deviceId: DeviceId, componentId: Segment)

  type Page = n: nat | 1 <= n <= MAX_INVENTORY_PAGES witness 1

  /** The three requests that the client makes. */
  datatype Request =
    | Renewal(accessToken: Token, refreshToken: Token)
    | Inventory(page: Page, accessToken: Token)
    | Switch(endpoint: G2Endpoint, on: bool, accessToken: Token)

  datatype HttpRequest = HttpRequest(
    verb: string, path: string, body: Option<seq<JsonText.Member>>, credential: Option<string>)

  const TOKEN_PATH: string := "/v2/oauth2/token"
  const INVENTORY_PATH: string := "/v2/devices?limit=100&page="

  function SwitchParts(endpoint: G2Endpoint, on: bool): seq<string> {
    ["", "v2", "devices", endpoint.localId, "comps", endpoint.componentId, "procs", "OnOff", "methods",
     if on then "On" else "Off"]
  }

  /** `G2Endpoint.command_path` with the method appended by `set_on_off`. */
  function SwitchPath(endpoint: G2Endpoint, on: bool): string {
    Join(SwitchParts(endpoint, on), '/')
  }

  /** A request as the client hands it to the transport. */
  function Wire(r: Request): HttpRequest {
    match r
    case Renewal(access, refresh) =>
      HttpRequest("POST", TOKEN_PATH,
                  Some([JsonText.Member("grant_type", "refresh_token"), JsonText.Member("refresh_token", refresh)]),
                  Some(access))
    case Inventory(page, access) => HttpRequest("GET", INVENTORY_PATH + Decimal(page), None, Some(access))
    case Switch(endpoint, on, access) => HttpRequest("POST", SwitchPath(endpoint, on), Some([]), Some(access))
  }

  /** The three requests in literals. In particular ON is the method "On" and OFF the method "Off", of the component of
      the device. */
  lemma RequestsInLiterals(access: Token, refresh: Token, page: Page, endpoint: G2Endpoint, on: bool)
    ensures Wire(Renewal(access, refresh))
         == HttpRequest("POST", "/v2/oauth2/token",
                        Some([JsonText.Member("grant_type", "refresh_token"),
                            JsonText.Member("refresh_token", refresh)]),
                        Some(access))
    ensures Wire(Inventory(page, access))
         == HttpRequest("GET", "/v2/devices?limit=100&page=" + Decimal(page), None, Some(access))
    ensures Wire(Switch(endpoint, on, access))
         == HttpRequest("POST", CommandPath(endpoint.localId, endpoint.componentId) + (if on then "On" else "Off"),
                        Some([]), Some(access))
  {
    CommandPathIsJoined(endpoint, on);
  }

  function CommandPath(device: string, component: string): string {
    "/v2/devices/" + device + "/comps/" + component + "/procs/OnOff/methods/"
  }

  lemma CommandPathIsJoined(endpoint: G2Endpoint, on: bool)
    ensures SwitchPath(endpoint, on)
         == CommandPath(endpoint.localId, endpoint.componentId) + (if on then "On" else "Off")
  {
    hide Join;
    var device, component, way := endpoint.localId, endpoint.componentId, if on then "On" else "Off";
    var root, comps, procs := ["", "v2", "devices"], ["comps"], ["procs", "OnOff", "methods"];
    assert SwitchParts(endpoint, on) == root + ([device] + (comps + ([component] + (procs + [way]))));
    RootIsJoined();
    ComponentsAreJoined();
    ProcessorsAreJoined();
    JoinOfOne(device, '/');
    JoinOfOne(component, '/');
    JoinOfOne(way, '/');
    JoinOfConcat(procs, [way], '/');
    JoinOfConcat([component], procs + [way], '/');
    JoinOfConcat(comps, [component] + (procs + [way]), '/');
    JoinOfConcat([device], comps + ([component] + (procs + [way])), '/');
    JoinOfConcat(root, [device] + (comps + ([component] + (procs + [way]))), '/');
    Flattened(Join(root, '/'), device, Join(comps, '/'), component, Join(procs, '/'), way,
              "/v2/devices/", "/comps/", "/procs/OnOff/methods/");
  }

  lemma RootIsJoined()
    ensures Join(["", "v2", "devices"], '/') + ['/'] == "/v2/devices/"
  {
    JoinOfThree("", "v2", "devices", '/');
  }

  lemma ComponentsAreJoined()
    ensures ['/'] + Join(["comps"], '/') + ['/'] == "/comps/"
  {
  }

  lemma ProcessorsAreJoined()
    ensures ['/'] + Join(["procs", "OnOff", "methods"], '/') + ['/'] == "/procs/OnOff/methods/"
  {
    JoinOfThree("procs", "OnOff", "methods", '/');
  }

  lemma Flattened(root: string, device: string, comps: string, component: string, procs: string, way: string,
                  lead: string, middle: string, end: string)
    requires root + ['/'] == lead && ['/'] + comps + ['/'] == middle && ['/'] + procs + ['/'] == end
    ensures root + ['/'] + (device + ['/'] + (comps + ['/'] + (component + ['/'] + (procs + ['/'] + way))))
         == lead + device + middle + component + end + way
  {
  }

  // ---- validation before a connection is opened ----

  predicate IsPageNumber(s: string) {
    s == "100" || (1 <= |s| <= 2 && s[0] != '0' && forall c | c in s :: IsDigit(c))
  }

  predicate IsInventoryPath(path: string) {
    INVENTORY_PATH <= path && IsPageNumber(path[|INVENTORY_PATH|..])
  }

  predicate AreSwitchParts(p: seq<string>) {
    && |p| == 10 && p[0] == "" && p[1] == "v2" && p[2] == "devices" && IsSegment(p[3]) && p[4] == "comps"
    && IsSegment(p[5]) && p[6] == "procs" && p[7] == "OnOff" && p[8] == "methods" && (p[9] == "On" || p[9] == "Off")
  }

  predicate IsSwitchPath(path: string) {
    AreSwitchParts(Split(path, '/'))
  }

  /** `_validate_route`. */
  predicate ValidRoute(verb: string, path: string) {
    && '\r' !in path && '\n' !in path && '#' !in path
    && (|| (verb == "GET" && (path == "/v2/ping" || IsInventoryPath(path)))
        || (verb == "POST" && (path == TOKEN_PATH || IsSwitchPath(path))))
  }

  function BodyValue(members: seq<JsonText.Member>): Value {
    Obj(seq(|members|, i requires 0 <= i < |members| => Name(members[i].name)),
        seq(|members|, i requires 0 <= i < |members| => Str(members[i].text)))
  }

  /** `_request_body`: no body on GET; on POST an acceptable JSON object of bounded size. */
  predicate ValidBody(verb: string, body: Option<seq<JsonText.Member>>) {
    if verb == "GET" then body.None?
    else body.Some? && Acceptable(BodyValue(body.value), 0) && |JsonText.Dump(body.value)| <= MAX_REQUEST_BYTES
  }

  /** Everything `request` checks before it connects. */
  predicate Valid(h: HttpRequest) {
    && ValidRoute(h.verb, h.path)
    && ValidBody(h.verb, h.body)
    && (h.credential.Some? ==> ValidToken(h.credential.value))
  }

  lemma SwitchPartsSplit(endpoint: G2Endpoint, on: bool)
    ensures Split(SwitchPath(endpoint, on), '/') == SwitchParts(endpoint, on)
  {
    SplitOfJoin(SwitchParts(endpoint, on), '/');
  }

  predicate Tame(s: string) {
    '\r' !in s && '\n' !in s && '#' !in s
  }

  lemma {:induction false} JoinIsTame(parts: seq<string>)
    requires forall i | 0 <= i < |parts| :: Tame(parts[i])
    ensures Tame(Join(parts, '/'))
  {
    if |parts| > 1 {
      JoinIsTame(parts[1..]);
      var a, b := parts[0], Join(parts[1..], '/');
      assert Tame(a) && Tame(b);
    } else if |parts| == 1 {
      assert Tame(parts[0]);
    }
  }

  /** The POST routes are exactly the renewal path and the On/Off paths of well-formed endpoints. */
  lemma SwitchPathIsExact(path: string)
    ensures IsSwitchPath(path) <==> exists endpoint, on :: path == SwitchPath(endpoint, on)
  {
    if IsSwitchPath(path) {
      var p := Split(path, '/');
      var endpoint := G2Endpoint(p[3], "0000000000000000", p[5]);
      assert p == SwitchParts(endpoint, p[9] == "On");
      assert path == SwitchPath(endpoint, p[9] == "On");
    }
    if endpoint, on :| path == SwitchPath(endpoint, on) {
      SwitchPartsSplit(endpoint, on);
    }
  }

  lemma PageNumberIsValid(page: Page)
    ensures IsPageNumber(Decimal(page)) && Tame(Decimal(page))
  {
    if page == 100 {
      HundredIsValid();
    } else if page >= 10 {
      assert Decimal(page / 10) == [Digit(page / 10)];
    }
  }

  lemma HundredIsValid()
    ensures Decimal(100) == "100"
  {
    assert Decimal(10) == [Digit(1)] + [Digit(0)];
    assert Decimal(100) == Decimal(10) + [Digit(0)];
  }

  lemma InventoryPathIsTame()
    ensures Tame(INVENTORY_PATH)
  {
  }

  lemma InventoryRouteIsValid(page: Page)
    ensures IsInventoryPath(INVENTORY_PATH + Decimal(page)) && Tame(INVENTORY_PATH + Decimal(page))
  {
    hide IsPageNumber, Decimal;
    PageNumberIsValid(page);
    InventoryPathIsTame();
    assert (INVENTORY_PATH + Decimal(page))[|INVENTORY_PATH|..] == Decimal(page);
  }

  lemma SwitchPathIsTame(endpoint: G2Endpoint, on: bool)
    ensures Tame(SwitchPath(endpoint, on))
  {
    var p := SwitchParts(endpoint, on);
    FixedPartsAreTame();
    assert Tame(p[3]) && Tame(p[5]);
    hide Tame, Join;
    JoinIsTame(p);
  }

  lemma FixedPartsAreTame()
    ensures Tame("") && Tame("v2") && Tame("devices") && Tame("comps") && Tame("procs") && Tame("OnOff")
    ensures Tame("methods") && Tame("On") && Tame("Off")
  {
  }

  lemma SwitchRouteIsValid(endpoint: G2Endpoint, on: bool)
    ensures IsSwitchPath(SwitchPath(endpoint, on)) && Tame(SwitchPath(endpoint, on))
  {
    SwitchPathIsTame(endpoint, on);
    SwitchPartsSplit(endpoint, on);
  }

  lemma RouteIsValid(r: Request)
    ensures ValidRoute(Wire(r).verb, Wire(r).path)
  {
    if r.Renewal? {
      assert Tame(TOKEN_PATH);
    } else if r.Inventory? {
      InventoryRouteIsValid(r.page);
    } else {
      SwitchRouteIsValid(r.endpoint, r.on);
    }
  }

  lemma {:induction false} StringsAreAcceptable(items: seq<Value>)
    requires forall i | 0 <= i < |items| :: items[i].Str?
    ensures NodesOf(items) == |items|
    ensures HeightOf(items) == 0
  {
    if items != [] {
      StringsAreAcceptable(items[..|items| - 1]);
    }
  }

  lemma BodyIsAcceptable(members: seq<JsonText.Member>)
    requires |members| <= 2
    ensures Acceptable(BodyValue(members), 0)
  {
    StringsAreAcceptable(BodyValue(members).items);
  }

  lemma BodyIsValid(r: Request)
    ensures ValidBody(Wire(r).verb, Wire(r).body)
  {
    if r.Renewal? {
      BodyIsAcceptable(Wire(r).body.value);
      RenewalBodySize(r.refreshToken);
    } else if r.Switch? {
      BodyIsAcceptable([]);
    }
  }

  lemma RenewalBodySize(refresh: Token)
    ensures |JsonText.Dump([JsonText.Member("grant_type", "refresh_token"), JsonText.Member("refresh_token", refresh)])|
         <= 2 * |refresh| + 100
  {
    var a, b := JsonText.Member("grant_type", "refresh_token"), JsonText.Member("refresh_token", refresh);
    JsonText.QuoteSize(a.name);
    JsonText.QuoteSize(a.text);
    JsonText.QuoteSize(b.name);
    JsonText.QuoteSize(b.text);
    hide JsonText.Quote, JsonText.Escape, JsonText.Escapes;
    assert [a, b][1..] == [b];
    assert |JsonText.DumpMembers([b])| == |JsonText.DumpMember(b)|;
  }

  /** No request that the client can make is refused before it is sent, token length and escaping included. */
  lemma ClientRequestsAreValid(r: Request)
    ensures Valid(Wire(r))
  {
    RouteIsValid(r);
    BodyIsValid(r);
  }

  lemma TokenPathIsNoSwitch()
    ensures !IsSwitchPath(TOKEN_PATH)
  {
    var p := Split(TOKEN_PATH, '/');
    assert TOKEN_PATH == Join(p, '/') && TOKEN_PATH[4] == 'o';
    if AreSwitchParts(p) {
      JoinHead(p);
    }
  }

  lemma SwitchPathNamesTarget(a: G2Endpoint, on: bool, b: G2Endpoint, off: bool)
    requires SwitchPath(a, on) == SwitchPath(b, off)
    ensures on == off && a.localId == b.localId && a.componentId == b.componentId
  {
    SwitchPartsSplit(a, on);
    SwitchPartsSplit(b, off);
    var p, q := SwitchParts(a, on), SwitchParts(b, off);
    assert p[3] == q[3] && p[5] == q[5] && |p[9]| == |q[9]|;
  }

  /** The wire form alone tells a command apart from a renewal or an inventory read, and it names the
      device, component and direction that were meant. */
  lemma CommandsAreRecognisable(r: Request, s: Request)
    ensures Wire(r).verb == "POST" && IsSwitchPath(Wire(r).path) <==> r.Switch?
    ensures r.Switch? && Wire(s) == Wire(r) ==>
              && s.Switch? && s.on == r.on && s.accessToken == r.accessToken
              && s.endpoint.localId == r.endpoint.localId && s.endpoint.componentId == r.endpoint.componentId
  {
    TokenPathIsNoSwitch();
    assert "GET"[0] != "POST"[0];
    if r.Switch? {
      SwitchRouteIsValid(r.endpoint, r.on);
      if s.Switch? && Wire(s) == Wire(r) {
        SwitchPathNamesTarget(r.endpoint, r.on, s.endpoint, s.on);
      }
    }
  }

  lemma JoinHead(p: seq<string>)
    requires |p| >= 3 && p[0] == "" && p[1] == "v2" && p[2] == "devices"
    ensures |Join(p, '/')| > 4 && Join(p, '/')[4] == 'd'
  {
    assert p[1..][1..] == p[2..];
    var tail := Join(p[2..], '/');
    assert tail[0] == 'd';
    assert Join(p[1..], '/') == "v2" + ['/'] + tail;
    assert Join(p, '/') == "" + ['/'] + Join(p[1..], '/');
  }

  // ---- one exchange ----

  datatype Phase = Done | TimedOut | Failed

  /** What the network and the gateway do during one request, phase by phase. */
  datatype Exchange = Exchange(
    connect: Phase, socket: bool, pinMatches: bool, timeToSend: bool,
    send: Phase, timeToWait: bool, reply: Phase,
    status: int, contentTypeValid: bool, timeToRead: bool, read: Phase, size: nat, json: Decoded)

  /** What decoding a response body comes to: a value, a decode error or another ValueError, or a RecursionError. */
  datatype Decoded = Parsed(value: Value) | Malformed | TooDeep

  /** The exceptions of the backend: ValidationError, G2ResponseError and G2TransportError, which are RescueErrors,
      and any exception that is not one. A G2ResponseError always carries request_started=True. */
  datatype Error = Validation | Response(status: Option<int>) | Transport(started: bool) | Uncaught

  /** Request bytes may have left the machine. */
  predicate Submitted(x: Exchange) {
    x.connect.Done? && x.socket && x.pinMatches && x.timeToSend
  }

  /** The gateway's HTTP answer arrived. */
  predicate Answered(x: Exchange) {
    Submitted(x) && x.send.Done? && x.timeToWait && x.reply.Done?
  }

  /** A complete body of bounded size was received with a success status and the right content type. */
  predicate Received(x: Exchange) {
    && Answered(x) && 200 <= x.status < 300 && x.contentTypeValid && x.timeToRead && x.read.Done?
    && x.size <= MAX_RESPONSE_BYTES
  }

  /** The body was an acceptable JSON object. */
  predicate Delivered(x: Exchange) {
    Received(x) && x.json.Parsed? && x.json.value.Obj? && Acceptable(x.json.value, 0)
  }

  /** The body nested too deeply for the JSON reader. */
  predicate Overwhelms(x: Exchange) {
    Received(x) && x.json.TooDeep?
  }

  /** How `request` reports an exchange. */
  function Outcome(x: Exchange): (r: Result<Value, Error>)
    ensures r.Success? ==> r.value.Obj?
  {
    if !Submitted(x) then Failure(Transport(false))
    else if !Answered(x) then Failure(Transport(true))
    else if !(200 <= x.status < 300) || !x.contentTypeValid then Failure(Response(Some(x.status)))
    else if !x.timeToRead || !x.read.Done? then Failure(Transport(true))
    else if Overwhelms(x) then Failure(Uncaught)
    else if !Delivered(x) then Failure(Response(Some(x.status)))
    else Success(x.json.value)
  }

  /** `_parse_response`. */
  method ParseResponse(x: Exchange) returns (r: Result<Value, Error>)
    requires Answered(x)
    ensures r == Outcome(x)
  {
    if x.status < 200 || x.status >= 300 {
      return Failure(Response(Some(x.status)));
    }
    if !x.contentTypeValid {
      return Failure(Response(Some(x.status)));
    }
    if !x.timeToRead || x.read != Done {
      return Failure(Transport(true));
    }
    if x.size > MAX_RESPONSE_BYTES {
      return Failure(Response(Some(x.status)));
    }
    if x.json.TooDeep? {
      return Failure(Uncaught);
    }
    if x.json.Malformed? {
      return Failure(Response(Some(x.status)));
    }
    var count := JsonValue(x.json.value, 0);
    if count.None? || !x.json.value.Obj? {
      return Failure(Response(Some(x.status)));
    }
    return Success(x.json.value);
  }

  /** The phases of `request` from connecting on, with its `request_started` flag. */
  method Perform(x: Exchange) returns (r: Result<Value, Error>)
    ensures r == Outcome(x)
  {
    var requestStarted := false;
    if x.connect != Done || !x.socket || !x.pinMatches || !x.timeToSend {
      return Failure(Transport(requestStarted));
    }
    requestStarted := true;
    if x.send != Done || !x.timeToWait || x.reply != Done {
      return Failure(Transport(requestStarted));
    }
    r := ParseResponse(x);
  }

  /** The failure says truthfully whether anything was submitted, and success means a delivered object. */
  lemma OutcomeIsSound(x: Exchange)
    ensures Outcome(x) == Failure(Transport(false)) <==> !Submitted(x)
    ensures Outcome(x).Success? <==> Delivered(x)
    ensures Outcome(x).Failure? && Outcome(x).error.Response? ==>
              Answered(x) && Outcome(x).error.status == Some(x.status)
    ensures !(200 <= x.status < 300) ==> (Outcome(x) == Failure(Response(Some(x.status))) <==> Answered(x))
    ensures Outcome(x) == Failure(Uncaught) <==> Overwhelms(x)
    ensures Outcome(x) != Failure(Validation)
  {
  }

  // ---- the recorded history ----

  /** What the model remembers of the past: requests handed to the network, and sessions read from
      or committed to the session file. */
  datatype Event = Sent(request: Request) | Loaded(session: LocalSession) | Committed(session: LocalSession)

  /** An arbitrary network and gateway: its next exchange may depend on everything that happened. */
  type Gateway = seq<Event> -> Exchange

  function Send(gateway: Gateway, trace: seq<Event>, r: Request): (seq<Event>, Result<Value, Error>)
  {
    if !Valid(Wire(r)) then (trace, Failure(Validation))
    else (trace + [Sent(r)], Outcome(gateway(trace + [Sent(r)])))
  }

  /** The shared record of what happened, in order. */
  class Journal {
    var events: seq<Event>

    constructor ()
      ensures events == []
    {
      events := [];
    }
  }

  /** `PinnedG2Transport`: one-shot requests over an arbitrary network. */
  class PinnedG2Transport {
    const gateway: Gateway
    const journal: Journal

    constructor (gateway: Gateway, journal: Journal)
      ensures this.gateway == gateway && this.journal == journal
    {
      this.gateway := gateway;
      this.journal := journal;
    }

    method Request(r: Request) returns (reply: Result<Value, Error>)
      modifies journal
      ensures (journal.events, reply) == Send(gateway, old(journal.events), r)
      ensures reply.Success? ==> reply.value.Obj?
    {
      var h := Wire(r);
      if !Valid(h) {
        return Failure(Validation);
      }
      journal.events := journal.events + [Sent(r)];
      reply := Perform(gateway(journal.events));
    }
  }
}
