/** MQTT topic layout and on/off payloads (mqtt/topics.py). */
module Topics {
  import opened Wrappers
  import opened Text
  import opened Identity

  datatype TopicLayout = TopicLayout(topicPrefix: string, discoveryPrefix: string, statusTopic: string)

  /** Every topic the bridge generates, before it is printed. */
  datatype Topic =
    | BridgeAvailability
    | DeviceAvailability(device: DeviceId)
    | CommandTopic(address: Address)
    | StateTopic(address: Address)
    | ConfidenceTopic(address: Address)
    | LastCommandTopic(address: Address)
    | DiscoveryTopic(device: DeviceId)
  {
    function Parts(): (parts: seq<string>)
      ensures parts != []
    {
      match this
      case BridgeAvailability => ["bridge", "availability"]
      case DeviceAvailability(d) => [d, "availability"]
      case CommandTopic(a) => AddressParts(a) + ["command"]
      case StateTopic(a) => AddressParts(a) + ["state"]
      case ConfidenceTopic(a) => AddressParts(a) + ["confidence"]
      case LastCommandTopic(a) => AddressParts(a) + ["last-command"]
      case DiscoveryTopic(d) => ["device", "smartenit_rescue_" + d, "config"]
    }
  }

  function AddressParts(a: Address): seq<string> {
    [a.deviceId, Decimal(a.endpoint), a.capability.Name()]
  }

  function Prefix(layout: TopicLayout, topic: Topic): string {
    if topic.DiscoveryTopic? then layout.discoveryPrefix else layout.topicPrefix
  }

  /** The topic string that goes on the wire. */
  function Render(layout: TopicLayout, topic: Topic): string {
    Prefix(layout, topic) + ['/'] + Join(topic.Parts(), '/')
  }

  predicate IsWildcard(c: char) {
    c == '+' || c == '#' || c == '\0'
  }

  /** A prefix that a topic name may contain: no wildcard and no NUL. */
  predicate Clean(s: string) {
    forall c | c in s :: !IsWildcard(c)
  }

  function ParseEndpoint(raw: string): Option<EndpointId>
  {
    if |raw| > 3 || raw == "" || exists c | c in raw :: !IsDigit(c) then None
    else if !(1 <= Number(raw) <= 240) || Decimal(Number(raw)) != raw then None
    else Some(Number(raw))
  }

  function ParseParts(parts: seq<string>): Option<Address>
  {
    if |parts| != 4 || parts[2] != OnOff.Name() || parts[3] != "command" then None
    else
      match (ParseDeviceId(parts[0]), ParseEndpoint(parts[1]))
      case (Some(device), Some(endpoint)) =>
        if device == parts[0] then Some(Address(device, endpoint, OnOff)) else None
      case _ => None
  }

  /** `TopicLayout.parse_command_topic`. */
  function ParseCommandTopic(layout: TopicLayout, topic: string): Option<Address>
  {
    var lead := layout.topicPrefix + ['/'];
    if !(lead <= topic) || !Clean(topic) then None
    else ParseParts(Split(topic[|lead|..], '/'))
  }

  function EncodeOnOff(value: bool): string {
    if value then "ON" else "OFF"
  }

  /** `decode_on_off`; None stands for its ValidationError. */
  function DecodeOnOff(payload: string): Option<bool> {
    if payload == "ON" then Some(true) else if payload == "OFF" then Some(false) else None
  }

  lemma OnOffRoundTrip(payload: string, value: bool)
    ensures DecodeOnOff(payload) == Some(value) <==> payload == EncodeOnOff(value)
  {
    assert "ON" != "OFF" by { assert |"ON"| != |"OFF"|; }
  }

  // ---- the names in literals ----

  lemma BridgeNamesInLiterals(layout: TopicLayout, d: DeviceId)
    ensures Render(layout, BridgeAvailability) == layout.topicPrefix + "/" + ("bridge" + "/" + "availability")
    ensures Render(layout, DeviceAvailability(d)) == layout.topicPrefix + "/" + (d + "/" + "availability")
  {
    hide Join;
    JoinOfTwo("bridge", "availability", '/');
    JoinOfTwo(d, "availability", '/');
  }

  lemma DiscoveryNameInLiterals(layout: TopicLayout, d: DeviceId)
    ensures Render(layout, DiscoveryTopic(d))
         == layout.discoveryPrefix + "/" + ("device" + "/" + (("smartenit_rescue_" + d) + "/" + "config"))
  {
    hide Join;
    JoinOfThree("device", "smartenit_rescue_" + d, "config", '/');
  }

  /** The four topics of an on/off address: `prefix/device/endpoint/on_off/kind`. */
  lemma AddressNamesInLiterals(layout: TopicLayout, d: DeviceId, endpoint: EndpointId)
    ensures var a := Address(d, endpoint, OnOff);
            && Render(layout, CommandTopic(a)) == AddressName(layout, d, endpoint, "command")
            && Render(layout, StateTopic(a)) == AddressName(layout, d, endpoint, "state")
            && Render(layout, ConfidenceTopic(a)) == AddressName(layout, d, endpoint, "confidence")
            && Render(layout, LastCommandTopic(a)) == AddressName(layout, d, endpoint, "last-command")
  {
    hide Join, AddressName, Decimal, AddressParts;
    AddressNameIsJoined(layout, d, endpoint, "command");
    AddressNameIsJoined(layout, d, endpoint, "state");
    AddressNameIsJoined(layout, d, endpoint, "confidence");
    AddressNameIsJoined(layout, d, endpoint, "last-command");
  }

  function AddressName(layout: TopicLayout, d: DeviceId, endpoint: EndpointId, kind: string): string {
    layout.topicPrefix + "/" + (d + "/" + (Decimal(endpoint) + "/" + ("on_off" + "/" + kind)))
  }

  lemma AddressNameIsJoined(layout: TopicLayout, d: DeviceId, endpoint: EndpointId, kind: string)
    ensures layout.topicPrefix + ['/'] + Join(AddressParts(Address(d, endpoint, OnOff)) + [kind], '/')
         == AddressName(layout, d, endpoint, kind)
  {
    hide Join, Decimal;
    assert AddressParts(Address(d, endpoint, OnOff)) + [kind] == [d, Decimal(endpoint), "on_off", kind];
    JoinOfFour(d, Decimal(endpoint), "on_off", kind, '/');
  }

  lemma NamesAreDistinct(c: CapabilityId, d: CapabilityId)
    requires c.Name() == d.Name()
    ensures c == d
  {
    assert |c.Name()| == |d.Name()|;
    assert c.Name()[0] == d.Name()[0];
    assert c.Name()[1] == d.Name()[1];
    assert c.Name()[|c.Name()| - 1] == d.Name()[|d.Name()| - 1];
    assert |c.Name()| > 12 ==> c.Name()[11] == d.Name()[11];
  }

  lemma AddressPartsHaveNoSeparator(a: Address)
    ensures forall p | p in AddressParts(a) :: '/' !in p
  {
    hide Decimal, CapabilityId.Name;
    NoSeparatorInDevice(a.deviceId);
    NoSeparatorInDecimal(a.endpoint);
    NoSeparatorInName(a.capability);
  }

  lemma NoSeparatorInDevice(d: DeviceId)
    ensures '/' !in d
  {
  }

  lemma NoSeparatorInDecimal(n: nat)
    ensures '/' !in Decimal(n)
  {
  }

  lemma NoSeparatorInName(c: CapabilityId)
    ensures '/' !in c.Name()
  {
  }

  lemma PartsHaveNoSeparator(topic: Topic)
    ensures forall p | p in topic.Parts() :: '/' !in p
  {
    match topic
    case BridgeAvailability =>
    case DeviceAvailability(d) => assert '/' !in d;
    case DiscoveryTopic(d) => assert '/' !in d;
    case CommandTopic(a) => AddressPartsHaveNoSeparator(a);
    case StateTopic(a) => AddressPartsHaveNoSeparator(a);
    case ConfidenceTopic(a) => AddressPartsHaveNoSeparator(a);
    case LastCommandTopic(a) => AddressPartsHaveNoSeparator(a);
  }

  lemma AddressPartsInjective(a: Address, b: Address)
    requires AddressParts(a) == AddressParts(b)
    ensures a == b
  {
    assert AddressParts(a)[0] == AddressParts(b)[0];
    assert AddressParts(a)[1] == AddressParts(b)[1];
    assert AddressParts(a)[2] == AddressParts(b)[2];
    DecimalInjective(a.endpoint, b.endpoint);
    NamesAreDistinct(a.capability, b.capability);
  }

  lemma PartsInjective(s: Topic, t: Topic)
    requires s.Parts() == t.Parts()
    ensures s == t
  {
    LastPartTellsKind(s, t);
    if s.DeviceAvailability? || s.BridgeAvailability? {
      assert s.Parts()[0] == t.Parts()[0];
    } else if s.DiscoveryTopic? {
      var lead := "smartenit_rescue_";
      assert s.Parts()[1][|lead|..] == s.device;
      assert t.Parts()[1][|lead|..] == t.device;
    } else {
      assert s.Parts()[..3] == AddressParts(s.address);
      assert t.Parts()[..3] == AddressParts(t.address);
      AddressPartsInjective(s.address, t.address);
    }
  }

  /** The last topic level identifies the kind of topic, except for the two availability kinds. */
  lemma LastPartTellsKind(s: Topic, t: Topic)
    requires Last(s.Parts()) == Last(t.Parts())
    ensures s.CommandTopic? == t.CommandTopic?
    ensures s.StateTopic? == t.StateTopic?
    ensures s.ConfidenceTopic? == t.ConfidenceTopic?
    ensures s.LastCommandTopic? == t.LastCommandTopic?
    ensures s.DiscoveryTopic? == t.DiscoveryTopic?
    ensures s.Parts() == t.Parts() ==> s.BridgeAvailability? == t.BridgeAvailability?
  {
    var p, q := Last(s.Parts()), Last(t.Parts());
    assert |p| == |q|;
    assert p[0] == q[0] && p[2] == q[2];
    if s.BridgeAvailability? && t.DeviceAvailability? {
      assert |s.Parts()[0]| != |t.Parts()[0]|;
    }
    if t.BridgeAvailability? && s.DeviceAvailability? {
      assert |s.Parts()[0]| != |t.Parts()[0]|;
    }
  }

  function Last(parts: seq<string>): string
    requires parts != []
  {
    parts[|parts| - 1]
  }

  lemma SplitOfRender(layout: TopicLayout, topic: Topic)
    ensures Split(Render(layout, topic), '/') == Split(Prefix(layout, topic), '/') + topic.Parts()
  {
    PartsHaveNoSeparator(topic);
    SplitOfJoin(topic.Parts(), '/');
    SplitOfConcat(Prefix(layout, topic), Join(topic.Parts(), '/'), '/');
  }

  /** Distinct topics are printed differently, whatever the two prefixes are. */
  lemma RenderInjective(layout: TopicLayout, s: Topic, t: Topic)
    ensures Render(layout, s) == Render(layout, t) <==> s == t
  {
    if Render(layout, s) == Render(layout, t) {
      SplitOfRender(layout, s);
      SplitOfRender(layout, t);
      var all := Split(Render(layout, s), '/');
      assert Last(s.Parts()) == Last(all) == Last(t.Parts());
      LastPartTellsKind(s, t);
      var lead := Split(Prefix(layout, s), '/');
      assert Prefix(layout, s) == Prefix(layout, t);
      assert s.Parts() == all[|lead|..] == t.Parts();
      PartsInjective(s, t);
    }
  }

  lemma EndpointRoundTrip(raw: string, endpoint: EndpointId)
    ensures ParseEndpoint(raw) == Some(endpoint) <==> raw == Decimal(endpoint)
  {
    if raw == Decimal(endpoint) {
      DecimalLength(endpoint, 3);
    }
  }

  lemma {:induction false} DecimalLength(n: nat, width: nat)
    requires n < Pow10(width) && width > 0
    ensures |Decimal(n)| <= width
  {
    if n >= 10 {
      DecimalLength(n / 10, width - 1);
    }
  }

  lemma PartsRoundTrip(parts: seq<string>, a: Address)
    ensures ParseParts(parts) == Some(a) <==> a.capability == OnOff && parts == CommandTopic(a).Parts()
  {
    if |parts| == 4 {
      CanonicalParses(a.deviceId);
      EndpointRoundTrip(parts[1], a.endpoint);
      if ParseParts(parts) == Some(a) {
        assert parts == [parts[0], parts[1], parts[2], parts[3]];
      }
    }
  }

  /** No character of a generated suffix is a wildcard, so cleanliness rests on the prefix alone. */
  lemma SuffixIsClean(a: Address)
    requires a.capability == OnOff
    ensures Clean(Join(CommandTopic(a).Parts(), '/'))
  {
    var parts := CommandTopic(a).Parts();
    assert Clean(a.deviceId) && Clean(Decimal(a.endpoint)) && Clean("on_off") && Clean("command");
    assert forall p | p in parts :: Clean(p);
    JoinIsClean(parts);
  }

  lemma {:induction false} JoinIsClean(parts: seq<string>)
    requires forall p | p in parts :: Clean(p)
    ensures Clean(Join(parts, '/'))
  {
    if |parts| > 1 {
      JoinIsClean(parts[1..]);
      assert Clean(parts[0]) && Clean(Join(parts[1..], '/'));
    } else if |parts| == 1 {
      assert Clean(parts[0]);
    }
  }

  // ---- subscriptions ----

  /** Level by level, `+` stands for one level and a final `#` for any number of them. */
  predicate LevelsMatch(filter: seq<string>, topic: seq<string>) {
    if filter == [] then topic == []
    else if filter[0] == "#" then |filter| == 1
    else topic != [] && (filter[0] == "+" || filter[0] == topic[0]) && LevelsMatch(filter[1..], topic[1..])
  }

  /** The topics that a subscription selects (MQTT 5.0, section 4.7): a leading wildcard selects no topic of the
      broker's own, whose names begin with a dollar sign. */
  predicate Selects(filter: string, topic: string) {
    && LevelsMatch(Split(filter, '/'), Split(topic, '/'))
    && !(filter != "" && (filter[0] == '+' || filter[0] == '#') && topic != "" && topic[0] == '$')
  }

  lemma {:induction false} PartsAreClean(parts: seq<string>)
    requires Clean(Join(parts, '/'))
    ensures forall p | p in parts :: Clean(p)
  {
    if |parts| > 1 {
      var tail := Join(parts[1..], '/');
      assert Join(parts, '/') == parts[0] + ['/'] + tail;
      assert forall c | c in parts[0] || c in tail :: c in Join(parts, '/');
      PartsAreClean(parts[1..]);
    }
  }

  lemma {:induction false} CleanLevelsMatch(filter: seq<string>, topic: seq<string>)
    requires forall p | p in filter :: Clean(p)
    ensures LevelsMatch(filter, topic) <==> filter == topic
  {
    if filter != [] {
      assert Clean(filter[0]);
      assert !Clean("+") && !Clean("#") by { assert '+' in "+" && '#' in "#"; }
      if topic != [] {
        CleanLevelsMatch(filter[1..], topic[1..]);
        assert filter == [filter[0]] + filter[1..] && topic == [topic[0]] + topic[1..];
      }
    }
  }

  /** A filter without wildcards selects the topic of the same name and no other. */
  lemma CleanSelectsItself(filter: string, topic: string)
    requires Clean(filter)
    ensures Selects(filter, topic) <==> filter == topic
  {
    hide Join, Split;
    PartsAreClean(Split(filter, '/'));
    CleanLevelsMatch(Split(filter, '/'), Split(topic, '/'));
    if filter != "" {
      assert filter[0] in filter;
    }
  }

  lemma CommandNameIsClean(layout: TopicLayout, a: Address)
    requires Clean(layout.topicPrefix) && a.capability == OnOff
    ensures Clean(Render(layout, CommandTopic(a)))
  {
    hide Join;
    SuffixIsClean(a);
  }

  /** The command-topic parser inverts the printer on exactly the on/off addresses, and it does so
      if and only if the configured prefix is free of wildcards and NUL. */
  lemma CommandTopicRoundTrip(layout: TopicLayout, topic: string, a: Address)
    ensures ParseCommandTopic(layout, topic) == Some(a)
       <==> Clean(layout.topicPrefix) && a.capability == OnOff && topic == Render(layout, CommandTopic(a))
  {
    var lead := layout.topicPrefix + ['/'];
    var target := Render(layout, CommandTopic(a));
    if ParseCommandTopic(layout, topic) == Some(a) {
      var suffix := topic[|lead|..];
      PartsRoundTrip(Split(suffix, '/'), a);
      assert topic == lead + suffix == target;
      assert forall c | c in layout.topicPrefix :: c in topic;
    }
    if Clean(layout.topicPrefix) && a.capability == OnOff && topic == target {
      SuffixIsClean(a);
      PartsHaveNoSeparator(CommandTopic(a));
      SplitOfJoin(CommandTopic(a).Parts(), '/');
      assert topic[|lead|..] == Join(CommandTopic(a).Parts(), '/');
      PartsRoundTrip(CommandTopic(a).Parts(), a);
    }
  }
}
