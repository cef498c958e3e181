/** The component map of a Home Assistant discovery document (mqtt/discovery.py). */
module Discovery {
  import opened Wrappers
  import opened Text
  import opened Identity
  import opened Topics
  import opened Model
  import opened Runtime

  datatype Kind = SwitchEntity | ConfidenceEntity | OnButton | OffButton | LastCommandEntity {
    function Suffix(): string {
      match this
      case SwitchEntity => ""
      case ConfidenceEntity => "_confidence"
      case OnButton => "_on"
      case OffButton => "_off"
      case LastCommandEntity => "_last_command"
    }
  }

  /** One entry of the component map: its kind, the topics it advertises and the payloads it commands with. */
  datatype Component = Component(kind: Kind, commandTopic: Option<Topic>, payloads: set<string>,
                                 stateTopic: Option<Topic>)

  const LEAD := "smartenit_rescue_"

  function ComponentId(id: DeviceId, endpoint: EndpointId, kind: Kind): string {
    LEAD + id + "_" + Decimal(endpoint) + "_" + OnOff.Name() + kind.Suffix()
  }

  /** The entities of a capability: a switch with its confidence, or two buttons with a diagnostic. */
  predicate Has(mode: Mode, kind: Kind) {
    match mode
    case Observable => kind == SwitchEntity || kind == ConfidenceEntity
    case CommandOnly => kind == OnButton || kind == OffButton || kind == LastCommandEntity
  }

  function ComponentOf(a: Address, kind: Kind): Component {
    match kind
    case SwitchEntity => Component(kind, Some(CommandTopic(a)), {"ON", "OFF"}, Some(StateTopic(a)))
    case ConfidenceEntity => Component(kind, None, {}, Some(ConfidenceTopic(a)))
    case OnButton => Component(kind, Some(CommandTopic(a)), {"ON"}, None)
    case OffButton => Component(kind, Some(CommandTopic(a)), {"OFF"}, None)
    case LastCommandEntity => Component(kind, None, {}, Some(LastCommandTopic(a)))
  }

  // ---- identifiers do not collide ----

  lemma {:induction false} DigitsEnd(a: string, b: string, x: string, y: string)
    requires forall c | c in a :: IsDigit(c)
    requires forall c | c in b :: IsDigit(c)
    requires a + ['_'] + x == b + ['_'] + y
    ensures a == b && x == y
  {
    UnderscoreIsFirst(a, x, b, y);
    UnderscoreIsFirst(b, y, a, x);
    var s := a + ['_'] + x;
    assert a == s[..|a|] == b;
    assert x == s[|a| + 1..] == y;
  }

  /** A text of digits before an underscore is no shorter than another such text of the same string. */
  lemma UnderscoreIsFirst(a: string, x: string, b: string, y: string)
    requires forall c | c in b :: IsDigit(c)
    requires a + ['_'] + x == b + ['_'] + y
    ensures |b| <= |a|
  {
    var s := a + ['_'] + x;
    assert s[|a|] == '_';
    forall i | 0 <= i < |b| ensures s[i] != '_' {
      assert s[i] == (b + ['_'] + y)[i] == b[i] && b[i] in b;
    }
  }

  lemma SuffixesDiffer(k: Kind, l: Kind)
    requires k.Suffix() == l.Suffix()
    ensures k == l
  {
    assert |k.Suffix()| == |l.Suffix()|;
  }

  /** The parts of an identifier: a fixed lead, a device id of fixed length, digits, and the rest. */
  lemma ComponentIdParts(lead: string, id: string, digits: string, rest: string, id': string, digits': string,
                         rest': string)
    requires |id| == |id'|
    requires forall c | c in digits :: IsDigit(c)
    requires forall c | c in digits' :: IsDigit(c)
    requires lead + id + ['_'] + digits + ['_'] + rest == lead + id' + ['_'] + digits' + ['_'] + rest'
    ensures id == id' && digits == digits' && rest == rest'
  {
    var s := lead + id + ['_'] + digits + ['_'] + rest;
    var n := |lead| + |id|;
    assert id == s[|lead|..n] && id' == s[|lead|..n];
    assert digits + ['_'] + rest == s[n + 1..] && digits' + ['_'] + rest' == s[n + 1..];
    DigitsEnd(digits, digits', rest, rest');
  }

  lemma ComponentIdShape(id: DeviceId, endpoint: EndpointId, kind: Kind)
    ensures ComponentId(id, endpoint, kind)
         == LEAD + id + ['_'] + Decimal(endpoint) + ['_'] + (OnOff.Name() + kind.Suffix())
  {
    hide Decimal, LEAD;
    var lead := LEAD;
    var digits, name, suffix := Decimal(endpoint), OnOff.Name(), kind.Suffix();
    assert "_" == ['_'];
    assert lead + id + ['_'] + digits + ['_'] + name + suffix == lead + id + ['_'] + digits + ['_'] + (name + suffix);
  }

  /** Component ids are distinct across devices, endpoints and kinds. */
  lemma ComponentIdInjective(id: DeviceId, endpoint: EndpointId, kind: Kind, id': DeviceId, endpoint': EndpointId,
                             kind': Kind)
    requires ComponentId(id, endpoint, kind) == ComponentId(id', endpoint', kind')
    ensures id == id' && endpoint == endpoint' && kind == kind'
  {
    hide ComponentId, Decimal, LEAD;
    var name := OnOff.Name();
    ComponentIdShape(id, endpoint, kind);
    ComponentIdShape(id', endpoint', kind');
    ComponentIdParts(LEAD, id, Decimal(endpoint), name + kind.Suffix(), id', Decimal(endpoint'), name + kind'.Suffix());
    DecimalInjective(endpoint, endpoint');
    assert kind.Suffix() == (name + kind.Suffix())[|name|..];
    assert kind'.Suffix() == (name + kind'.Suffix())[|name|..];
    SuffixesDiffer(kind, kind');
  }

  // ---- the loop ----

  /** The map holds exactly the components of the first capabilities, under their ids. */
  ghost predicate Holds(components: map<string, Component>, id: DeviceId, caps: seq<RuntimeCapability>) {
    && (forall key | key in components ::
          (exists c, k ::
             c in caps && c.capability == OnOff && Has(c.mode, k) && key == ComponentId(id, c.endpoint, k)))
    && (forall c, k | c in caps && c.capability == OnOff && Has(c.mode, k) ::
          && ComponentId(id, c.endpoint, k) in components
          && components[ComponentId(id, c.endpoint, k)] == ComponentOf(Address(id, c.endpoint, OnOff), k))
  }

  /** How many components the capabilities need. */
  function Needed(caps: seq<RuntimeCapability>): nat {
    if caps == [] then 0
    else
      var c := caps[|caps| - 1];
      Needed(caps[..|caps| - 1]) + if c.capability != OnOff then 0 else if c.mode == Observable then 2 else 3
  }

  /** The loop of `discovery_document` over the capabilities of a device, none of which repeats: two components for each
      observable on/off capability, three for each command-only one, and none overwrites another, even where one
      endpoint is offered in both modes. */
  method Components(device: RuntimeDevice) returns (components: map<string, Component>)
    requires forall i, j | 0 <= i < j < |device.capabilities| :: device.capabilities[i] != device.capabilities[j]
    ensures Holds(components, device.deviceId, device.capabilities)
    ensures |components| == Needed(device.capabilities)
  {
    hide ComponentId, ComponentOf, Holds;
    components := map[];
    var caps := device.capabilities;
    NothingHolds(device.deviceId);
    assert caps[..0] == [];
    for i := 0 to |caps|
      invariant Holds(components, device.deviceId, caps[..i])
      invariant |components| == Needed(caps[..i])
    {
      assert caps[..i + 1] == caps[..i] + [caps[i]];
      components := AddCapability(components, device.deviceId, caps[..i], caps[i]);
    }
    assert caps[..|caps|] == caps;
  }

  lemma NothingHolds(id: DeviceId)
    ensures Holds(map[], id, [])
  {
  }

  /** One turn of the loop: a new capability adds its components and disturbs none. */
  method AddCapability(before: map<string, Component>, id: DeviceId, ghost caps: seq<RuntimeCapability>,
                       c: RuntimeCapability)
    returns (components: map<string, Component>)
    requires Holds(before, id, caps) && |before| == Needed(caps)
    requires c !in caps
    ensures Holds(components, id, caps + [c]) && |components| == Needed(caps + [c])
  {
    hide ComponentId, ComponentOf, Holds, Adds;
    assert (caps + [c])[..|caps|] == caps;
    components := before;
    if c.capability == OnOff {
      var kinds := if c.mode == Observable then [SwitchEntity, ConfidenceEntity]
                   else [OnButton, OffButton, LastCommandEntity];
      forall k | k in kinds ensures ComponentId(id, c.endpoint, k) !in before {
        NewCapabilityIsNew(before, id, caps, c, k);
      }
      components := AddComponents(components, id, c.endpoint, kinds);
      HoldsMore(before, components, id, caps, c, kinds);
    } else {
      HoldsSame(components, id, caps, c);
    }
  }

  lemma NewCapabilityIsNew(components: map<string, Component>, id: DeviceId, caps: seq<RuntimeCapability>,
                           c: RuntimeCapability, k: Kind)
    requires Holds(components, id, caps)
    requires c !in caps && c.capability == OnOff && Has(c.mode, k)
    ensures ComponentId(id, c.endpoint, k) !in components
  {
    hide ComponentId, Holds, Has;
    if ComponentId(id, c.endpoint, k) in components {
      var d, l := HeldFor(components, id, caps, ComponentId(id, c.endpoint, k));
      ComponentIdInjective(id, c.endpoint, k, id, d.endpoint, l);
      OneModeHas(c.mode, d.mode, k);
    }
  }

  lemma HeldFor(components: map<string, Component>, id: DeviceId, caps: seq<RuntimeCapability>, key: string)
    returns (c: RuntimeCapability, k: Kind)
    requires Holds(components, id, caps) && key in components
    ensures c in caps && c.capability == OnOff && Has(c.mode, k) && key == ComponentId(id, c.endpoint, k)
  {
    hide ComponentId, ComponentOf, Has;
    c, k :| c in caps && c.capability == OnOff && Has(c.mode, k) && key == ComponentId(id, c.endpoint, k);
  }

  /** No kind of entity belongs to both modes. */
  lemma OneModeHas(m: Mode, n: Mode, k: Kind)
    requires Has(m, k) && Has(n, k)
    ensures m == n
  {
  }

  /** The id of an entity of one of these kinds. */
  ghost predicate IsIdOf(key: string, id: DeviceId, endpoint: EndpointId, kinds: seq<Kind>) {
    exists k :: k in kinds && key == ComponentId(id, endpoint, k)
  }

  lemma IdsOfMore(id: DeviceId, endpoint: EndpointId, kinds: seq<Kind>, kind: Kind)
    requires kind !in kinds
    ensures forall key :: IsIdOf(key, id, endpoint, kinds + [kind])
                          <==> IsIdOf(key, id, endpoint, kinds) || key == ComponentId(id, endpoint, kind)
    ensures !IsIdOf(ComponentId(id, endpoint, kind), id, endpoint, kinds)
  {
    hide ComponentId;
    forall k | k in kinds ensures ComponentId(id, endpoint, k) != ComponentId(id, endpoint, kind) {
      if ComponentId(id, endpoint, k) == ComponentId(id, endpoint, kind) {
        ComponentIdInjective(id, endpoint, k, id, endpoint, kind);
      }
    }
    forall key ensures IsIdOf(key, id, endpoint, kinds + [kind])
                       <==> IsIdOf(key, id, endpoint, kinds) || key == ComponentId(id, endpoint, kind)
    {
      assert forall k :: k in kinds + [kind] <==> k in kinds || k == kind;
    }
  }

  /** Nothing is lost, and exactly the entities of these kinds are added. */
  ghost predicate Adds(before: map<string, Component>, components: map<string, Component>, id: DeviceId,
                       endpoint: EndpointId, kinds: seq<Kind>)
  {
    && (forall key :: key in components <==> key in before || IsIdOf(key, id, endpoint, kinds))
    && (forall key | key in before :: components[key] == before[key])
    && (forall k | k in kinds ::
          && ComponentId(id, endpoint, k) in components
          && components[ComponentId(id, endpoint, k)] == ComponentOf(Address(id, endpoint, OnOff), k))
  }

  lemma AddsNothing(before: map<string, Component>, id: DeviceId, endpoint: EndpointId)
    ensures Adds(before, before, id, endpoint, [])
  {
  }

  lemma AddsOneMore(before: map<string, Component>, components: map<string, Component>, id: DeviceId,
                    endpoint: EndpointId, kinds: seq<Kind>, kind: Kind)
    requires Adds(before, components, id, endpoint, kinds)
    requires kind !in kinds && ComponentId(id, endpoint, kind) !in before
    ensures ComponentId(id, endpoint, kind) !in components
    ensures var entry := ComponentOf(Address(id, endpoint, OnOff), kind);
            Adds(before, components[ComponentId(id, endpoint, kind) := entry], id, endpoint, kinds + [kind])
  {
    hide ComponentId, ComponentOf, IsIdOf;
    IdsOfMore(id, endpoint, kinds, kind);
    forall k | k in kinds ensures ComponentId(id, endpoint, k) != ComponentId(id, endpoint, kind) {
      if ComponentId(id, endpoint, k) == ComponentId(id, endpoint, kind) {
        ComponentIdInjective(id, endpoint, k, id, endpoint, kind);
      }
    }
  }

  /** The entries of one capability, added one after the other. */
  method AddComponents(before: map<string, Component>, id: DeviceId, endpoint: EndpointId, kinds: seq<Kind>)
    returns (components: map<string, Component>)
    requires forall i, j | 0 <= i < j < |kinds| :: kinds[i] != kinds[j]
    requires forall k | k in kinds :: ComponentId(id, endpoint, k) !in before
    ensures |components| == |before| + |kinds| && Adds(before, components, id, endpoint, kinds)
  {
    hide ComponentId, ComponentOf, Adds;
    components := before;
    AddsNothing(before, id, endpoint);
    for i := 0 to |kinds|
      invariant |components| == |before| + i && Adds(before, components, id, endpoint, kinds[..i])
    {
      var kind := kinds[i];
      assert kinds[..i + 1] == kinds[..i] + [kind];
      AddsOneMore(before, components, id, endpoint, kinds[..i], kind);
      components := components[ComponentId(id, endpoint, kind) := ComponentOf(Address(id, endpoint, OnOff), kind)];
    }
    assert kinds[..|kinds|] == kinds;
  }

  lemma HoldsSame(components: map<string, Component>, id: DeviceId, caps: seq<RuntimeCapability>, c: RuntimeCapability)
    requires Holds(components, id, caps) && c.capability != OnOff
    ensures Holds(components, id, caps + [c])
  {
    hide ComponentId;
    assert forall d :: d in caps + [c] <==> d in caps || d == c;
    forall key | key in components
      ensures exists d, k ::
                d in caps + [c] && d.capability == OnOff && Has(d.mode, k) && key == ComponentId(id, d.endpoint, k)
    {
      var d, k :| d in caps && d.capability == OnOff && Has(d.mode, k) && key == ComponentId(id, d.endpoint, k);
      assert d in caps + [c];
    }
  }

  lemma HoldsMore(before: map<string, Component>, components: map<string, Component>, id: DeviceId,
                  caps: seq<RuntimeCapability>, c: RuntimeCapability, kinds: seq<Kind>)
    requires Holds(before, id, caps) && c.capability == OnOff
    requires forall k :: k in kinds <==> Has(c.mode, k)
    requires Adds(before, components, id, c.endpoint, kinds)
    ensures Holds(components, id, caps + [c])
  {
    hide ComponentId, ComponentOf;
    var all := caps + [c];
    assert forall d :: d in all <==> d in caps || d == c;
    forall key | key in components
      ensures exists d, k ::
                d in all && d.capability == OnOff && Has(d.mode, k) && key == ComponentId(id, d.endpoint, k)
    {
      if key in before {
        var d, k :| d in caps && d.capability == OnOff && Has(d.mode, k) && key == ComponentId(id, d.endpoint, k);
        assert d in all;
      } else {
        var k :| k in kinds && key == ComponentId(id, c.endpoint, k);
        assert c in all;
      }
    }
  }

  /** Every advertised command topic is one the bridge will accept for that very address, every payload is one it
      decodes, to the value the button's name says, and every advertised state topic is one that the bridge
      publishes in that mode. */
  lemma AdvertisedTopicsAreServed(layout: TopicLayout, a: Address, mode: Mode, kind: Kind)
    requires Has(mode, kind) && a.capability == OnOff && Clean(layout.topicPrefix)
    ensures var component := ComponentOf(a, kind);
            && (component.commandTopic.Some? ==>
                  ParseCommandTopic(layout, Topics.Render(layout, component.commandTopic.value)) == Some(a))
            && (forall payload :: payload in component.payloads <==>
                  || (DecodeOnOff(payload) == Some(true) && (kind == SwitchEntity || kind == OnButton))
                  || (DecodeOnOff(payload) == Some(false) && (kind == SwitchEntity || kind == OffButton)))
            && (component.commandTopic.Some? <==> kind == SwitchEntity || kind == OnButton || kind == OffButton)
            && (kind == SwitchEntity ==> component.stateTopic == Some(StateTopic(a)))
            && (kind == ConfidenceEntity ==> component.stateTopic == Some(ConfidenceTopic(a)))
            && (kind == LastCommandEntity ==> component.stateTopic == Some(LastCommandTopic(a)))
            && (component.stateTopic.Some? ==>
                  component.stateTopic.value
                  in (if mode == Observable then {StateTopic(a), ConfidenceTopic(a)} else {LastCommandTopic(a)}))
  {
    CommandTopicRoundTrip(layout, Topics.Render(layout, CommandTopic(a)), a);
    forall payload, value: bool ensures DecodeOnOff(payload) == Some(value) <==> payload == EncodeOnOff(value) {
      OnOffRoundTrip(payload, value);
    }
  }

  // ---- what all documents advertise together ----

  /** The map has an entry with this topic. */
  ghost predicate Advertised(components: map<string, Component>, t: Topic) {
    exists key :: key in components
        && (components[key].commandTopic == Some(t) || components[key].stateTopic == Some(t))
  }

  /** One on/off address is offered both with and without feedback. */
  ghost predicate OfferedInBothModes(devices: seq<RuntimeDevice>, a: Address) {
    ProvidedBy(devices, a, Observable) && ProvidedBy(devices, a, CommandOnly)
  }

  /** The topic of an entity is generated if the bridge serves its address in the mode of the entity. */
  lemma EntityTopicIsGenerated(cfg: Config, a: Address, mode: Mode, k: Kind, t: Topic)
    requires a in cfg.modes && cfg.modes[a] == mode && Has(mode, k)
    requires ComponentOf(a, k).commandTopic == Some(t) || ComponentOf(a, k).stateTopic == Some(t)
    ensures Generated(cfg, t)
  {
  }

  /** One that is offered in a mode in which the bridge does not serve it: some entity advertises a topic that is never
      generated. */
  lemma SomeEntityIsSilent(cfg: Config, a: Address, mode: Mode) returns (k: Kind, t: Topic)
    requires a in cfg.modes && cfg.modes[a] != mode
    ensures Has(mode, k) && ComponentOf(a, k).stateTopic == Some(t) && !Generated(cfg, t)
  {
    if mode == Observable {
      k, t := SwitchEntity, StateTopic(a);
    } else {
      k, t := LastCommandEntity, LastCommandTopic(a);
    }
  }

  lemma SilentEntityIsAdvertised(cfg: Config, docs: seq<map<string, Component>>, a: Address, mode: Mode)
    returns (i: nat, t: Topic)
    requires FindsModes(cfg.devices, cfg.modes, cfg.addresses) && |docs| == |cfg.devices|
    requires forall j | 0 <= j < |docs| :: Holds(docs[j], cfg.devices[j].deviceId, cfg.devices[j].capabilities)
    requires ProvidedBy(cfg.devices, a, mode) && a in cfg.modes && cfg.modes[a] != mode
    ensures i < |docs| && Advertised(docs[i], t) && !Generated(cfg, t)
  {
    hide ComponentId, ComponentOf, Has, Generated, FindsModes;
    var k;
    k, t := SomeEntityIsSilent(cfg, a, mode);
    var d, c :| d in cfg.devices && c in d.capabilities && Provides(d, c, a) && c.mode == mode;
    i :| 0 <= i < |cfg.devices| && cfg.devices[i] == d;
    assert docs[i][ComponentId(d.deviceId, c.endpoint, k)] == ComponentOf(a, k);
  }

  lemma AdvertisedIsGenerated(cfg: Config, components: map<string, Component>, d: RuntimeDevice, t: Topic)
    requires FindsModes(cfg.devices, cfg.modes, cfg.addresses) && d in cfg.devices
    requires Holds(components, d.deviceId, d.capabilities) && Advertised(components, t)
    requires forall a :: !OfferedInBothModes(cfg.devices, a)
    ensures Generated(cfg, t)
  {
    hide ComponentId, ComponentOf, Has, Generated;
    var key :| key in components && (components[key].commandTopic == Some(t) || components[key].stateTopic == Some(t));
    var c, k := HeldFor(components, d.deviceId, d.capabilities, key);
    var a := Address(d.deviceId, c.endpoint, OnOff);
    assert Provides(d, c, a);
    assert ProvidedBy(cfg.devices, a, c.mode) && ProvidedBy(cfg.devices, a, cfg.modes[a]);
    assert !OfferedInBothModes(cfg.devices, a);
    EntityTopicIsGenerated(cfg, a, c.mode, k, t);
  }

  /** The discovery documents of all devices advertise only topics that the bridge generates if and only if no
      endpoint is offered in both modes: of two modes the bridge serves one, and the documents advertise both. */
  lemma AdvertisedTopicsAreGenerated(cfg: Config, docs: seq<map<string, Component>>)
    requires FindsModes(cfg.devices, cfg.modes, cfg.addresses) && |docs| == |cfg.devices|
    requires forall i | 0 <= i < |docs| :: Holds(docs[i], cfg.devices[i].deviceId, cfg.devices[i].capabilities)
    ensures (forall i, t | 0 <= i < |docs| && Advertised(docs[i], t) :: Generated(cfg, t))
            <==> forall a :: !OfferedInBothModes(cfg.devices, a)
  {
    hide Holds, Generated, Advertised, FindsModes;
    if a :| OfferedInBothModes(cfg.devices, a) {
      ProvidedIsServed(cfg, a, Observable);
      var mode := if cfg.modes[a] == Observable then CommandOnly else Observable;
      var i, t := SilentEntityIsAdvertised(cfg, docs, a, mode);
    } else {
      forall i, t | 0 <= i < |docs| && Advertised(docs[i], t) ensures Generated(cfg, t) {
        AdvertisedIsGenerated(cfg, docs[i], cfg.devices[i], t);
      }
    }
  }

  lemma ProvidedIsServed(cfg: Config, a: Address, mode: Mode)
    requires FindsModes(cfg.devices, cfg.modes, cfg.addresses) && ProvidedBy(cfg.devices, a, mode)
    ensures a in cfg.modes
  {
  }
}
