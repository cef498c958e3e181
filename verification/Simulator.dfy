/** The deterministic observable backend (backends/simulator.py). */
module Simulator {
  import opened Wrappers
  import opened Identity
  import opened Calendar
  import opened Model
  import opened Gateway

  datatype SimulatorSetting = SimulatorSetting(deviceId: DeviceId, name: string, profileId: string, initialOn: bool)

  datatype Sim = Sim(
    closed: bool, devices: seq<RuntimeDevice>,
    observations: map<Address, Observation>, sequences: map<Address, nat>,
    capabilities: map<Address, CapabilityProfile>, availability: map<DeviceId, Availability>)

  // ---- construction ----

  /** `next(candidate for candidate in profiles if ...)`. */
  function FirstProfile(profiles: seq<Profile>, id: string): Option<Profile> {
    if profiles == [] then None
    else if profiles[0].profileId == id then Some(profiles[0])
    else FirstProfile(profiles[1..], id)
  }

  /** The last declaration of a capability on an endpoint. */
  function Declared(caps: seq<CapabilityProfile>, id: CapabilityId): (c: Option<CapabilityProfile>)
    ensures c.Some? ==> c.value.capability == id
  {
    if caps == [] then None
    else if caps[|caps| - 1].capability == id then Some(caps[|caps| - 1])
    else Declared(caps[..|caps| - 1], id)
  }

  predicate Declares(profile: Profile, endpoint: EndpointId, id: CapabilityId) {
    endpoint in profile.endpoints && Declared(profile.endpoints[endpoint], id).Some?
  }

  predicate Switches(profile: Profile, endpoint: EndpointId) {
    Declares(profile, endpoint, OnOff) && Declared(profile.endpoints[endpoint], OnOff).value.writable
  }

  /** The writable on/off endpoints up to `top`, in ascending order. */
  function SwitchCapabilities(profile: Profile, top: nat): (caps: seq<RuntimeCapability>)
    requires top <= 240
    ensures forall c | c in caps :: c.capability == OnOff && c.mode == Observable && Switches(profile, c.endpoint)
  {
    if top == 0 then []
    else
      SwitchCapabilities(profile, top - 1)
      + if Switches(profile, top) then [RuntimeCapability(top, OnOff, Observable)] else []
  }

  function SimulatedDevice(s: SimulatorSetting, profile: Profile): RuntimeDevice
    requires profile.models != []
  {
    RuntimeDevice(s.deviceId, profile.manufacturer, profile.models[0], profile.endpoints.Keys, s.name,
                  profile.profileId, SwitchCapabilities(profile, 240))
  }

  function InitialObservation(s: SimulatorSetting, at: Instant): Observation {
    Observation(BoolValue(s.initialOn), Observed, at, 0)
  }

  function DeclaredCapabilities(id: DeviceId, profile: Profile): map<Address, CapabilityProfile> {
    map e: EndpointId, c: CapabilityId | e in profile.endpoints && Declares(profile, e, c) ::
      Address(id, e, c) := Declared(profile.endpoints[e], c).value
  }

  /** The on/off addresses of a device, writable or not. */
  function OnOffAddresses(id: DeviceId, profile: Profile): set<Address> {
    set e: EndpointId | e in profile.endpoints && Declares(profile, e, OnOff) :: Address(id, e, OnOff)
  }

  /** `entries` with the same value at every address in `addresses`. */
  function WithAll<T>(entries: map<Address, T>, addresses: set<Address>, value: T): (r: map<Address, T>)
    ensures forall a :: a in r <==> a in entries || a in addresses
    ensures forall a | a in r :: r[a] == if a in addresses then value else entries[a]
  {
    entries + map a | a in addresses :: value
  }

  /** One iteration of the constructor's loop over the settings. */
  function AddDevice(sim: Sim, s: SimulatorSetting, profile: Profile, at: Instant): Sim
    requires profile.models != []
  {
    var switches := OnOffAddresses(s.deviceId, profile);
    sim.(devices := sim.devices + [SimulatedDevice(s, profile)],
         availability := sim.availability[s.deviceId := Availability(Online, at)],
         capabilities := sim.capabilities + DeclaredCapabilities(s.deviceId, profile),
         sequences := WithAll(sim.sequences, switches, 0),
         observations := WithAll(sim.observations, switches, InitialObservation(s, at)))
  }

  /** `__init__`; None stands for its ValidationError. Profiles have a model, as the profile loader ensures. */
  function Build(clock: nat -> Instant, ticks: nat, settings: seq<SimulatorSetting>, profiles: seq<Profile>)
    : Option<Sim>
  {
    if settings == [] then Some(Sim(false, [], map[], map[], map[], map[]))
    else
      var n := |settings| - 1;
      match (Build(clock, ticks, settings[..n], profiles), FirstProfile(profiles, settings[n].profileId))
      case (Some(sim), Some(profile)) =>
        if profile.models == [] then None else Some(AddDevice(sim, settings[n], profile, clock(ticks + n)))
      case _ => None
  }

  // ---- commands ----

  /** The runtime device that `next(...)` finds first. */
  function FirstDevice(devices: seq<RuntimeDevice>, id: DeviceId): Option<RuntimeDevice> {
    if devices == [] then None
    else if devices[0].deviceId == id then Some(devices[0])
    else FirstDevice(devices[1..], id)
  }

  function SimProblem(sim: Sim, c: Command): Option<string> {
    var a := Address(c.deviceId, c.endpoint, c.capability);
    if sim.closed then Some("backend is closed")
    else if c.deviceId !in sim.availability then Some("unknown device")
    else
      var device := FirstDevice(sim.devices, c.deviceId);
      if device.None? || c.endpoint !in device.value.endpoints then Some("unknown endpoint")
      else if a !in sim.capabilities then Some("unsupported capability")
      else if !sim.capabilities[a].writable then Some("capability is read-only")
      else if sim.capabilities[a].capability != OnOff || a !in sim.sequences then
        Some("unsupported writable capability")
      else if !c.desired.BoolValue? then Some("desired value must be boolean")
      else None
  }

  function NextObservation(sim: Sim, a: Address, desired: WireValue, at: Instant): Observation
    requires a in sim.sequences
  {
    Observation(desired, Observed, at, sim.sequences[a] + 1)
  }

  /** `set_desired`, given the clock reading it takes if it gets that far. */
  function SimSetDesired(sim: Sim, c: Command, at: Instant): (Sim, CommandResult) {
    var problem := SimProblem(sim, c);
    if problem.Some? then (sim, CommandResult(c.requestId, Rejected(problem.value)))
    else
      var a := Address(c.deviceId, c.endpoint, c.capability);
      var seen := NextObservation(sim, a, c.desired, at);
      (sim.(sequences := sim.sequences[a := seen.sequence], observations := sim.observations[a := seen]),
       CommandResult(c.requestId, Confirmed(seen)))
  }

  class SimulatorBackend {
    const clock: Clock
    var closed: bool
    var devices: seq<RuntimeDevice>
    var observations: map<Address, Observation>
    var sequences: map<Address, nat>
    var capabilities: map<Address, CapabilityProfile>
    var availability: map<DeviceId, Availability>

    ghost function State(): Sim
      reads this
    {
      Sim(closed, devices, observations, sequences, capabilities, availability)
    }

    constructor (clock: Clock, sim: Sim)
      ensures this.clock == clock && State() == sim
    {
      this.clock := clock;
      closed, devices, observations := sim.closed, sim.devices, sim.observations;
      sequences, capabilities, availability := sim.sequences, sim.capabilities, sim.availability;
    }

    /** The constructor of the original; null stands for the exception it raises. */
    static method OpenSimulator(settings: seq<SimulatorSetting>, profiles: seq<Profile>, clock: Clock)
      returns (backend: SimulatorBackend?)
      modifies clock
      ensures var built := Build(clock.readings, old(clock.ticks), settings, profiles);
              && (backend == null <==> built.None?)
              && (backend != null ==> fresh(backend) && backend.State() == built.value && backend.clock == clock)
    {
      hide AddDevice, FirstProfile;
      var sim := Sim(false, [], map[], map[], map[], map[]);
      for i := 0 to |settings|
        invariant clock.ticks == old(clock.ticks) + i
        invariant Build(clock.readings, old(clock.ticks), settings[..i], profiles) == Some(sim)
      {
        assert settings[..i + 1][..i] == settings[..i];
        var profile := FirstProfile(profiles, settings[i].profileId);
        if profile.None? || profile.value.models == [] {
          BuildPrefix(clock.readings, old(clock.ticks), settings, profiles, i + 1);
          return null;
        }
        var observedAt := clock.Now();
        sim := AddDevice(sim, settings[i], profile.value, observedAt);
      }
      assert settings[..|settings|] == settings;
      backend := new SimulatorBackend(clock, sim);
    }

    method SetDesiredState(c: Command) returns (r: CommandResult)
      modifies this, clock
      ensures (State(), r) == SimSetDesired(old(State()), c, clock.readings(old(clock.ticks)))
      ensures clock.ticks == old(clock.ticks) + if r.status.Confirmed? then 1 else 0
    {
      var problem := SimProblem(Sim(closed, devices, observations, sequences, capabilities, availability), c);
      if problem.Some? {
        return CommandResult(c.requestId, Rejected(problem.value));
      }
      var address := Address(c.deviceId, c.endpoint, c.capability);
      var sequence := sequences[address] + 1;
      var observedAt := clock.Now();
      var observation := Observation(c.desired, Observed, observedAt, sequence);
      sequences := sequences[address := sequence];
      observations := observations[address := observation];
      return CommandResult(c.requestId, Confirmed(observation));
    }

    method AvailabilityOf(id: DeviceId) returns (a: Availability)
      modifies clock
      ensures id in availability ==> a == availability[id] && clock.ticks == old(clock.ticks)
      ensures id !in availability ==> a == Availability(Unknown, clock.readings(old(clock.ticks)))
                                      && clock.ticks == old(clock.ticks) + 1
    {
      if id in availability {
        return availability[id];
      }
      var now := clock.Now();
      return Availability(Unknown, now);
    }

    method CloseBackend()
      modifies this
      ensures State() == old(State()).(closed := true)
    {
      closed := true;
    }
  }

  lemma {:induction false} BuildPrefix(clock: nat -> Instant, ticks: nat, settings: seq<SimulatorSetting>,
                                       profiles: seq<Profile>, i: nat)
    requires i <= |settings| && Build(clock, ticks, settings[..i], profiles).None?
    ensures Build(clock, ticks, settings, profiles).None?
  {
    hide AddDevice, FirstProfile;
    if i < |settings| {
      assert settings[..|settings| - 1][..i] == settings[..i];
      BuildPrefix(clock, ticks, settings[..|settings| - 1], profiles, i);
    } else {
      assert settings[..i] == settings;
    }
  }

  // ---- what a simulator state guarantees ----

  /** The on/off address of a runtime capability. */
  predicate Offers(d: RuntimeDevice, a: Address) {
    && d.deviceId == a.deviceId && a.capability == OnOff
    && RuntimeCapability(a.endpoint, OnOff, Observable) in d.capabilities
  }

  /** Every offered on/off address is a command target with an observation of matching sequence. */
  ghost predicate SimInv(sim: Sim) {
    && (forall d | d in sim.devices :: d.deviceId in sim.availability && sim.availability[d.deviceId].state == Online)
    && (forall i, j | 0 <= i < j < |sim.devices| :: sim.devices[i].deviceId != sim.devices[j].deviceId)
    && (forall d, c | d in sim.devices && c in d.capabilities :: c.capability == OnOff && c.mode == Observable)
    && (forall d, a | d in sim.devices && Offers(d, a) :: Serves(sim, d, a))
  }

  predicate Serves(sim: Sim, d: RuntimeDevice, a: Address) {
    && a.endpoint in d.endpoints
    && a in sim.capabilities && sim.capabilities[a] == CapabilityProfile(OnOff, true)
    && a in sim.sequences && a in sim.observations
    && sim.observations[a].value.BoolValue? && sim.observations[a].confidence == Observed
    && sim.observations[a].sequence == sim.sequences[a]
  }

  lemma {:induction false} FirstDeviceIsUnique(devices: seq<RuntimeDevice>, d: RuntimeDevice)
    requires d in devices
    requires forall i, j | 0 <= i < j < |devices| :: devices[i].deviceId != devices[j].deviceId
    ensures FirstDevice(devices, d.deviceId) == Some(d)
  {
    if devices[0] != d {
      var i :| 0 <= i < |devices| && devices[i] == d;
      assert devices[0].deviceId != devices[i].deviceId;
      assert devices[1..][i - 1] == d;
      FirstDeviceIsUnique(devices[1..], d);
    }
  }

  /** An explicit On or Off to an offered address of an open simulator is always confirmed, with the desired
      value observed under the next sequence number, and no other address changes. */
  lemma OfferedCommandsAreConfirmed(sim: Sim, d: RuntimeDevice, a: Address, requestId: nat, on: bool, at: Instant)
    requires SimInv(sim) && !sim.closed && d in sim.devices && Offers(d, a)
    ensures var (r, result) := SimSetDesired(sim,
            Command(requestId, a.deviceId, a.endpoint, a.capability, BoolValue(on)), at);
            var seen := Observation(BoolValue(on), Observed, at, sim.observations[a].sequence + 1);
            && SimInv(r) && !r.closed && r.devices == sim.devices
            && result.status == Confirmed(seen)
            && r.observations == sim.observations[a := seen]
  {
    hide SimInv;
    OfferedAddressIsServed(sim, d, a);
    var seen := Observation(BoolValue(on), Observed, at, sim.observations[a].sequence + 1);
    NewObservationIsSound(sim, a, seen);
  }

  lemma OfferedAddressIsServed(sim: Sim, d: RuntimeDevice, a: Address)
    requires SimInv(sim) && d in sim.devices && Offers(d, a)
    ensures Serves(sim, d, a) && a.deviceId in sim.availability && FirstDevice(sim.devices, a.deviceId) == Some(d)
  {
    hide Serves, FirstDevice;
    FirstDeviceIsUnique(sim.devices, d);
  }

  lemma NewObservationIsSound(sim: Sim, a: Address, seen: Observation)
    requires SimInv(sim) && seen.value.BoolValue? && seen.confidence == Observed
    ensures SimInv(sim.(sequences := sim.sequences[a := seen.sequence], observations := sim.observations[a := seen]))
  {
    hide Serves, Offers;
    var r := sim.(sequences := sim.sequences[a := seen.sequence], observations := sim.observations[a := seen]);
    forall e, b | e in r.devices && Offers(e, b) ensures Serves(r, e, b) {
      assert Serves(sim, e, b);
      NewObservationServes(sim, e, a, b, seen);
    }
  }

  lemma NewObservationServes(sim: Sim, e: RuntimeDevice, a: Address, b: Address, seen: Observation)
    requires Serves(sim, e, b) && seen.value.BoolValue? && seen.confidence == Observed
    ensures var r := sim.(sequences := sim.sequences[a := seen.sequence], observations := sim.observations[a := seen]);
            Serves(r, e, b)
  {
  }

  /** What a simulator built from `settings` satisfies: the invariant, one device per setting in order, and every
      offered address at its configured value and sequence zero. */
  ghost predicate Starts(sim: Sim, settings: seq<SimulatorSetting>) {
    && SimInv(sim) && |sim.devices| == |settings|
    && (forall i | 0 <= i < |settings| :: sim.devices[i].deviceId == settings[i].deviceId)
    && (forall i, a | 0 <= i < |settings| && Offers(sim.devices[i], a) :: StartsAt(sim, settings[i], a))
  }

  predicate StartsAt(sim: Sim, s: SimulatorSetting, a: Address) {
    a in sim.observations && sim.observations[a].value == BoolValue(s.initialOn) && sim.observations[a].sequence == 0
  }

  /** A fresh simulator over distinct device ids is open and starts as configured. */
  lemma {:induction false} BuildIsSound(clock: nat -> Instant, ticks: nat, settings: seq<SimulatorSetting>,
                                        profiles: seq<Profile>)
    requires Build(clock, ticks, settings, profiles).Some?
    requires forall i, j | 0 <= i < j < |settings| :: settings[i].deviceId != settings[j].deviceId
    ensures Starts(Build(clock, ticks, settings, profiles).value, settings)
    ensures !Build(clock, ticks, settings, profiles).value.closed
  {
    hide AddDevice, FirstProfile, Starts;
    if settings == [] {
      NothingStarts();
    } else {
      var n := |settings| - 1;
      BuildIsSound(clock, ticks, settings[..n], profiles);
      AddDeviceIsSound(Build(clock, ticks, settings[..n], profiles).value, settings[..n], settings[n],
                       FirstProfile(profiles, settings[n].profileId).value, clock(ticks + n));
      assert settings == settings[..n] + [settings[n]];
    }
  }

  lemma NothingStarts()
    ensures Starts(Sim(false, [], map[], map[], map[], map[]), [])
  {
  }

  lemma OtherDevicesKeepCapabilities(id: DeviceId, profile: Profile, a: Address)
    requires a.deviceId != id
    ensures a !in DeclaredCapabilities(id, profile) && a !in OnOffAddresses(id, profile)
  {
  }

  lemma SwitchIsDeclared(id: DeviceId, profile: Profile, endpoint: EndpointId)
    requires Switches(profile, endpoint)
    ensures var a := Address(id, endpoint, OnOff);
            && a in OnOffAddresses(id, profile)
            && a in DeclaredCapabilities(id, profile)
            && DeclaredCapabilities(id, profile)[a] == CapabilityProfile(OnOff, true)
  {
  }

  /** Adding a device changes nothing at an address of another device. */
  lemma AddDeviceElsewhere(sim: Sim, s: SimulatorSetting, profile: Profile, at: Instant, d: RuntimeDevice, a: Address)
    requires profile.models != [] && a.deviceId != s.deviceId && Serves(sim, d, a)
    ensures var r := AddDevice(sim, s, profile, at); Serves(r, d, a) && r.observations[a] == sim.observations[a]
  {
    hide DeclaredCapabilities, OnOffAddresses, SwitchCapabilities;
    OtherDevicesKeepCapabilities(s.deviceId, profile, a);
  }

  /** The addresses that the added device offers are served, from its configured value. */
  lemma AddDeviceHere(sim: Sim, s: SimulatorSetting, profile: Profile, at: Instant, a: Address)
    requires profile.models != [] && Offers(SimulatedDevice(s, profile), a)
    ensures var r := AddDevice(sim, s, profile, at); Serves(r, SimulatedDevice(s, profile), a) && StartsAt(r, s, a)
  {
    hide DeclaredCapabilities, OnOffAddresses, SwitchCapabilities;
    SwitchIsDeclared(s.deviceId, profile, a.endpoint);
  }

  lemma AddDeviceShape(sim: Sim, s: SimulatorSetting, profile: Profile, at: Instant)
    requires profile.models != []
    ensures var r := AddDevice(sim, s, profile, at);
            && r.closed == sim.closed && r.devices == sim.devices + [SimulatedDevice(s, profile)]
            && r.availability == sim.availability[s.deviceId := Availability(Online, at)]
  {
  }

  /** An earlier device is another device, and each address it offers stays as it was. */
  lemma EarlierDeviceStays(sim: Sim, settings: seq<SimulatorSetting>, s: SimulatorSetting, profile: Profile,
                           at: Instant, i: nat, a: Address)
    requires Starts(sim, settings) && profile.models != [] && i < |settings| && settings[i].deviceId != s.deviceId
    requires Offers(sim.devices[i], a)
    ensures var r := AddDevice(sim, s, profile, at); Serves(r, sim.devices[i], a) && StartsAt(r, settings[i], a)
  {
    hide AddDevice;
    assert Serves(sim, sim.devices[i], a) && StartsAt(sim, settings[i], a);
    AddDeviceElsewhere(sim, s, profile, at, sim.devices[i], a);
  }

  lemma AddDeviceIsSound(sim: Sim, settings: seq<SimulatorSetting>, s: SimulatorSetting, profile: Profile, at: Instant)
    requires Starts(sim, settings) && profile.models != []
    requires forall i | 0 <= i < |settings| :: settings[i].deviceId != s.deviceId
    ensures Starts(AddDevice(sim, s, profile, at), settings + [s])
    ensures AddDevice(sim, s, profile, at).closed == sim.closed
  {
    hide AddDevice, SwitchCapabilities, Serves, Offers, StartsAt;
    AddDeviceShape(sim, s, profile, at);
    var r, all := AddDevice(sim, s, profile, at), settings + [s];
    forall i, a | 0 <= i < |all| && Offers(r.devices[i], a)
      ensures Serves(r, r.devices[i], a) && StartsAt(r, all[i], a)
    {
      if i < |settings| {
        EarlierDeviceStays(sim, settings, s, profile, at, i, a);
      } else {
        AddDeviceHere(sim, s, profile, at, a);
      }
    }
  }

  // ---- what is offered, and what is confirmed, exactly ----

  /** The profile loader admits each capability once per endpoint. */
  ghost predicate OncePerEndpoint(profile: Profile) {
    forall e, c, d | e in profile.endpoints && c in profile.endpoints[e] && d in profile.endpoints[e] ::
      c.capability == d.capability ==> c == d
  }

  lemma {:induction false} DeclaredIsMember(caps: seq<CapabilityProfile>, id: CapabilityId)
    ensures match Declared(caps, id)
            case Some(c) => c in caps && c.capability == id
            case None => forall c | c in caps :: c.capability != id
  {
    if caps != [] {
      var front, last := caps[..|caps| - 1], caps[|caps| - 1];
      DeclaredIsMember(front, id);
      assert caps == front + [last];
    }
  }

  lemma SwitchInLiterals(profile: Profile, endpoint: EndpointId)
    requires OncePerEndpoint(profile)
    ensures Switches(profile, endpoint)
       <==> endpoint in profile.endpoints && CapabilityProfile(OnOff, true) in profile.endpoints[endpoint]
  {
    if endpoint in profile.endpoints {
      DeclaredIsMember(profile.endpoints[endpoint], OnOff);
    }
  }

  lemma {:induction false} SwitchesAreListed(profile: Profile, top: nat, endpoint: EndpointId)
    requires top <= 240
    ensures RuntimeCapability(endpoint, OnOff, Observable) in SwitchCapabilities(profile, top)
       <==> endpoint <= top && Switches(profile, endpoint)
  {
    hide Switches;
    if top > 0 {
      SwitchesAreListed(profile, top - 1, endpoint);
    }
  }

  /** A simulated device offers exactly the endpoints that its profile declares as writable OnOff. */
  lemma DeviceOffersExactly(s: SimulatorSetting, profile: Profile, endpoint: EndpointId)
    requires profile.models != [] && OncePerEndpoint(profile)
    ensures Offers(SimulatedDevice(s, profile), Address(s.deviceId, endpoint, OnOff))
       <==> endpoint in profile.endpoints && CapabilityProfile(OnOff, true) in profile.endpoints[endpoint]
  {
    hide Switches, SwitchCapabilities;
    SwitchesAreListed(profile, 240, endpoint);
    SwitchInLiterals(profile, endpoint);
  }

  lemma {:induction false} FirstProfileIsFound(profiles: seq<Profile>, id: string)
    ensures FirstProfile(profiles, id).Some? <==> exists p :: p in profiles && p.profileId == id
    ensures FirstProfile(profiles, id).Some? ==> FirstProfile(profiles, id).value in profiles
  {
    if profiles != [] && profiles[0].profileId != id {
      FirstProfileIsFound(profiles[1..], id);
      assert profiles == [profiles[0]] + profiles[1..];
    }
  }

  /** Construction succeeds exactly if every configured profile exists; profiles have a model. */
  lemma {:induction false} BuildSucceedsExactly(clock: nat -> Instant, ticks: nat, settings: seq<SimulatorSetting>,
                                                profiles: seq<Profile>)
    requires forall p | p in profiles :: p.models != []
    ensures Build(clock, ticks, settings, profiles).Some?
       <==> forall s | s in settings :: exists p :: p in profiles && p.profileId == s.profileId
  {
    hide AddDevice, FirstProfile;
    if settings != [] {
      var n := |settings| - 1;
      BuildSucceedsExactly(clock, ticks, settings[..n], profiles);
      FirstProfileIsFound(profiles, settings[n].profileId);
      assert settings == settings[..n] + [settings[n]];
    }
  }

  /** Every writable OnOff is offered by a device. */
  ghost predicate NothingHidden(sim: Sim) {
    forall a | a in sim.capabilities && sim.capabilities[a] == CapabilityProfile(OnOff, true) ::
      exists d :: d in sim.devices && Offers(d, a)
  }

  lemma AddDeviceHidesNothing(sim: Sim, s: SimulatorSetting, profile: Profile, at: Instant)
    requires NothingHidden(sim) && profile.models != []
    ensures NothingHidden(AddDevice(sim, s, profile, at))
  {
    hide WithAll, SwitchCapabilities, OnOffAddresses;
    var r, added := AddDevice(sim, s, profile, at), SimulatedDevice(s, profile);
    forall a | a in r.capabilities && r.capabilities[a] == CapabilityProfile(OnOff, true)
      ensures exists d :: d in r.devices && Offers(d, a)
    {
      if a in DeclaredCapabilities(s.deviceId, profile) {
        SwitchesAreListed(profile, 240, a.endpoint);
        assert added in r.devices && Offers(added, a);
      } else {
        var d :| d in sim.devices && Offers(d, a);
        assert d in r.devices;
      }
    }
  }

  lemma {:induction false} BuildHidesNothing(clock: nat -> Instant, ticks: nat, settings: seq<SimulatorSetting>,
                                             profiles: seq<Profile>)
    requires Build(clock, ticks, settings, profiles).Some?
    ensures NothingHidden(Build(clock, ticks, settings, profiles).value)
  {
    hide AddDevice, FirstProfile;
    if settings != [] {
      var n := |settings| - 1;
      BuildHidesNothing(clock, ticks, settings[..n], profiles);
      AddDeviceHidesNothing(Build(clock, ticks, settings[..n], profiles).value, settings[n],
                            FirstProfile(profiles, settings[n].profileId).value, clock(ticks + n));
    }
  }

  /** A command is confirmed exactly if the simulator is open, a device offers the address, and the command is an
      explicit On or Off; any other is rejected and changes nothing. What is offered stays as it was built. */
  lemma CommandIsConfirmedExactly(sim: Sim, c: Command, at: Instant)
    requires SimInv(sim) && NothingHidden(sim)
    ensures var (r, result) := SimSetDesired(sim, c, at);
            && result.requestId == c.requestId && NothingHidden(r) && SimInv(r)
            && (result.status.Confirmed? <==>
                  && !sim.closed && c.desired.BoolValue?
                  && exists d :: d in sim.devices && Offers(d, Address(c.deviceId, c.endpoint, c.capability)))
            && (!result.status.Confirmed? ==> result.status.Rejected? && r == sim)
  {
    hide SimInv, Offers, FirstDevice;
    var a := Address(c.deviceId, c.endpoint, c.capability);
    if SimProblem(sim, c).None? {
      NewObservationIsSound(sim, a, NextObservation(sim, a, c.desired, at));
    }
    if d :| d in sim.devices && Offers(d, a) {
      OfferedAddressIsServed(sim, d, a);
    }
  }
}
