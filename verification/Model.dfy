/** The contract between the runtime and its backends (models/state.py, models/device.py, backends/base.py,
    profiles/model.py). */
module Model {
  import opened Identity
  import opened Calendar

  datatype AvailabilityState = Online | Offline | Unknown {
    function Name(): string {
      match this
      case Online => "online"
      case Offline => "offline"
      case Unknown => "unknown"
    }
  }

  datatype Availability = Availability(state: AvailabilityState, observedAt: Instant)

  datatype WireValue = BoolValue(b: bool) | IntValue(i: int) | FloatValue(r: real) | TextValue(s: string)

  datatype Confidence = Observed | Assumed | Stale | NoConfidence {
    function Name(): string {
      match this
      case Observed => "observed"
      case Assumed => "assumed"
      case Stale => "stale"
      case NoConfidence => "unknown"
    }
  }

  datatype Observation = Observation(value: WireValue, confidence: Confidence, observedAt: Instant, sequence: nat)

  datatype Command = Command(
    requestId: nat, deviceId: DeviceId, endpoint: EndpointId, capability: CapabilityId, desired: WireValue)

  datatype Status = Rejected(reason: string) | Accepted | Confirmed(observation: Observation) | Indeterminate

  datatype CommandResult = CommandResult(requestId: nat, status: Status)

  datatype Mode = Observable | CommandOnly

  datatype RuntimeCapability = RuntimeCapability(endpoint: EndpointId, capability: CapabilityId, mode: Mode)

  datatype RuntimeDevice = RuntimeDevice(
    deviceId: DeviceId, manufacturer: string, model: string, endpoints: set<EndpointId>, name: string,
    profileId: string, capabilities: seq<RuntimeCapability>)

  datatype CapabilityProfile = CapabilityProfile(capability: CapabilityId, writable: bool)

  datatype Profile = Profile(
    profileId: string, manufacturer: string, models: seq<string>, endpoints: map<EndpointId, seq<CapabilityProfile>>)

  /** The device ids of a device list, in order. */
  function Ids(devices: seq<RuntimeDevice>): (ids: seq<DeviceId>)
    ensures |ids| == |devices|
    ensures forall i | 0 <= i < |devices| :: ids[i] == devices[i].deviceId
  {
    seq(|devices|, i requires 0 <= i < |devices| => devices[i].deviceId)
  }
}
