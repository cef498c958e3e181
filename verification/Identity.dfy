/** Canonical device, endpoint and capability identity (models/identity.py, models/capability.py). */
module Identity {
  import opened Wrappers
  import opened Text

  predicate IsHex(c: char) {
    IsDigit(c) || 'a' <= c <= 'f' || 'A' <= c <= 'F'
  }

  predicate AllHex(s: string) {
    forall c | c in s :: IsHex(c)
  }

  function LowerHex(c: char): (l: char)
    requires IsHex(c)
    ensures IsHex(l) && !('A' <= l <= 'F')
  {
    if 'A' <= c <= 'F' then (c as int + 32) as char else c
  }

  function Lower(s: string): (l: string)
    requires AllHex(s)
    ensures |l| == |s|
    ensures forall i | 0 <= i < |s| :: l[i] == LowerHex(s[i])
    ensures AllHex(l)
  {
    if s == "" then "" else [LowerHex(s[0])] + Lower(s[1..])
  }

  /** `DeviceId.__post_init__`: sixteen lowercase hexadecimal digits. */
  predicate IsCanonical(s: string) {
    |s| == 16 && forall c | c in s :: IsDigit(c) || 'a' <= c <= 'f'
  }

  type DeviceId = s: string | IsCanonical(s) witness "0000000000000000"

  type EndpointId = n: nat | 1 <= n <= 240 witness 1

  const PRIMARY_ENDPOINT: EndpointId := 1

  datatype CapabilityId =
    | OnOff
    | ElectricalPower
    | ElectricalEnergy
    | Voltage
    | Current
    | Temperature
    | Battery
    | Level
    | Thermostat
  {
    function Name(): string {
      match this
      case OnOff => "on_off"
      case ElectricalPower => "electrical_power"
      case ElectricalEnergy => "electrical_energy"
      case Voltage => "voltage"
      case Current => "current"
      case Temperature => "temperature"
      case Battery => "battery"
      case Level => "level"
      case Thermostat => "thermostat"
    }
  }

  datatype Address = Address(deviceId: DeviceId, endpoint: EndpointId, capability: CapabilityId)

  /** `DeviceId.parse`; None stands for its ValidationError. */
  function ParseDeviceId(raw: string): Option<DeviceId>
  {
    var value := if HasHexMarker(raw) then raw[2..] else raw;
    match Ungroup(value)
    case None => None
    case Some(digits) =>
      if |digits| != 16 || !AllHex(digits) then None else Some(Lower(digits))
  }

  predicate HasHexMarker(raw: string) {
    |raw| >= 2 && raw[0] == '0' && (raw[1] == 'x' || raw[1] == 'X')
  }

  /** Removes a colon or dash grouping into eight pairs; None when the grouping is malformed. */
  function Ungroup(value: string): Option<string>
  {
    if ':' in value || '-' in value then
      var groups := Split(value, if ':' in value then ':' else '-');
      if |groups| == 8 && forall g | g in groups :: |g| == 2 && AllHex(g)
      then Some(Concat(groups))
      else None
    else Some(value)
  }

  function Concat(parts: seq<string>): string {
    if parts == [] then "" else parts[0] + Concat(parts[1..])
  }

  function Pairs(digits: string): (pairs: seq<string>)
    requires |digits| % 2 == 0
    ensures |pairs| == |digits| / 2
    ensures forall p | p in pairs :: |p| == 2
  {
    if digits == "" then [] else [digits[..2]] + Pairs(digits[2..])
  }

  /** One way of writing a device id: marker, digits of either case, optional separator. */
  ghost predicate Spelling(raw: string, marker: string, digits: string, id: DeviceId)
  {
    && (marker == "" || marker == "0x" || marker == "0X")
    && |digits| == 16 && AllHex(digits) && Lower(digits) == id
    && (|| raw == marker + digits
        || raw == marker + Join(Pairs(digits), ':')
        || raw == marker + Join(Pairs(digits), '-'))
  }

  lemma {:induction false} PairsOfConcat(groups: seq<string>)
    requires forall g | g in groups :: |g| == 2
    ensures |Concat(groups)| == 2 * |groups|
    ensures Pairs(Concat(groups)) == groups
  {
    if groups != [] {
      PairsOfConcat(groups[1..]);
      var all := Concat(groups);
      assert all[..2] == groups[0];
      assert all[2..] == Concat(groups[1..]);
    }
  }

  lemma {:induction false} ConcatOfPairs(digits: string)
    requires |digits| % 2 == 0
    ensures Concat(Pairs(digits)) == digits
  {
    if digits != "" {
      ConcatOfPairs(digits[2..]);
      assert Pairs(digits)[1..] == Pairs(digits[2..]);
    }
  }

  lemma {:induction false} PairsAreHex(digits: string)
    requires |digits| % 2 == 0 && AllHex(digits)
    ensures forall p | p in Pairs(digits) :: AllHex(p)
  {
    if digits != "" {
      PairsAreHex(digits[2..]);
    }
  }

  lemma JoinOfPairsShape(pairs: seq<string>, sep: char)
    requires |pairs| >= 2 && forall p | p in pairs :: |p| == 2
    ensures |Join(pairs, sep)| >= 3
    ensures Join(pairs, sep)[..2] == pairs[0] && Join(pairs, sep)[2] == sep
  {
  }

  lemma UngroupOfJoin(digits: string, sep: char)
    requires |digits| == 16 && AllHex(digits)
    requires sep == ':' || sep == '-'
    ensures Ungroup(Join(Pairs(digits), sep)) == Some(digits)
    ensures !HasHexMarker(Join(Pairs(digits), sep))
  {
    hide Join, Pairs, Concat, Split;
    var pairs := Pairs(digits);
    PairsAreHex(digits);
    PairsHold(pairs, ':');
    PairsHold(pairs, '-');
    SplitOfJoin(pairs, sep);
    ConcatOfPairs(digits);
    JoinOfPairsShape(pairs, sep);
    var s := Join(pairs, sep);
    assert |pairs| == 8 && pairs[0] in pairs;
    assert s[1] == s[..2][1] == pairs[0][1] && pairs[0][1] in pairs[0];
    if sep == '-' {
      JoinKeepsAway(pairs, sep, ':');
    }
    assert s[2] in s;
  }

  /** No separator is a hexadecimal digit. */
  lemma PairsHold(pairs: seq<string>, sep: char)
    requires forall p | p in pairs :: AllHex(p)
    requires !IsHex(sep)
    ensures forall p | p in pairs :: sep !in p
  {
  }

  lemma {:induction false} JoinKeepsAway(parts: seq<string>, sep: char, c: char)
    requires c != sep && forall p | p in parts :: c !in p
    ensures c !in Join(parts, sep)
  {
    if |parts| > 1 {
      JoinKeepsAway(parts[1..], sep, c);
    }
  }

  /** `DeviceId.parse` accepts exactly the documented spellings, and each names one device. */
  lemma ParseAcceptsExactlySpellings(raw: string, id: DeviceId)
    ensures ParseDeviceId(raw) == Some(id) <==> exists marker, digits :: Spelling(raw, marker, digits, id)
  {
    hide ParseDeviceId, Spelling;
    if ParseDeviceId(raw) == Some(id) {
      var marker, digits := SpellingOf(raw, id);
    }
    if marker, digits :| Spelling(raw, marker, digits, id) {
      SpellingParses(raw, marker, digits, id);
    }
  }

  /** The spelling that an accepted text is. */
  lemma SpellingOf(raw: string, id: DeviceId) returns (marker: string, digits: string)
    requires ParseDeviceId(raw) == Some(id)
    ensures Spelling(raw, marker, digits, id)
  {
    hide Ungroup, Join, Pairs, Lower;
    marker := if HasHexMarker(raw) then raw[..2] else "";
    var value := if HasHexMarker(raw) then raw[2..] else raw;
    assert raw == marker + value;
    digits := Ungroup(value).value;
    UngroupedShape(value);
    assert marker == "" || marker == ['0', 'x'] || marker == ['0', 'X'];
  }

  /** What `Ungroup` accepts is bare, or eight pairs joined by colons or by dashes. */
  lemma UngroupedShape(value: string)
    ensures var digits := Ungroup(value);
            digits.Some? && |digits.value| == 16 ==>
              || value == digits.value
              || value == Join(Pairs(digits.value), ':')
              || value == Join(Pairs(digits.value), '-')
  {
    if ':' in value || '-' in value {
      hide Join, Pairs;
      var sep := if ':' in value then ':' else '-';
      if Ungroup(value).Some? {
        PairsOfConcat(Split(value, sep));
      }
    }
  }

  lemma SpellingParses(raw: string, marker: string, digits: string, id: DeviceId)
    requires Spelling(raw, marker, digits, id)
    ensures ParseDeviceId(raw) == Some(id)
  {
    hide Ungroup, Join, Pairs, Lower, HasHexMarker;
    var value := raw[|marker|..];
    assert raw == marker + value;
    DigitsUngroup(digits);
    UngroupOfJoin(digits, ':');
    UngroupOfJoin(digits, '-');
    MarkerIsSeen(raw, marker, value);
  }

  lemma DigitsUngroup(digits: string)
    requires |digits| == 16 && AllHex(digits)
    ensures Ungroup(digits) == Some(digits) && !HasHexMarker(digits)
  {
    assert digits[1] in digits;
  }

  lemma MarkerIsSeen(raw: string, marker: string, value: string)
    requires raw == marker + value && !HasHexMarker(value)
    requires marker == "" || marker == "0x" || marker == "0X"
    ensures HasHexMarker(raw) <==> marker != ""
    ensures marker != "" ==> raw[2..] == value
  {
  }

  lemma CanonicalParses(id: DeviceId)
    ensures ParseDeviceId(id) == Some(id)
  {
    assert forall i | 0 <= i < 16 :: id[i] in id;
    assert Lower(id) == id;
    assert id == "" + id;
    SpellingParses(id, "", id, id);
  }
}
