/** When a configuration can be bound to an inventory, stated without the loop that binds it
    (backends/harmony_g2/backend.py, `_snapshot`). */
module Binding {
  import opened Wrappers
  import opened Identity
  import opened Transport
  import opened Model
  import opened Backend

  /** Entry `k` of the inventory is the only one with the configured hardware id and component. */
  ghost predicate ListedOnce(c: Setting, endpoints: seq<G2Endpoint>, k: nat) {
    k < |endpoints|
    && forall j | 0 <= j < |endpoints| ::
         endpoints[j].deviceId == c.deviceId && endpoints[j].componentId == c.componentId <==> j == k
  }

  /** Profile `k` is the only one of the configured name; it lists a model and declares a writable OnOff at endpoint
      1. */
  ghost predicate DescribedOnce(c: Setting, profiles: seq<Profile>, k: nat) {
    && k < |profiles|
    && (forall j | 0 <= j < |profiles| :: profiles[j].profileId == c.profileId <==> j == k)
    && profiles[k].models != [] && 1 in profiles[k].endpoints
    && CapabilityProfile(OnOff, true) in profiles[k].endpoints[1]
  }

  /** There is something configured, no id twice, each device is listed exactly once, and its profile is unique and
      usable. */
  ghost predicate Bindable(settings: seq<Setting>, profiles: seq<Profile>, endpoints: seq<G2Endpoint>) {
    settings != [] && DistinctIds(settings) && forall c | c in settings :: Fits(c, profiles, endpoints)
  }

  ghost predicate DistinctIds(settings: seq<Setting>) {
    forall i, j | 0 <= i < j < |settings| :: settings[i].deviceId != settings[j].deviceId
  }

  ghost predicate Fits(c: Setting, profiles: seq<Profile>, endpoints: seq<G2Endpoint>) {
    (exists k: nat :: ListedOnce(c, endpoints, k)) && exists k: nat :: DescribedOnce(c, profiles, k)
  }

  /** The configured device as the bridge offers it: command-only OnOff at endpoint 1, described by its profile. */
  ghost predicate OfferedAs(c: Setting, profiles: seq<Profile>, d: RuntimeDevice) {
    exists k: nat ::
      && DescribedOnce(c, profiles, k)
      && d == RuntimeDevice(c.deviceId, profiles[k].manufacturer, profiles[k].models[0], profiles[k].endpoints.Keys,
                            c.name, c.profileId, [RuntimeCapability(1, OnOff, CommandOnly)])
  }

  ghost predicate BoundAs(c: Setting, endpoints: seq<G2Endpoint>, bindings: map<DeviceId, G2Endpoint>) {
    c.deviceId in bindings && exists k: nat :: ListedOnce(c, endpoints, k) && bindings[c.deviceId] == endpoints[k]
  }

  /** Position `k` is the only one that the condition admits. */
  ghost predicate Only<T>(s: seq<T>, admits: T -> bool, k: nat) {
    k < |s| && forall j | 0 <= j < |s| :: admits(s[j]) <==> j == k
  }

  lemma {:induction false} NoneAdmitted<T>(s: seq<T>, admits: T -> bool)
    ensures Filter(s, admits) == [] <==> forall j | 0 <= j < |s| :: !admits(s[j])
  {
    if s != [] {
      NoneAdmitted(s[..|s| - 1], admits);
    }
  }

  /** One element passes the filter exactly if the condition admits one position. */
  lemma {:induction false} OneAdmitted<T>(s: seq<T>, admits: T -> bool)
    ensures |Filter(s, admits)| == 1 <==> exists k: nat :: Only(s, admits, k)
    ensures forall k: nat | Only(s, admits, k) :: Filter(s, admits) == [s[k]]
  {
    if s != [] {
      var n := |s| - 1;
      var front := s[..n];
      OneAdmitted(front, admits);
      NoneAdmitted(front, admits);
      if admits(s[n]) {
        forall k: nat | Only(s, admits, k) ensures k == n {
        }
        if Filter(front, admits) == [] {
          assert Only(s, admits, n);
        }
      } else {
        forall k: nat ensures Only(s, admits, k) <==> Only(front, admits, k) {
          assert forall j | 0 <= j < n :: s[j] == front[j];
        }
      }
    }
  }

  lemma ProfileIsExact(c: Setting, profiles: seq<Profile>)
    ensures FindProfile(profiles, c.profileId).Some? <==> exists k: nat :: DescribedOnce(c, profiles, k)
    ensures forall k: nat | DescribedOnce(c, profiles, k) :: FindProfile(profiles, c.profileId) == Some(profiles[k])
  {
    hide Filter;
    OneAdmitted(profiles, HasName(c.profileId));
    forall k: nat | DescribedOnce(c, profiles, k) ensures Only(profiles, HasName(c.profileId), k) {
    }
    if FindProfile(profiles, c.profileId).Some? {
      var k: nat :| Only(profiles, HasName(c.profileId), k);
      assert DescribedOnce(c, profiles, k);
    }
  }

  lemma MatchIsExact(c: Setting, endpoints: seq<G2Endpoint>)
    ensures |Matches(endpoints, c)| == 1 <==> exists k: nat :: ListedOnce(c, endpoints, k)
    ensures forall k: nat | ListedOnce(c, endpoints, k) :: Matches(endpoints, c) == [endpoints[k]]
  {
    hide Filter;
    OneAdmitted(endpoints, HasPairOf(c));
    forall k: nat ensures ListedOnce(c, endpoints, k) <==> Only(endpoints, HasPairOf(c), k) {
    }
  }

  lemma FitsIsExact(c: Setting, profiles: seq<Profile>, endpoints: seq<G2Endpoint>)
    ensures |Matches(endpoints, c)| == 1 && FindProfile(profiles, c.profileId).Some? <==> Fits(c, profiles, endpoints)
    ensures Fits(c, profiles, endpoints) ==>
              && BoundAs(c, endpoints, map[c.deviceId := Matches(endpoints, c)[0]])
              && OfferedAs(c, profiles, AssertedDevice(c, FindProfile(profiles, c.profileId).value))
  {
    hide Matches, FindProfile, ListedOnce, DescribedOnce;
    MatchIsExact(c, endpoints);
    ProfileIsExact(c, profiles);
    if Fits(c, profiles, endpoints) {
      var k: nat :| ListedOnce(c, endpoints, k);
      var p: nat :| DescribedOnce(c, profiles, p);
      DescriptionIsNamed(c, profiles, p);
      InRange(c, endpoints, k);
      assert OfferedAs(c, profiles, AssertedDevice(c, profiles[p]));
    }
  }

  lemma DescriptionIsNamed(c: Setting, profiles: seq<Profile>, p: nat)
    requires DescribedOnce(c, profiles, p)
    ensures p < |profiles| && profiles[p].profileId == c.profileId && profiles[p].models != []
  {
  }

  lemma InRange(c: Setting, endpoints: seq<G2Endpoint>, k: nat)
    requires ListedOnce(c, endpoints, k)
    ensures k < |endpoints|
  {
  }

  /** What a snapshot is: one device per setting, in order, each bound to its one inventory entry, and nothing else. */
  ghost predicate IsSnapshot(settings: seq<Setting>, profiles: seq<Profile>, endpoints: seq<G2Endpoint>, so: Bound) {
    && |so.devices| == |settings|
    && (forall i | 0 <= i < |settings| :: OfferedAs(settings[i], profiles, so.devices[i]))
    && (forall i | 0 <= i < |settings| :: BoundAs(settings[i], endpoints, so.bindings))
    && (forall id | id in so.bindings :: exists i :: 0 <= i < |settings| && settings[i].deviceId == id)
  }

  lemma SnapshotOfMore(front: seq<Setting>, c: Setting, profiles: seq<Profile>, endpoints: seq<G2Endpoint>, so: Bound,
                       d: RuntimeDevice, matched: G2Endpoint)
    requires IsSnapshot(front, profiles, endpoints, so) && c.deviceId !in so.bindings
    requires OfferedAs(c, profiles, d) && BoundAs(c, endpoints, map[c.deviceId := matched])
    ensures IsSnapshot(front + [c], profiles, endpoints, Bound(so.devices + [d], so.bindings[c.deviceId := matched]))
  {
    hide OfferedAs, ListedOnce;
    var settings, bindings := front + [c], so.bindings[c.deviceId := matched];
    forall i | 0 <= i < |settings| ensures BoundAs(settings[i], endpoints, bindings) {
      if i < |front| {
        assert BoundAs(front[i], endpoints, so.bindings);
      }
    }
    forall id | id in bindings ensures exists i :: 0 <= i < |settings| && settings[i].deviceId == id {
      if id == c.deviceId {
        assert settings[|front|].deviceId == id;
      } else {
        var i :| 0 <= i < |front| && front[i].deviceId == id;
        assert settings[i].deviceId == id;
      }
    }
  }

  /** The ids bound so far are the ids configured so far. */
  lemma NewIdIsUnbound(front: seq<Setting>, c: Setting, profiles: seq<Profile>, endpoints: seq<G2Endpoint>, so: Bound)
    requires IsSnapshot(front, profiles, endpoints, so) && DistinctIds(front)
    ensures c.deviceId !in so.bindings <==> DistinctIds(front + [c])
  {
    hide OfferedAs, ListedOnce;
    if c.deviceId in so.bindings {
      var i :| 0 <= i < |front| && front[i].deviceId == c.deviceId;
      assert (front + [c])[i] == front[i] && (front + [c])[|front|] == c;
    } else {
      forall i | 0 <= i < |front| ensures front[i].deviceId != c.deviceId {
        assert BoundAs(front[i], endpoints, so.bindings);
      }
    }
  }

  /** `_snapshot` binds exactly the configurations that can be bound, and to what they name. */
  lemma {:induction false} BindIsExact(settings: seq<Setting>, profiles: seq<Profile>, endpoints: seq<G2Endpoint>)
    ensures match Bind(settings, profiles, endpoints)
            case Some(so) =>
              && DistinctIds(settings) && (forall c | c in settings :: Fits(c, profiles, endpoints))
              && IsSnapshot(settings, profiles, endpoints, so)
            case None => !DistinctIds(settings) || exists c :: c in settings && !Fits(c, profiles, endpoints)
  {
    hide Matches, FindProfile, Fits, OfferedAs, BoundAs, DistinctIds, IsSnapshot, AssertedDevice;
    if settings == [] {
      NothingToBind(profiles, endpoints);
    } else {
      var n := |settings| - 1;
      var front, c := settings[..n], settings[n];
      assert settings == front + [c];
      BindIsExact(front, profiles, endpoints);
      FitsIsExact(c, profiles, endpoints);
      DistinctFront(front, c);
      if Bind(front, profiles, endpoints).Some? {
        var so := Bind(front, profiles, endpoints).value;
        NewIdIsUnbound(front, c, profiles, endpoints, so);
        if c.deviceId !in so.bindings && Fits(c, profiles, endpoints) {
          SnapshotOfMore(front, c, profiles, endpoints, so, AssertedDevice(c, FindProfile(profiles, c.profileId).value),
                         Matches(endpoints, c)[0]);
        }
      } else if DistinctIds(front) {
        var d :| d in front && !Fits(d, profiles, endpoints);
        assert d in settings;
      }
    }
  }

  lemma NothingToBind(profiles: seq<Profile>, endpoints: seq<G2Endpoint>)
    ensures DistinctIds([]) && IsSnapshot([], profiles, endpoints, Bound([], map[]))
  {
  }

  lemma DistinctFront(front: seq<Setting>, c: Setting)
    ensures DistinctIds(front + [c]) ==> DistinctIds(front)
  {
    if DistinctIds(front + [c]) {
      forall i, j | 0 <= i < j < |front| ensures front[i].deviceId != front[j].deviceId {
        assert (front + [c])[i] == front[i] && (front + [c])[j] == front[j];
      }
    }
  }

  lemma SnapshotIsExact(settings: seq<Setting>, profiles: seq<Profile>, endpoints: seq<G2Endpoint>)
    ensures match Snapshot(settings, profiles, endpoints)
            case Some(so) => Bindable(settings, profiles, endpoints) && IsSnapshot(settings, profiles, endpoints, so)
            case None => !Bindable(settings, profiles, endpoints)
  {
    hide Bind, Fits, DistinctIds, IsSnapshot;
    BindIsExact(settings, profiles, endpoints);
  }
}
