/**
 * The registry of live device sessions: three maps that one class updates together. Sessions
 * are identified by number; registration ids come from a supply of fresh names.
 */
module DeviceSessionRegistry {
  import opened Wrappers
  import opened DeviceCredential

  type OwnerId = nat
  type SessionId = nat
  type RegistrationId = nat

  /** The gateway's session, as the registry sees it. */
  datatype Session = Session(id: SessionId, ownerId: OwnerId, deviceId: DeviceId)

  datatype Registration = Registration(
    registrationId: RegistrationId,
    generation: Generation,
    connectedAtMs: int,
    lastSeenAtMs: int,
    session: Session)

  datatype Ref = Ref(deviceId: DeviceId, registrationId: RegistrationId)

  type Devices = map<DeviceId, Registration>
  type Owners = map<OwnerId, set<DeviceId>>
  type Refs = map<Session, Ref>

  // --- The registry as a map of devices ----------------------------------------------------------------

  /** Every device's registration belongs to it, and registration ids are given out once. */
  predicate DevicesValid(devices: Devices, nextId: nat) {
    && (forall d <- devices :: devices[d].session.deviceId == d && devices[d].registrationId < nextId)
    && (forall d <- devices, e <- devices :: devices[d].registrationId == devices[e].registrationId ==> d == e)
  }

  predicate Belongs(owners: Owners, owner: OwnerId, d: DeviceId) {
    owner in owners && d in owners[owner]
  }

  predicate Owns(devices: Devices, owner: OwnerId, d: DeviceId) {
    d in devices && devices[d].session.ownerId == owner
  }

  predicate NoEmptyGroup(owners: Owners) {
    forall owner <- owners :: owners[owner] != {}
  }

  /** The owner index is the device map grouped by owner, without empty groups. */
  ghost predicate OwnersIndexed(owners: Owners, devices: Devices) {
    NoEmptyGroup(owners) && forall owner, d :: Belongs(owners, owner, d) <==> Owns(devices, owner, d)
  }

  predicate Registered(devices: Devices, s: Session) {
    s.deviceId in devices && devices[s.deviceId].session == s
  }

  /** The session index is the inverse of the device map. */
  ghost predicate SessionsIndexed(refs: Refs, devices: Devices) {
    forall s :: (s in refs <==> Registered(devices, s))
                && (s in refs ==> refs[s] == Ref(s.deviceId, devices[s.deviceId].registrationId))
  }

  /** There is only one such owner index: it can be computed from the device map alone. */
  lemma OwnerIndexIsUnique(a: Owners, b: Owners, devices: Devices)
    requires OwnersIndexed(a, devices) && OwnersIndexed(b, devices)
    ensures a == b
  {
    forall owner | owner in a ensures owner in b {
      var d :| d in a[owner];
      assert Belongs(a, owner, d) && Belongs(b, owner, d);
    }
    forall owner | owner in b ensures owner in a {
      var d :| d in b[owner];
      assert Belongs(b, owner, d) && Belongs(a, owner, d);
    }
    forall owner | owner in a ensures a[owner] == b[owner] {
      forall d ensures d in a[owner] <==> d in b[owner] {
        assert Belongs(a, owner, d) <==> Belongs(b, owner, d);
      }
    }
  }

  function SnapshotOf(devices: Devices, s: Session): Option<Registration> {
    if Registered(devices, s) then Some(devices[s.deviceId]) else None
  }

  predicate IsLive(r: Registration, ready: set<Session>, nowMs: int, timeoutMs: int) {
    r.session in ready && nowMs - r.lastSeenAtMs < timeoutMs
  }

  /** A heartbeat moves the last sight of a live session forward, and revives no other. */
  function Beaten(r: Registration, ready: set<Session>, nowMs: int, timeoutMs: int): Registration {
    if IsLive(r, ready, nowMs, timeoutMs) then r.(lastSeenAtMs := Max(r.lastSeenAtMs, nowMs)) else r
  }

  function AllBeaten(r: Registration, ready: set<Session>, beats: seq<int>, timeoutMs: int): Registration
    decreases |beats|
  {
    if beats == [] then r else AllBeaten(Beaten(r, ready, beats[0], timeoutMs), ready, beats[1..], timeoutMs)
  }

  /** From one sight to the next, and from the last one until now, less than the timeout passes. */
  predicate NoGap(from: int, beats: seq<int>, nowMs: int, timeoutMs: int)
    decreases |beats|
  {
    if beats == [] then nowMs < from + timeoutMs
    else beats[0] < from + timeoutMs && NoGap(beats[0], beats[1..], nowMs, timeoutMs)
  }

  predicate Ascending(from: int, beats: seq<int>, nowMs: int)
    decreases |beats|
  {
    if beats == [] then from <= nowMs else from <= beats[0] && Ascending(beats[0], beats[1..], nowMs)
  }

  lemma {:induction false} AscendingEnds(from: int, beats: seq<int>, nowMs: int)
    requires Ascending(from, beats, nowMs)
    ensures from <= nowMs
    decreases |beats|
  {
    if beats != [] {
      AscendingEnds(beats[0], beats[1..], nowMs);
    }
  }

  lemma {:induction false} TimedOutStays(r: Registration, ready: set<Session>, from: int, beats: seq<int>, nowMs: int,
                                         timeoutMs: int)
    requires Ascending(from, beats, nowMs) && from - r.lastSeenAtMs >= timeoutMs
    ensures AllBeaten(r, ready, beats, timeoutMs) == r && !IsLive(r, ready, nowMs, timeoutMs)
    decreases |beats|
  {
    AscendingEnds(from, beats, nowMs);
    if beats != [] {
      TimedOutStays(r, ready, beats[0], beats[1..], nowMs, timeoutMs);
    }
  }

  /**
   * A ready session that was registered, or last seen, at some time counts as live exactly until
   * the timeout passes without a heartbeat; then no later heartbeat brings it back.
   */
  lemma {:induction false} LiveExactlyWhileBeating(r: Registration, ready: set<Session>, beats: seq<int>, nowMs: int,
                                                   timeoutMs: int)
    requires timeoutMs > 0 && Ascending(r.lastSeenAtMs, beats, nowMs)
    ensures IsLive(AllBeaten(r, ready, beats, timeoutMs), ready, nowMs, timeoutMs)
       <==> r.session in ready && NoGap(r.lastSeenAtMs, beats, nowMs, timeoutMs)
    decreases |beats|
  {
    if r.session !in ready {
      NotReadyStays(r, ready, beats, timeoutMs);
    } else if beats != [] {
      if beats[0] < r.lastSeenAtMs + timeoutMs {
        LiveExactlyWhileBeating(Beaten(r, ready, beats[0], timeoutMs), ready, beats[1..], nowMs, timeoutMs);
      } else {
        TimedOutStays(r, ready, beats[0], beats[1..], nowMs, timeoutMs);
      }
    }
  }

  lemma {:induction false} NotReadyStays(r: Registration, ready: set<Session>, beats: seq<int>, timeoutMs: int)
    requires r.session !in ready
    ensures AllBeaten(r, ready, beats, timeoutMs) == r
    decreases |beats|
  {
    if beats != [] {
      NotReadyStays(r, ready, beats[1..], timeoutMs);
    }
  }

  lemma SessionsAfterTakeover(refs: Refs, devices: Devices, r: Registration, nextId: nat)
    requires DevicesValid(devices, nextId) && SessionsIndexed(refs, devices) && !Registered(devices, r.session)
    ensures
      var d := r.session.deviceId;
      var refs1 := refs[r.session := Ref(d, r.registrationId)];
      SessionsIndexed(if d in devices then refs1 - {devices[d].session} else refs1, devices[d := r])
  {
  }

  lemma OwnersAfterTakeover(owners: Owners, owners': Owners, devices: Devices, r: Registration, nextId: nat)
    requires DevicesValid(devices, nextId) && OwnersIndexed(owners, devices) && NoEmptyGroup(owners')
    requires
      var d, owner := r.session.deviceId, r.session.ownerId;
      forall o, e :: Belongs(owners', o, e) <==>
        && (Belongs(owners, o, e) || (o == owner && e == d))
        && !(d in devices && devices[d].session.ownerId != owner && o == devices[d].session.ownerId && e == d)
    ensures OwnersIndexed(owners', devices[r.session.deviceId := r])
  {
  }

  lemma OwnersAfterRemoval(owners: Owners, owners': Owners, devices: Devices, d: DeviceId)
    requires d in devices && OwnersIndexed(owners, devices) && NoEmptyGroup(owners')
    requires forall o, e :: Belongs(owners', o, e) <==>
               Belongs(owners, o, e) && !(o == devices[d].session.ownerId && e == d)
    ensures OwnersIndexed(owners', devices - {d})
  {
  }

  // --- The registry ------------------------------------------------------------------------------------

  class Registry {
    var byDeviceId: Devices
    var deviceIdsByOwner: Owners
    var registrationBySession: Refs
    var nextRegistrationId: nat
    const heartbeatTimeoutMs: nat

    /** Both indexes are determined by the device map. */
    ghost predicate Valid()
      reads this
    {
      && DevicesValid(byDeviceId, nextRegistrationId)
      && OwnersIndexed(deviceIdsByOwner, byDeviceId)
      && SessionsIndexed(registrationBySession, byDeviceId)
    }

    constructor (heartbeatTimeoutMs: nat)
      ensures Valid() && byDeviceId == map[] && this.heartbeatTimeoutMs == heartbeatTimeoutMs
    {
      byDeviceId, deviceIdsByOwner, registrationBySession := map[], map[], map[];
      nextRegistrationId := 0;
      this.heartbeatTimeoutMs := heartbeatTimeoutMs;
    }

    method AddOwnerDevice(owner: OwnerId, d: DeviceId)
      requires NoEmptyGroup(deviceIdsByOwner)
      modifies this`deviceIdsByOwner
      ensures NoEmptyGroup(deviceIdsByOwner)
      ensures forall o, e :: Belongs(deviceIdsByOwner, o, e)
                        <==> Belongs(old(deviceIdsByOwner), o, e) || (o == owner && e == d)
    {
      var deviceIds := if owner in deviceIdsByOwner then deviceIdsByOwner[owner] else {};
      deviceIdsByOwner := deviceIdsByOwner[owner := deviceIds + {d}];
    }

    method RemoveOwnerDevice(owner: OwnerId, d: DeviceId)
      requires NoEmptyGroup(deviceIdsByOwner)
      modifies this`deviceIdsByOwner
      ensures NoEmptyGroup(deviceIdsByOwner)
      ensures forall o, e :: Belongs(deviceIdsByOwner, o, e)
                        <==> Belongs(old(deviceIdsByOwner), o, e) && !(o == owner && e == d)
    {
      if owner !in deviceIdsByOwner {
        return;
      }
      var deviceIds := deviceIdsByOwner[owner] - {d};
      if deviceIds == {} {
        forall e | e in deviceIdsByOwner[owner] ensures e == d {
          assert e !in deviceIds;
        }
        deviceIdsByOwner := deviceIdsByOwner - {owner};
      } else {
        deviceIdsByOwner := deviceIdsByOwner[owner := deviceIds];
      }
    }

    /**
     * Only an authenticated session that is ready is registered. One that is registered already
     * stays as it is; any other takes its device over, with a generation that is well-formed.
     */
    method Register(s: Session, authenticated: bool, ready: set<Session>, generation: Generation, nowMs: int)
      returns (current: Option<Registration>, replaced: Option<Registration>)
      requires Valid()
      modifies this`byDeviceId, this`deviceIdsByOwner, this`registrationBySession, this`nextRegistrationId
      ensures Valid()
      ensures current.Some? <==>
        authenticated && s in ready && (Registered(old(byDeviceId), s) || generation.version > 0)
      ensures current.None? ==> byDeviceId == old(byDeviceId) && replaced == None
      ensures current.Some? ==> Registered(byDeviceId, s) && current.value == byDeviceId[s.deviceId]
      ensures current.Some? && Registered(old(byDeviceId), s) ==> byDeviceId == old(byDeviceId) && replaced == None
      ensures current.Some? && !Registered(old(byDeviceId), s) ==>
        && current.value == Registration(old(nextRegistrationId), generation, nowMs, nowMs, s)
        && byDeviceId == old(byDeviceId)[s.deviceId := current.value]
        && replaced == (if s.deviceId in old(byDeviceId) then Some(old(byDeviceId)[s.deviceId]) else None)
    {
      if !authenticated || s !in ready {
        return None, None;
      }
      if s in registrationBySession {
        var ref := registrationBySession[s];
        // The reference always matches: its mismatch branch is dead.
        assert ref.deviceId in byDeviceId && byDeviceId[ref.deviceId].registrationId == ref.registrationId
               && byDeviceId[ref.deviceId].session == s;
        return Some(byDeviceId[ref.deviceId]), None;
      }
      if generation.version == 0 {
        return None, None;
      }
      var registration, previous := TakeOver(s, generation, nowMs);
      current, replaced := Some(registration), previous;
    }

    method ReindexOwner(s: Session, replaced: Option<Registration>)
      requires NoEmptyGroup(deviceIdsByOwner)
      modifies this`deviceIdsByOwner
      ensures NoEmptyGroup(deviceIdsByOwner)
      ensures forall o, e :: Belongs(deviceIdsByOwner, o, e) <==>
        && (Belongs(old(deviceIdsByOwner), o, e) || (o == s.ownerId && e == s.deviceId))
        && !(replaced.Some? && replaced.value.session.ownerId != s.ownerId
             && o == replaced.value.session.ownerId && e == replaced.value.session.deviceId)
    {
      AddOwnerDevice(s.ownerId, s.deviceId);
      if replaced.Some? && replaced.value.session.ownerId != s.ownerId {
        RemoveOwnerDevice(replaced.value.session.ownerId, replaced.value.session.deviceId);
      }
    }

    method TakeOver(s: Session, generation: Generation, nowMs: int)
      returns (current: Registration, replaced: Option<Registration>)
      requires Valid() && !Registered(byDeviceId, s)
      modifies this`byDeviceId, this`deviceIdsByOwner, this`registrationBySession, this`nextRegistrationId
      ensures Valid() && current == Registration(old(nextRegistrationId), generation, nowMs, nowMs, s)
      ensures byDeviceId == old(byDeviceId)[s.deviceId := current]
      ensures replaced == if s.deviceId in old(byDeviceId) then Some(old(byDeviceId)[s.deviceId]) else None
    {
      ghost var devices, owners, refs := byDeviceId, deviceIdsByOwner, registrationBySession;
      current := Registration(nextRegistrationId, generation, nowMs, nowMs, s);
      nextRegistrationId := nextRegistrationId + 1;
      replaced := if s.deviceId in byDeviceId then Some(byDeviceId[s.deviceId]) else None;
      byDeviceId := byDeviceId[s.deviceId := current];
      registrationBySession := registrationBySession[s := Ref(s.deviceId, current.registrationId)];
      if replaced.Some? {
        registrationBySession := registrationBySession - {replaced.value.session};
      }
      ReindexOwner(s, replaced);
      SessionsAfterTakeover(refs, devices, current, old(nextRegistrationId));
      OwnersAfterTakeover(owners, deviceIdsByOwner, devices, current, old(nextRegistrationId));
    }

    method Remove(r: Registration)
      requires Valid()
      modifies this`byDeviceId, this`deviceIdsByOwner, this`registrationBySession
      ensures Valid()
      ensures byDeviceId == if r.session.deviceId in old(byDeviceId)
                               && old(byDeviceId)[r.session.deviceId].registrationId == r.registrationId
                            then old(byDeviceId) - {r.session.deviceId} else old(byDeviceId)
    {
      var d := r.session.deviceId;
      if d !in byDeviceId || byDeviceId[d].registrationId != r.registrationId {
        return;
      }
      ghost var devices, owners := byDeviceId, deviceIdsByOwner;
      var entry := byDeviceId[d];
      byDeviceId := byDeviceId - {d};
      registrationBySession := registrationBySession - {entry.session};
      RemoveOwnerDevice(entry.session.ownerId, d);
      OwnersAfterRemoval(owners, deviceIdsByOwner, devices, d);
    }

    method GetBySession(s: Session) returns (r: Option<Registration>)
      requires Valid()
      ensures r == SnapshotOf(byDeviceId, s)
    {
      if s !in registrationBySession {
        return None;
      }
      r := Some(byDeviceId[registrationBySession[s].deviceId]);
    }

    method GetActive(d: DeviceId, ready: set<Session>, nowMs: int) returns (r: Option<Registration>)
      ensures r == if d in byDeviceId && IsLive(byDeviceId[d], ready, nowMs, heartbeatTimeoutMs)
                   then Some(byDeviceId[d]) else None
    {
      if d !in byDeviceId || !IsLive(byDeviceId[d], ready, nowMs, heartbeatTimeoutMs) {
        return None;
      }
      r := Some(byDeviceId[d]);
    }

    /** A heartbeat moves the last sight of a live session forward, and nothing else. */
    method MarkHeartbeat(s: Session, ready: set<Session>, nowMs: int) returns (ok: bool)
      requires Valid()
      modifies this`byDeviceId
      ensures Valid()
      ensures ok <==> Registered(old(byDeviceId), s)
                      && IsLive(old(byDeviceId)[s.deviceId], ready, nowMs, heartbeatTimeoutMs)
      ensures byDeviceId == if Registered(old(byDeviceId), s)
                            then old(byDeviceId)[s.deviceId := Beaten(old(byDeviceId)[s.deviceId], ready, nowMs, heartbeatTimeoutMs)]
                            else old(byDeviceId)
    {
      if s !in registrationBySession {
        return false;
      }
      var entry := byDeviceId[registrationBySession[s].deviceId];
      if !IsLive(entry, ready, nowMs, heartbeatTimeoutMs) {
        return false;
      }
      var seen := if entry.lastSeenAtMs < nowMs then nowMs else entry.lastSeenAtMs;
      byDeviceId := byDeviceId[s.deviceId := entry.(lastSeenAtMs := seen)];
      ok := true;
    }

    /** Evicting a session removes its own registration; a session that was replaced removes nothing. */
    method EvictSession(s: Session) returns (r: Option<Registration>)
      requires Valid()
      modifies this`byDeviceId, this`deviceIdsByOwner, this`registrationBySession
      ensures Valid() && r == SnapshotOf(old(byDeviceId), s)
      ensures byDeviceId == if r.Some? then old(byDeviceId) - {s.deviceId} else old(byDeviceId)
    {
      if s !in registrationBySession {
        return None;
      }
      var entry := byDeviceId[registrationBySession[s].deviceId];
      Remove(entry);
      r := Some(entry);
    }

    /** Evicting a generation removes the device's registration exactly when it carries it. */
    method EvictGeneration(d: DeviceId, generation: Generation) returns (r: Option<Registration>)
      requires Valid()
      modifies this`byDeviceId, this`deviceIdsByOwner, this`registrationBySession
      ensures Valid()
      ensures r == if d in old(byDeviceId) && old(byDeviceId)[d].generation == generation
                   then Some(old(byDeviceId)[d]) else None
      ensures byDeviceId == if r.Some? then old(byDeviceId) - {d} else old(byDeviceId)
    {
      if d !in byDeviceId || byDeviceId[d].generation != generation {
        return None;
      }
      var entry := byDeviceId[d];
      Remove(entry);
      r := Some(entry);
    }

    /** The owner's listing is a plain filter of the device map, each registration once. */
    method ListActiveForOwner(owner: OwnerId, ready: set<Session>, nowMs: int) returns (sessions: seq<Registration>)
      requires Valid()
      ensures forall r :: r in sessions <==>
        Owns(byDeviceId, owner, r.session.deviceId) && byDeviceId[r.session.deviceId] == r
        && IsLive(r, ready, nowMs, heartbeatTimeoutMs)
      ensures forall i, j | 0 <= i < j < |sessions| :: sessions[i].session.deviceId != sessions[j].session.deviceId
    {
      sessions := [];
      var unseen := if owner in deviceIdsByOwner then deviceIdsByOwner[owner] else {};
      while unseen != {}
        invariant forall d <- unseen :: Owns(byDeviceId, owner, d)
        invariant forall r :: r in sessions <==>
          Owns(byDeviceId, owner, r.session.deviceId) && r.session.deviceId !in unseen
          && byDeviceId[r.session.deviceId] == r && IsLive(r, ready, nowMs, heartbeatTimeoutMs)
        invariant forall i, j | 0 <= i < j < |sessions| :: sessions[i].session.deviceId != sessions[j].session.deviceId
        decreases |unseen|
      {
        var d :| d in unseen;
        var entry := byDeviceId[d];
        unseen := unseen - {d};
        if IsLive(entry, ready, nowMs, heartbeatTimeoutMs) {
          sessions := sessions + [entry];
        }
      }
    }

    /** Everything is forgotten, and what was registered is returned, each registration once. */
    method Clear() returns (entries: seq<Registration>)
      requires Valid()
      modifies this`byDeviceId, this`deviceIdsByOwner, this`registrationBySession
      ensures Valid() && byDeviceId == map[]
      ensures forall r :: r in entries <==>
        r.session.deviceId in old(byDeviceId) && old(byDeviceId)[r.session.deviceId] == r
      ensures forall i, j | 0 <= i < j < |entries| :: entries[i].session.deviceId != entries[j].session.deviceId
    {
      entries := [];
      var unseen := byDeviceId.Keys;
      while unseen != {}
        invariant unseen <= byDeviceId.Keys
        invariant forall r :: r in entries <==>
          r.session.deviceId in byDeviceId && r.session.deviceId !in unseen && byDeviceId[r.session.deviceId] == r
        invariant forall i, j | 0 <= i < j < |entries| :: entries[i].session.deviceId != entries[j].session.deviceId
        decreases |unseen|
      {
        var d :| d in unseen;
        entries := entries + [byDeviceId[d]];
        unseen := unseen - {d};
      }
      byDeviceId, deviceIdsByOwner, registrationBySession := map[], map[], map[];
    }
  }
}
