/**
 * The device-credential repository: one current record per device, replaced only by
 * compare-and-swap on the generation (credential id, version).
 * UUIDs and SHA-256 are opaque: ids are naturals, and a digest is the injective
 * constructor DigestOf applied to the secret.
 */
module DeviceCredential {
  import opened Wrappers

  type DeviceId = nat
  type CredentialId = nat
  type Secret = nat

  datatype Digest = DigestOf(secret: Secret)

  datatype Status = Active | Revoked(revokedAtMs: int)

  datatype Credential = Credential(
    credentialId: CredentialId,
    version: nat,
    digest: Digest,
    createdAtMs: int,
    status: Status)

  datatype Generation = Generation(credentialId: CredentialId, version: nat)

  datatype Store = Store(byDevice: map<DeviceId, Credential>, used: set<CredentialId>)

  datatype ErrorCode = InvalidCredentialInput | InvalidClock | CredentialAlreadyExists
                     | CredentialIdConflict | CredentialUnavailable

  /** A repository call either yields a credential, yields null, or throws. */
  datatype Response = Issued(credential: Credential) | Null | Error(code: ErrorCode)

  datatype Op =
    | Issue(device: DeviceId, credentialId: CredentialId, digest: Digest, at: int)
    | Revoke(device: DeviceId, expectedId: CredentialId, expectedVersion: int, at: int)
    | Rotate(device: DeviceId, expectedId: CredentialId, expectedVersion: int,
             credentialId: CredentialId, digest: Digest, at: int)

  const EMPTY_STORE := Store(map[], {})

  function GenerationOf(c: Credential): Generation {
    Generation(c.credentialId, c.version)
  }

  function GetActive(s: Store, device: DeviceId): Option<Credential> {
    if device in s.byDevice && s.byDevice[device].status.Active?
    then Some(s.byDevice[device]) else None
  }

  function ActiveGeneration(s: Store, device: DeviceId): Option<Generation> {
    match GetActive(s, device)
    case Some(c) => Some(GenerationOf(c))
    case None => None
  }

  function Verify(s: Store, device: DeviceId, digest: Digest): Option<Credential> {
    match GetActive(s, device)
    case Some(c) => if c.digest == digest then Some(c) else None
    case None => None
  }

  predicate Matches(s: Store, device: DeviceId, expectedId: CredentialId, expectedVersion: int) {
    ActiveGeneration(s, device).Some?
    && ActiveGeneration(s, device).value.credentialId == expectedId
    && ActiveGeneration(s, device).value.version == expectedVersion
  }

  function Install(s: Store, device: DeviceId, c: Credential): Store {
    Store(s.byDevice[device := c], s.used + {c.credentialId})
  }

  function Apply(s: Store, op: Op): (Store, Response) {
    match op
    case Issue(device, id, digest, at) =>
      if GetActive(s, device).Some? then (s, Error(CredentialAlreadyExists))
      else if id in s.used then (s, Error(CredentialIdConflict))
      else
        var version := if device in s.byDevice then s.byDevice[device].version + 1 else 1;
        var c := Credential(id, version, digest, at, Active);
        (Install(s, device, c), Issued(c))
    case Revoke(device, expectedId, expectedVersion, at) =>
      if expectedVersion <= 0 then (s, Error(InvalidCredentialInput))
      else if !Matches(s, device, expectedId, expectedVersion) then (s, Null)
      else if at < s.byDevice[device].createdAtMs then (s, Error(InvalidClock))
      else
        var c := s.byDevice[device].(status := Revoked(at));
        (s.(byDevice := s.byDevice[device := c]), Issued(c))
    case Rotate(device, expectedId, expectedVersion, id, digest, at) =>
      if expectedVersion <= 0 then (s, Error(InvalidCredentialInput))
      else if !Matches(s, device, expectedId, expectedVersion) then (s, Error(CredentialUnavailable))
      else if id in s.used then (s, Error(CredentialIdConflict))
      else if at < s.byDevice[device].createdAtMs then (s, Error(InvalidClock))
      else
        var c := Credential(id, s.byDevice[device].version + 1, digest, at, Active);
        (Install(s, device, c), Issued(c))
  }

  /** The in-memory repository itself: two fields, updated in place. */
  class InMemoryDeviceCredentialRepository {
    var byDeviceId: map<DeviceId, Credential>
    var usedCredentialIds: set<CredentialId>

    function Contents(): Store
      reads this
    {
      Store(byDeviceId, usedCredentialIds)
    }

    constructor ()
      ensures Contents() == EMPTY_STORE
    {
      byDeviceId, usedCredentialIds := map[], {};
    }

    method Issue(device: DeviceId, id: CredentialId, digest: Digest, at: int) returns (r: Response)
      modifies this
      ensures (Contents(), r) == Apply(old(Contents()), Op.Issue(device, id, digest, at))
    {
      var version := 1;
      if device in byDeviceId {
        var existing := byDeviceId[device];
        if existing.status.Active? {
          return Error(CredentialAlreadyExists);
        }
        version := existing.version + 1;
      }
      if id in usedCredentialIds {
        return Error(CredentialIdConflict);
      }
      var record := Credential(id, version, digest, at, Active);
      byDeviceId := byDeviceId[device := record];
      usedCredentialIds := usedCredentialIds + {id};
      r := Issued(record);
    }

    method VerifyDigest(device: DeviceId, digest: Digest) returns (r: Option<Credential>)
      ensures r == Verify(Contents(), device, digest)
    {
      if device !in byDeviceId || !byDeviceId[device].status.Active? || byDeviceId[device].digest != digest {
        return None;
      }
      r := Some(byDeviceId[device]);
    }

    method Revoke(device: DeviceId, expectedId: CredentialId, expectedVersion: int, at: int)
      returns (r: Response)
      modifies this
      ensures (Contents(), r) == Apply(old(Contents()), Op.Revoke(device, expectedId, expectedVersion, at))
    {
      if expectedVersion <= 0 {
        return Error(InvalidCredentialInput);
      }
      if device !in byDeviceId {
        return Null;
      }
      var record := byDeviceId[device];
      if !record.status.Active? || record.credentialId != expectedId || record.version != expectedVersion {
        return Null;
      }
      if at < record.createdAtMs {
        return Error(InvalidClock);
      }
      record := record.(status := Revoked(at));
      byDeviceId := byDeviceId[device := record];
      r := Issued(record);
    }

    method Rotate(device: DeviceId, expectedId: CredentialId, expectedVersion: int,
                  id: CredentialId, digest: Digest, at: int)
      returns (r: Response)
      modifies this
      ensures (Contents(), r)
           == Apply(old(Contents()), Op.Rotate(device, expectedId, expectedVersion, id, digest, at))
    {
      if expectedVersion <= 0 {
        return Error(InvalidCredentialInput);
      }
      if device !in byDeviceId {
        return Error(CredentialUnavailable);
      }
      var current := byDeviceId[device];
      if !current.status.Active? || current.credentialId != expectedId || current.version != expectedVersion {
        return Error(CredentialUnavailable);
      }
      if id in usedCredentialIds {
        return Error(CredentialIdConflict);
      }
      if at < current.createdAtMs {
        return Error(InvalidClock);
      }
      var next := Credential(id, current.version + 1, digest, at, Active);
      byDeviceId := byDeviceId[device := next];
      usedCredentialIds := usedCredentialIds + {id};
      r := Issued(next);
    }
  }

  // --- What every run keeps ---------------------------------------------------------

  /** Every current id is marked used, and no two devices hold the same id. */
  ghost predicate Valid(s: Store) {
    && (forall d <- s.byDevice :: s.byDevice[d].credentialId in s.used && s.byDevice[d].version >= 1)
    && (forall d, e | d in s.byDevice && e in s.byDevice
          && s.byDevice[d].credentialId == s.byDevice[e].credentialId :: d == e)
  }

  /** How a device's record may evolve: same record, same record revoked, or a higher version. */
  predicate Succeeds(before: Credential, after: Credential) {
    || after == before
    || (before.status.Active? && after.status.Revoked? && after == before.(status := after.status))
    || after.version > before.version
  }

  function RunOps(s: Store, ops: seq<Op>): Store
    decreases |ops|
  {
    if ops == [] then s else RunOps(Apply(s, ops[0]).0, ops[1..])
  }

  lemma ApplyKeepsValid(s: Store, op: Op)
    requires Valid(s)
    ensures Valid(Apply(s, op).0)
    ensures s.used <= Apply(s, op).0.used
  {
  }

  /** A used id never names anything new: whoever carries it afterwards carried it before. */
  lemma UsedIdIsNotReissued(s: Store, op: Op, d: DeviceId)
    requires Valid(s)
    ensures var t := Apply(s, op).0;
      d in t.byDevice && t.byDevice[d].credentialId in s.used ==>
        d in s.byDevice
        && GenerationOf(s.byDevice[d]) == GenerationOf(t.byDevice[d])
        && s.byDevice[d].digest == t.byDevice[d].digest
  {
  }

  lemma {:induction false} RunKeepsValid(s: Store, ops: seq<Op>)
    requires Valid(s)
    ensures Valid(RunOps(s, ops)) && s.used <= RunOps(s, ops).used
    decreases |ops|
  {
    if ops != [] {
      ApplyKeepsValid(s, ops[0]);
      RunKeepsValid(Apply(s, ops[0]).0, ops[1..]);
    }
  }

  /** Versions never fall, and a record of the same version is the same record, at most revoked. */
  lemma {:induction false} RecordsOnlySucceed(s: Store, ops: seq<Op>, d: DeviceId)
    requires d in s.byDevice
    ensures d in RunOps(s, ops).byDevice && Succeeds(s.byDevice[d], RunOps(s, ops).byDevice[d])
    decreases |ops|
  {
    if ops != [] {
      var t := Apply(s, ops[0]).0;
      RecordsOnlySucceed(t, ops[1..], d);
    }
  }

  /** Credential ids are never reused, across devices or across generations of one device. */
  lemma {:induction false} CredentialIdsNeverReused(s: Store, ops: seq<Op>, d: DeviceId, e: DeviceId)
    requires Valid(s) && d in s.byDevice && e in RunOps(s, ops).byDevice
    requires s.byDevice[d].credentialId == RunOps(s, ops).byDevice[e].credentialId
    ensures d == e
    ensures GenerationOf(s.byDevice[d]) == GenerationOf(RunOps(s, ops).byDevice[e])
    ensures s.byDevice[d].digest == RunOps(s, ops).byDevice[e].digest
    decreases |ops|
  {
    UsedIdTracesBack(s, ops, e);
  }

  lemma {:induction false} UsedIdTracesBack(s: Store, ops: seq<Op>, e: DeviceId)
    requires Valid(s) && e in RunOps(s, ops).byDevice && RunOps(s, ops).byDevice[e].credentialId in s.used
    ensures e in s.byDevice
    ensures GenerationOf(s.byDevice[e]) == GenerationOf(RunOps(s, ops).byDevice[e])
    ensures s.byDevice[e].digest == RunOps(s, ops).byDevice[e].digest
    decreases |ops|
  {
    if ops != [] {
      ApplyKeepsValid(s, ops[0]);
      UsedIdTracesBack(Apply(s, ops[0]).0, ops[1..], e);
      UsedIdIsNotReissued(s, ops[0], e);
    }
  }

  /**
   * No ABA: if the same generation is active before and after a run, the record was
   * untouched at every state in between, so a successful compare-and-swap means that
   * nothing intervened.
   */
  lemma NoAba(s: Store, first: seq<Op>, second: seq<Op>, d: DeviceId)
    requires ActiveGeneration(s, d).Some?
    requires ActiveGeneration(RunOps(RunOps(s, first), second), d) == ActiveGeneration(s, d)
    ensures d in RunOps(s, first).byDevice && RunOps(s, first).byDevice[d] == s.byDevice[d]
    ensures RunOps(RunOps(s, first), second).byDevice[d] == s.byDevice[d]
  {
    RecordsOnlySucceed(s, first, d);
    RecordsOnlySucceed(RunOps(s, first), second, d);
  }

  /** A compare-and-swap fires exactly when the expected generation is the active one. */
  lemma RotateIsCompareAndSwap(s: Store, device: DeviceId, expected: Generation,
                               id: CredentialId, digest: Digest, at: int)
    requires Valid(s)
    ensures var (t, r) := Apply(s, Rotate(device, expected.credentialId, expected.version, id, digest, at));
      && (r.Issued? <==> ActiveGeneration(s, device) == Some(expected)
                         && id !in s.used && s.byDevice[device].createdAtMs <= at)
      && (r.Issued? ==> && ActiveGeneration(t, device) == Some(Generation(id, expected.version + 1))
                        && Verify(t, device, digest) == Some(r.credential)
                        && forall other | other != device :: GetActive(t, other) == GetActive(s, other))
      && (!r.Issued? ==> t == s)
  {
  }

  // --- What each call answers --------------------------------------------------------------------------

  /** The record of a device, if it is active. */
  predicate Holds(s: Store, device: DeviceId, g: Generation, digest: Digest) {
    && device in s.byDevice && s.byDevice[device].status.Active?
    && s.byDevice[device].credentialId == g.credentialId && s.byDevice[device].version == g.version
    && s.byDevice[device].digest == digest
  }

  /** A digest is accepted if and only if the device's record is active and carries exactly it. */
  lemma DigestIsAcceptedExactly(s: Store, device: DeviceId, digest: Digest)
    ensures Verify(s, device, digest).Some? <==>
      device in s.byDevice && s.byDevice[device].status.Active? && s.byDevice[device].digest == digest
    ensures Verify(s, device, digest).Some? ==> Verify(s, device, digest).value == s.byDevice[device]
    ensures forall g :: ActiveGeneration(s, device) == Some(g) <==> exists x :: Holds(s, device, g, x)
  {
    if device in s.byDevice && s.byDevice[device].status.Active? {
      var c := s.byDevice[device];
      assert Holds(s, device, Generation(c.credentialId, c.version), c.digest);
    }
  }

  predicate Current(s: Store, device: DeviceId, expectedId: CredentialId, expectedVersion: int) {
    && device in s.byDevice && s.byDevice[device].status.Active?
    && s.byDevice[device].credentialId == expectedId && s.byDevice[device].version == expectedVersion
  }

  /** Nothing but this device's record changes. */
  ghost predicate OnlyDeviceChanges(s: Store, t: Store, device: DeviceId) {
    forall other: DeviceId | other != device ::
      (other in t.byDevice <==> other in s.byDevice) && (other in s.byDevice ==> t.byDevice[other] == s.byDevice[other])
  }

  /** An issue succeeds exactly without an active credential and with an unused id; versions continue. */
  lemma IssueAnswersExactly(s: Store, device: DeviceId, id: CredentialId, digest: Digest, at: int)
    ensures
      var (t, r) := Apply(s, Issue(device, id, digest, at));
      var active := device in s.byDevice && s.byDevice[device].status.Active?;
      && (r.Issued? <==> !active && id !in s.used)
      && (r == Error(CredentialAlreadyExists) <==> active)
      && (r == Error(CredentialIdConflict) <==> !active && id in s.used)
      && (!r.Issued? ==> t == s)
      && (r.Issued? ==>
            && Holds(t, device, Generation(id, if device in s.byDevice then s.byDevice[device].version + 1 else 1), digest)
            && t.byDevice[device] == r.credential && r.credential.createdAtMs == at
            && t.used == s.used + {id} && OnlyDeviceChanges(s, t, device))
  {
  }

  /**
   * A revocation succeeds exactly on the expected generation with a sound clock, and then no
   * generation of the device is active and no digest accepted; the record is kept.
   */
  lemma RevokeIsCompareAndSwap(s: Store, device: DeviceId, expectedId: CredentialId, expectedVersion: int, at: int)
    ensures
      var (t, r) := Apply(s, Revoke(device, expectedId, expectedVersion, at));
      var current := expectedVersion > 0 && Current(s, device, expectedId, expectedVersion);
      && (r.Issued? <==> current && s.byDevice[device].createdAtMs <= at)
      && (r == Null <==> expectedVersion > 0 && !current)
      && (r == Error(InvalidClock) <==> current && at < s.byDevice[device].createdAtMs)
      && (r == Error(InvalidCredentialInput) <==> expectedVersion <= 0)
      && (!r.Issued? ==> t == s)
      && (r.Issued? ==>
            && ActiveGeneration(t, device) == None
            && (forall digest :: Verify(t, device, digest) == None)
            && device in t.byDevice && t.byDevice[device] == s.byDevice[device].(status := Revoked(at))
            && r.credential == t.byDevice[device]
            && t.used == s.used && OnlyDeviceChanges(s, t, device))
  {
  }

  /** A rotation succeeds exactly on the expected generation, with an unused id and a sound clock. */
  lemma RotateAnswersExactly(s: Store, device: DeviceId, expectedId: CredentialId, expectedVersion: int,
                             id: CredentialId, digest: Digest, at: int)
    ensures
      var (t, r) := Apply(s, Rotate(device, expectedId, expectedVersion, id, digest, at));
      var current := expectedVersion > 0 && Current(s, device, expectedId, expectedVersion);
      && (r.Issued? <==> current && id !in s.used && s.byDevice[device].createdAtMs <= at)
      && (r == Error(InvalidCredentialInput) <==> expectedVersion <= 0)
      && (r == Error(CredentialUnavailable) <==> expectedVersion > 0 && !current)
      && (r == Error(CredentialIdConflict) <==> current && id in s.used)
      && (r == Error(InvalidClock) <==> current && id !in s.used && at < s.byDevice[device].createdAtMs)
      && (!r.Issued? ==> t == s)
      && (r.Issued? ==>
            && Holds(t, device, Generation(id, expectedVersion + 1), digest)
            && t.byDevice[device] == r.credential && r.credential.createdAtMs == at
            && t.used == s.used + {id} && OnlyDeviceChanges(s, t, device))
  {
  }

  /** After any successful issue or rotation the device's new digest is accepted, and no other is. */
  lemma NewDigestAloneIsAccepted(s: Store, op: Op, x: Digest)
    requires !op.Revoke? && Apply(s, op).1.Issued?
    ensures Verify(Apply(s, op).0, op.device, x).Some? <==> x == op.digest
  {
    DigestIsAcceptedExactly(Apply(s, op).0, op.device, x);
  }
}
