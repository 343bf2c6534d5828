/**
 * The server's pairing channel: one entry per pairing session, holding the attached socket
 * and the credential that waits to be acknowledged. Every function below is one stretch of
 * code between two awaits; the coordinator class performs them on its map in place.
 */
module PairingChannel {
  import opened Wrappers
  import opened DeviceCredential
  import CompletionRecovery

  type Completed = CompletionRecovery.Completed
  type SessionId = nat
  type SocketId = nat
  type Proof = nat

  datatype ProofDigest = ProofDigestOf(proof: Proof)

  /** `sentSocket` is the socket that was last given the credential. */
  datatype Delivery = Delivery(
    completed: Completed,
    device: DeviceId,
    sentSocket: Option<SocketId>,
    acknowledging: bool)

  datatype Entry = Entry(
    proofDigest: ProofDigest,
    deadline: int,
    socket: Option<SocketId>,
    attaching: bool,
    delivery: Option<Delivery>)

  type Entries = map<SessionId, Entry>

  /** Frames from the server to the client. */
  datatype Down =
    | Attached
    | CredentialFrame(device: DeviceId, generation: Generation, secret: Secret)

  /** A pairing session as the channel checks it. */
  datatype PairingSession = PairingSession(
    id: SessionId,
    state: PairingState,
    expiresAt: int,
    claimedAt: Option<int>,
    device: Option<DeviceId>)

  datatype PairingState = PairingPending | PairingClaimed | PairingEnded

  datatype Refusal = Unavailable | RateLimited

  /** A session that waits to be claimed may be registered, with a well-formed proof. */
  predicate MayRegister(s: PairingSession, proof: Option<Proof>, now: int) {
    proof.Some? && s.state.PairingPending? && s.claimedAt.None? && s.device.None? && s.expiresAt > now
  }

  /** A session that was claimed in time for a device may have its credential delivered. */
  predicate MayDeliver(s: PairingSession, device: DeviceId) {
    s.state.PairingClaimed? && s.device == Some(device) && s.claimedAt.Some? && s.claimedAt.value < s.expiresAt
  }

  function NewEntry(proofDigest: ProofDigest, deadline: int): Entry {
    Entry(proofDigest, deadline, None, false, None)
  }

  /** Looking an entry up removes it once its deadline has passed. */
  function LiveEntry(e: Option<Entry>, now: int): Option<Entry> {
    if e.Some? && e.value.deadline > now then e else None
  }

  function ClearSocket(e: Entry, socket: SocketId): Entry {
    if e.socket == Some(socket) then e.(socket := None) else e
  }

  function FrameFor(d: Delivery): Down {
    CredentialFrame(d.device, d.completed.generation, d.completed.secret)
  }

  /** The credential goes out at most once per attached socket. */
  function SendPending(e: Entry, socket: SocketId): (Entry, Option<Down>) {
    if e.delivery.None? || e.socket != Some(socket) || e.delivery.value.sentSocket == Some(socket) then (e, None)
    else
      (e.(delivery := Some(e.delivery.value.(sentSocket := Some(socket)))), Some(FrameFor(e.delivery.value)))
  }

  /** A failed send detaches the socket, so that another attempt may attach. */
  function SendFailed(e: Option<Entry>, socket: SocketId): Option<Entry> {
    match e
    case None => None
    case Some(entry) =>
      var cleared := ClearSocket(entry, socket);
      if cleared.delivery.Some? && cleared.delivery.value.sentSocket == Some(socket)
      then Some(cleared.(delivery := Some(cleared.delivery.value.(sentSocket := None))))
      else Some(cleared)
  }

  /** Attaching, up to the hashing of the presented proof. */
  function BeginAttach(e: Option<Entry>, now: int): (Option<Entry>, bool) {
    match LiveEntry(e, now)
    case None => (None, false)
    case Some(entry) =>
      if entry.socket.Some? || entry.attaching then (Some(entry), false)
      else (Some(entry.(attaching := true)), true)
  }

  /** After hashing: the socket is taken, and told so, when the proof is the registered one. */
  function FinishAttach(e: Option<Entry>, proof: Proof, socket: SocketId): (Option<Entry>, bool) {
    match e
    case None => (None, false)
    case Some(entry) =>
      if entry.proofDigest != ProofDigestOf(proof) then (Some(entry.(attaching := false)), false)
      else (Some(entry.(socket := Some(socket))), true)
  }

  /** After the attach notice: a waiting credential follows. */
  function Announced(e: Option<Entry>, socket: SocketId, sent: bool): (Option<Entry>, Option<Down>) {
    match e
    case None => (None, None)
    case Some(entry) =>
      if !sent then (Some(ClearSocket(entry, socket).(attaching := false)), None)
      else
        var (entry', frame) := SendPending(entry, socket);
        (Some(if frame.Some? then entry' else entry'.(attaching := false)), frame)
  }

  /** After the credential frame: attaching is over. */
  function Handed(e: Option<Entry>, socket: SocketId, sent: bool): Option<Entry> {
    match if sent then e else SendFailed(e, socket)
    case None => None
    case Some(entry) => Some(entry.(attaching := false))
  }

  function WithDelivery(e: Option<Entry>, completed: Completed, device: DeviceId, deadline: int, now: int)
    : (Option<Entry>, bool, Option<Down>)
  {
    match LiveEntry(e, now)
    case None => (None, false, None)
    case Some(entry) =>
      if entry.delivery.Some? && entry.delivery.value.completed != completed then (Some(entry), false, None)
      else if entry.delivery.None? && deadline <= now then (None, false, None)
      else
        var entry1 := if entry.delivery.Some? then entry
                      else entry.(deadline := deadline, delivery := Some(Delivery(completed, device, None, false)));
        match entry1.socket
        case None => (Some(entry1), true, None)
        case Some(socket) =>
          var (entry2, frame) := SendPending(entry1, socket);
          (Some(entry2), true, frame)
  }

  /** An acknowledgement is taken up only from the attached socket and for the generation handed out. */
  function BeginAcknowledge(e: Option<Entry>, socket: SocketId, device: DeviceId, g: Generation, now: int)
    : (Option<Entry>, bool)
  {
    match LiveEntry(e, now)
    case None => (None, false)
    case Some(entry) =>
      if entry.delivery.None? || entry.socket != Some(socket) || entry.delivery.value.acknowledging
         || entry.delivery.value.device != device || entry.delivery.value.completed.generation != g
      then (Some(entry), false)
      else (Some(entry.(delivery := Some(entry.delivery.value.(acknowledging := true)))), true)
  }

  /** A recorded acknowledgement ends the entry; a refused one may be repeated. */
  function EndAcknowledge(e: Option<Entry>, recorded: bool): Option<Entry> {
    if recorded || e.None? then None
    else if e.value.delivery.None? then e
    else Some(e.value.(delivery := Some(e.value.delivery.value.(acknowledging := false))))
  }

  function WithoutSocket(e: Option<Entry>, socket: SocketId): Option<Entry> {
    if e.None? || e.value.socket != Some(socket) then e else SendFailed(e, socket)
  }

  // --- What the channel keeps ---------------------------------------------------------------------------

  /** A delivery never changes what it delivers, and an attached socket is replaced only after it is gone. */
  predicate Continues(e: Option<Entry>, e': Option<Entry>) {
    e.Some? && e'.Some? ==>
      && e'.value.proofDigest == e.value.proofDigest
      && (e.value.delivery.Some? ==>
            && e'.value.delivery.Some?
            && e'.value.delivery.value.completed == e.value.delivery.value.completed
            && e'.value.delivery.value.device == e.value.delivery.value.device)
      && (e.value.socket.Some? ==> e'.value.socket.None? || e'.value.socket == e.value.socket)
  }

  lemma AttachingContinues(e: Option<Entry>, socket: SocketId, proof: Proof, sent: bool, now: int)
    ensures Continues(e, BeginAttach(e, now).0)
    ensures e.Some? && e.value.socket.None? ==> Continues(e, FinishAttach(e, proof, socket).0)
    ensures Continues(e, Announced(e, socket, sent).0)
    ensures Continues(e, Handed(e, socket, sent))
  {
  }

  lemma DeliveringContinues(e: Option<Entry>, completed: Completed, device: DeviceId, deadline: int, now: int)
    ensures Continues(e, WithDelivery(e, completed, device, deadline, now).0)
    ensures
      var (e', ok, frame) := WithDelivery(e, completed, device, deadline, now);
      && (ok ==> e'.Some? && e'.value.delivery.Some? && e'.value.delivery.value.completed == completed)
      && (frame.Some? ==> ok && e'.value.socket.Some? && e'.value.delivery.value.sentSocket == e'.value.socket)
  {
  }

  lemma AcknowledgingContinues(e: Option<Entry>, socket: SocketId, device: DeviceId, g: Generation, now: int)
    ensures Continues(e, BeginAcknowledge(e, socket, device, g, now).0)
    ensures Continues(e, EndAcknowledge(e, false)) && EndAcknowledge(e, true) == None
    ensures Continues(e, WithoutSocket(e, socket)) && Continues(e, SendFailed(e, socket))
  {
  }

  // --- What each step does exactly ----------------------------------------------------------------------

  /** Of the map only one entry changes. */
  lemma OnlyEntryChanges(entries: Entries, id: SessionId, e: Option<Entry>, other: SessionId, now: int)
    ensures At(With(entries, id, e), other) == if other == id then e else At(entries, other)
    ensures At(Unexpired(entries, now), other)
         == if other in entries && entries[other].deadline > now then Some(entries[other]) else None
  {
  }

  /** An entry past its deadline serves nobody, and whoever looks removes it. */
  lemma ExpiredEntryServesNobody(e: Option<Entry>, socket: SocketId, completed: Completed, device: DeviceId,
                                 g: Generation, deadline: int, now: int)
    requires e.Some? ==> e.value.deadline <= now
    ensures BeginAttach(e, now) == (None, false)
    ensures WithDelivery(e, completed, device, deadline, now) == (None, false, None)
    ensures BeginAcknowledge(e, socket, device, g, now) == (None, false)
  {
  }

  /** While it lives, exactly a free entry is attached, and nothing but its flag changes. */
  lemma FreeEntryAttaches(e: Entry, now: int)
    requires e.deadline > now
    ensures BeginAttach(Some(e), now).1 <==> e.socket.None? && !e.attaching
    ensures BeginAttach(Some(e), now).0 == Some(e.(attaching := e.attaching || e.socket.None?))
  {
  }

  /** The right proof takes the socket, and keeps everything else. */
  lemma RightProofTakesSocket(e: Entry, proof: Proof, socket: SocketId)
    ensures e.proofDigest == ProofDigestOf(proof) ==>
      FinishAttach(Some(e), proof, socket) == (Some(e.(socket := Some(socket))), true)
  {
  }

  /** What remains of a socket that closed, or that a send failed on: nothing. */
  lemma LostSocketLeavesNothing(e: Entry, socket: SocketId)
    ensures WithoutSocket(None, socket) == None && SendFailed(None, socket) == None
    ensures e.socket != Some(socket) ==> WithoutSocket(Some(e), socket) == Some(e)
    ensures e.socket == Some(socket) ==> WithoutSocket(Some(e), socket) == SendFailed(Some(e), socket)
    ensures
      var e' := SendFailed(Some(e), socket);
      && e'.Some? && e'.value.proofDigest == e.proofDigest && e'.value.deadline == e.deadline
      && e'.value.attaching == e.attaching
      && e'.value.socket == (if e.socket == Some(socket) then None else e.socket)
      && (if e.delivery.None? then e'.value.delivery.None?
          else e'.value.delivery == Some(e.delivery.value.(sentSocket :=
            if e.delivery.value.sentSocket == Some(socket) then None else e.delivery.value.sentSocket)))
  {
  }

  /** A failed notice or credential frame frees the entry for another attach. */
  lemma FailedAttachMayBeRepeated(e: Entry, socket: SocketId, now: int)
    requires e.deadline > now && (e.socket == Some(socket) || e.socket.None?)
    ensures
      var e1 := Announced(Some(e), socket, false).0;
      e1.Some? && e1.value.socket.None? && !e1.value.attaching && BeginAttach(e1, now).1
    ensures
      var e2 := Handed(Some(e), socket, false);
      e2.Some? && e2.value.socket.None? && !e2.value.attaching && BeginAttach(e2, now).1
    ensures Announced(Some(e), socket, false).1 == None
  {
  }

  /** After the notice a waiting credential follows on the socket unless it has it; then attaching is over. */
  lemma AttachedSocketGetsCredential(e: Entry, socket: SocketId)
    requires e.socket == Some(socket)
    ensures
      var (e', frame) := Announced(Some(e), socket, true);
      && e'.Some? && e'.value.socket == Some(socket)
      && (frame.Some? <==> e.delivery.Some? && e.delivery.value.sentSocket != Some(socket))
      && (frame.Some? ==>
            var d := e.delivery.value;
            frame.value == CredentialFrame(d.device, d.completed.generation, d.completed.secret))
      && (e.delivery.Some? ==> e'.value.delivery.Some? && e'.value.delivery.value.sentSocket == Some(socket))
      && (e'.value.attaching <==> e.attaching && frame.Some?)
    ensures Handed(Some(e), socket, true) == Some(e.(attaching := false))
  {
  }

  /** A delivery is taken in, repeated or refused; only the first sets the deadline. */
  lemma DeliveryAnswersExactly(e: Entry, completed: Completed, device: DeviceId, deadline: int, now: int)
    requires e.deadline > now
    ensures
      var (e', ok, frame) := WithDelivery(Some(e), completed, device, deadline, now);
      && (ok <==> if e.delivery.Some? then e.delivery.value.completed == completed else deadline > now)
      && (e.delivery.Some? && e.delivery.value.completed != completed ==> e' == Some(e))
      && (e.delivery.None? && deadline <= now ==> e' == None)
      && (ok && e.delivery.None? ==>
            && e'.Some? && e'.value.deadline == deadline && e'.value.socket == e.socket
            && e'.value.delivery == Some(Delivery(completed, device, e.socket, false)))
      && (ok && e.delivery.Some? ==> e'.Some? && e'.value.deadline == e.deadline && e'.value.socket == e.socket)
      && (frame.Some? <==>
            ok && e.socket.Some? && !(e.delivery.Some? && e.delivery.value.sentSocket == e.socket))
  {
  }

  /** An acknowledgement is taken up exactly when all of it is right, and may be repeated once it was refused. */
  lemma AcknowledgementAnswersExactly(e: Entry, socket: SocketId, device: DeviceId, g: Generation, now: int)
    requires e.deadline > now
    ensures
      var (e', ok) := BeginAcknowledge(Some(e), socket, device, g, now);
      && (ok <==>
            && e.delivery.Some? && e.socket == Some(socket) && !e.delivery.value.acknowledging
            && e.delivery.value.device == device && e.delivery.value.completed.generation == g)
      && (!ok ==> e' == Some(e))
      && (ok ==> e' == Some(e.(delivery := Some(e.delivery.value.(acknowledging := true))))
                 && EndAcknowledge(e', false) == Some(e) && EndAcknowledge(e', true) == None)
  {
  }

  /** A socket that was given the credential is not given it again while it stays attached. */
  lemma CredentialGoesOncePerSocket(e: Entry, socket: SocketId)
    ensures
      var (e', frame) := SendPending(e, socket);
      && SendPending(e', socket) == (e', None)
      && (frame.Some? ==> e.socket == Some(socket) && e.delivery.Some? && frame.value == FrameFor(e.delivery.value))
  {
  }

  /** The wrong proof, and a proof for an entry that is gone, take no socket. */
  lemma OnlyTheProofAttaches(e: Option<Entry>, proof: Proof, socket: SocketId)
    ensures FinishAttach(e, proof, socket).1 <==> e.Some? && e.value.proofDigest == ProofDigestOf(proof)
    ensures !FinishAttach(e, proof, socket).1 && e.Some? ==>
      FinishAttach(e, proof, socket).0 == Some(e.value.(attaching := false))
  {
  }

  // --- The coordinator --------------------------------------------------------------------------------

  function At(entries: Entries, id: SessionId): Option<Entry> {
    if id in entries then Some(entries[id]) else None
  }

  function With(entries: Entries, id: SessionId, e: Option<Entry>): Entries {
    match e
    case None => entries - {id}
    case Some(entry) => entries[id := entry]
  }

  function Unexpired(entries: Entries, now: int): Entries {
    map id | id in entries && entries[id].deadline > now :: entries[id]
  }

  class PairingChannelCoordinator {
    var entries: Entries
    const maxPendingSessions: nat
    const deliveryTimeoutMs: nat

    constructor (maxPendingSessions: nat, deliveryTimeoutMs: nat)
      ensures entries == map[]
      ensures this.maxPendingSessions == maxPendingSessions && this.deliveryTimeoutMs == deliveryTimeoutMs
    {
      entries := map[];
      this.maxPendingSessions, this.deliveryTimeoutMs := maxPendingSessions, deliveryTimeoutMs;
    }

    method PruneExpired(now: int)
      modifies this
      ensures entries == Unexpired(old(entries), now)
    {
      var unseen := entries.Keys;
      while unseen != {}
        invariant unseen <= old(entries).Keys
        invariant entries == map id | id in old(entries) && (id in unseen || old(entries)[id].deadline > now)
                               :: old(entries)[id]
        decreases |unseen|
      {
        var id :| id in unseen;
        if entries[id].deadline <= now {
          entries := entries - {id};
        }
        unseen := unseen - {id};
      }
    }

    /** A session that waits to be claimed gets one entry; the channel never holds more than its capacity. */
    method Register(session: PairingSession, proof: Option<Proof>, now: int) returns (refusal: Option<Refusal>)
      requires |entries| <= maxPendingSessions
      modifies this
      ensures |entries| <= maxPendingSessions
      ensures
        var pruned := Unexpired(old(entries), now);
        refusal == if !MayRegister(session, proof, now) || session.id in pruned then Some(Unavailable)
                   else if |pruned| >= maxPendingSessions then Some(RateLimited) else None
      ensures
        var pruned := Unexpired(old(entries), now);
        entries == if !MayRegister(session, proof, now) then old(entries)
                   else if refusal.Some? then pruned
                   else pruned[session.id := NewEntry(ProofDigestOf(proof.value), session.expiresAt + deliveryTimeoutMs)]
    {
      if proof.None? || session.state != PairingPending || session.claimedAt.Some? || session.device.Some? {
        return Some(Unavailable);
      }
      if session.expiresAt <= now {
        return Some(Unavailable);
      }
      PruneExpired(now);
      assert entries.Keys <= old(entries).Keys;
      SubsetSize(entries.Keys, old(entries).Keys);
      if session.id in entries {
        return Some(Unavailable);
      }
      if |entries| >= maxPendingSessions {
        return Some(RateLimited);
      }
      entries := entries[session.id := NewEntry(ProofDigestOf(proof.value), session.expiresAt + deliveryTimeoutMs)];
      refusal := None;
    }

    method RemoveEntry(id: SessionId)
      modifies this
      ensures entries == With(old(entries), id, None)
    {
      entries := entries - {id};
    }

    method FindLive(id: SessionId, now: int) returns (found: bool)
      modifies this
      ensures found == (id in entries)
      ensures entries == With(old(entries), id, LiveEntry(At(old(entries), id), now))
    {
      if id in entries && entries[id].deadline <= now {
        RemoveEntry(id);
      }
      found := id in entries;
      assert !found ==> entries == old(entries) - {id};
      assert found ==> entries == old(entries)[id := old(entries)[id]];
    }

    method StartAttach(id: SessionId, now: int) returns (ok: bool)
      modifies this
      ensures
        var (e, r) := BeginAttach(At(old(entries), id), now);
        ok == r && entries == With(old(entries), id, e)
    {
      var found := FindLive(id, now);
      if !found || entries[id].socket.Some? || entries[id].attaching {
        return false;
      }
      entries := entries[id := entries[id].(attaching := true)];
      ok := true;
    }

    method CompleteAttach(id: SessionId, proof: Proof, socket: SocketId) returns (frame: Option<Down>)
      modifies this
      ensures
        var (e, r) := FinishAttach(At(old(entries), id), proof, socket);
        frame == (if r then Some(Attached) else None) && entries == With(old(entries), id, e)
    {
      if id !in entries {
        assert entries == entries - {id};
        return None;
      }
      if entries[id].proofDigest != ProofDigestOf(proof) {
        entries := entries[id := entries[id].(attaching := false)];
        return None;
      }
      entries := entries[id := entries[id].(socket := Some(socket))];
      frame := Some(Attached);
    }

    method SendPendingDelivery(id: SessionId, socket: SocketId) returns (frame: Option<Down>)
      requires id in entries
      modifies this
      ensures
        var (e, r) := SendPending(old(entries)[id], socket);
        frame == r && entries == old(entries)[id := e]
    {
      var entry := entries[id];
      if entry.delivery.None? || entry.socket != Some(socket) || entry.delivery.value.sentSocket == Some(socket) {
        assert entries == entries[id := entry];
        return None;
      }
      var delivery := entry.delivery.value;
      entries := entries[id := entry.(delivery := Some(delivery.(sentSocket := Some(socket))))];
      frame := Some(CredentialFrame(delivery.device, delivery.completed.generation, delivery.completed.secret));
    }

    method Deliver(session: PairingSession, completed: Completed, device: DeviceId, now: int)
      returns (ok: bool, frame: Option<Down>)
      modifies this
      ensures !MayDeliver(session, device) ==> !ok && frame == None && entries == old(entries)
      ensures MayDeliver(session, device) ==>
        var (e, r, f) := WithDelivery(At(old(entries), session.id), completed, device,
                                      session.claimedAt.value + deliveryTimeoutMs, now);
        ok == r && frame == f && entries == With(old(entries), session.id, e)
    {
      if session.state != PairingClaimed || session.device != Some(device) {
        return false, None;
      }
      if session.claimedAt.None? || session.claimedAt.value >= session.expiresAt {
        return false, None;
      }
      var id := session.id;
      var found := FindLive(id, now);
      if !found {
        return false, None;
      }
      var entry := entries[id];
      if entry.delivery.None? {
        var deadline := session.claimedAt.value + deliveryTimeoutMs;
        if deadline <= now {
          RemoveEntry(id);
          return false, None;
        }
        entry := entry.(deadline := deadline, delivery := Some(Delivery(completed, device, None, false)));
        entries := entries[id := entry];
      } else if entry.delivery.value.completed != completed {
        return false, None;
      }
      frame := None;
      if entry.socket.Some? {
        frame := SendPendingDelivery(id, entry.socket.value);
      }
      ok := true;
    }

    method StartAcknowledge(id: SessionId, socket: SocketId, device: DeviceId, g: Generation, now: int)
      returns (ok: bool)
      modifies this
      ensures
        var (e, r) := BeginAcknowledge(At(old(entries), id), socket, device, g, now);
        ok == r && entries == With(old(entries), id, e)
    {
      var found := FindLive(id, now);
      if !found || entries[id].delivery.None? {
        return false;
      }
      var delivery := entries[id].delivery.value;
      if entries[id].socket != Some(socket) || delivery.acknowledging
         || delivery.device != device || delivery.completed.generation != g {
        return false;
      }
      entries := entries[id := entries[id].(delivery := Some(delivery.(acknowledging := true)))];
      ok := true;
    }

    method CompleteAcknowledge(id: SessionId, recorded: bool)
      modifies this
      ensures entries == With(old(entries), id, EndAcknowledge(At(old(entries), id), recorded))
    {
      if recorded || id !in entries {
        RemoveEntry(id);
      } else if entries[id].delivery.Some? {
        var delivery := entries[id].delivery.value;
        entries := entries[id := entries[id].(delivery := Some(delivery.(acknowledging := false)))];
      } else {
        assert entries == entries[id := entries[id]];
      }
    }

    method Detach(id: SessionId, socket: SocketId)
      modifies this
      ensures entries == With(old(entries), id, WithoutSocket(At(old(entries), id), socket))
    {
      if id !in entries || entries[id].socket != Some(socket) {
        assert id !in entries ==> entries == entries - {id};
        assert id in entries ==> entries == entries[id := entries[id]];
        return;
      }
      var entry := entries[id].(socket := None);
      if entry.delivery.Some? && entry.delivery.value.sentSocket == Some(socket) {
        entry := entry.(delivery := Some(entry.delivery.value.(sentSocket := None)));
      }
      entries := entries[id := entry];
    }
  }
}
