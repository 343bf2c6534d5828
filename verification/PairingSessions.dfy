/**
 * The pairing session as the channel checks it is a record of the session store. What the
 * channel may do with it is decided by what the store would do.
 */
module PairingSessions {
  import opened Wrappers
  import Store = PairingStore
  import Channel = PairingChannel

  function StateOf(state: Store.State): Channel.PairingState {
    match state
    case Pending => Channel.PairingPending
    case Claimed => Channel.PairingClaimed
    case _ => Channel.PairingEnded
  }

  /** What the store hands out for a session. */
  function SessionOf(id: Store.SessionId, r: Store.Record): Channel.PairingSession {
    Channel.PairingSession(id, StateOf(r.state), r.expiresAt, r.claimedAt, r.device)
  }

  /** A session may be registered, with a proof, exactly as long as its code could still be claimed. */
  lemma RegistrableWhileClaimable(c: Store.Config, s: Store.Store, id: Store.SessionId, proof: Option<Channel.Proof>,
                                  now: int, device: Store.DeviceId)
    requires Store.Valid(c, s) && id in s.records && s.records[id].createdAt <= now
    ensures Channel.MayRegister(SessionOf(id, s.records[id]), proof, now) <==>
      proof.Some? && Store.Succeeds(c, s, Store.Claim(s.records[id].digest, now, Some(device)))
  {
    assert Store.SchemaValid(s.records[id]);
    Store.ClaimAnswersExactly(c, s, s.records[id].digest, now, Some(device));
  }

  /** A credential may be delivered for a session exactly to the device that claimed it. */
  lemma DeliverableToItsDevice(c: Store.Config, s: Store.Store, id: Store.SessionId, device: Store.DeviceId)
    requires Store.Valid(c, s) && id in s.records
    ensures Channel.MayDeliver(SessionOf(id, s.records[id]), device) <==> s.records[id].device == Some(device)
  {
    assert Store.SchemaValid(s.records[id]);
  }

  /** A claim makes its session deliverable to the device it made, and to no other, and never registrable again. */
  lemma ClaimMakesDeliverable(c: Store.Config, s: Store.Store, d: Store.Digest, at: int, claimed: Store.DeviceId,
                              device: Store.DeviceId, proof: Option<Channel.Proof>, now: int)
    requires Store.Valid(c, s) && Store.Succeeds(c, s, Store.Claim(d, at, Some(claimed)))
    ensures
      var (s', r) := Store.Apply(c, s, Store.Claim(d, at, Some(claimed)));
      && r.Session? && d in s.byDigest
      && var session := SessionOf(s.byDigest[d], r.record);
         && (Channel.MayDeliver(session, device) <==> device == claimed)
         && !Channel.MayRegister(session, proof, now)
  {
    Store.ClaimAnswersExactly(c, s, d, at, Some(claimed));
  }

  /** A registered entry serves its proof until its deadline, and has nothing to deliver yet. */
  lemma RegisteredEntryServes(proof: Channel.Proof, deadline: int, socket: Channel.SocketId, now: int)
    ensures
      var e := Channel.NewEntry(Channel.ProofDigestOf(proof), deadline);
      var (e1, begun) := Channel.BeginAttach(Some(e), now);
      var (e2, attached) := Channel.FinishAttach(e1, proof, socket);
      && (begun <==> now < deadline)
      && (begun ==> attached && e2.Some? && e2.value.socket == Some(socket) && e2.value.delivery.None?
                    && e2.value.deadline == deadline)
  {
  }
}
