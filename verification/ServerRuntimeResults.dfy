/** What the invariant means for every run of the server runtime. */
module ServerRuntimeResults {
  import opened Wrappers
  import opened DeviceCredential
  import opened DeviceCredentialLifecycle
  import opened SessionGate
  import opened ServerRuntime
  import opened ServerRuntimeInvariant

  /**
   * Under every interleaving, an authenticated acknowledgement was sent with the generation
   * active at that instant, unless a call outside the lifecycle operation had rotated or revoked
   * it since the handshake was validated; and a connection gets at most one of them.
   */
  lemma AcknowledgedGenerationIsActive(es: seq<Event>)
    ensures
      var acks := Run(INITIAL, es).acks;
      && (forall i | 0 <= i < |acks| :: acks[i].activeThen == Some(acks[i].generation) <==> !acks[i].struck)
      && (forall i, j | 0 <= i < j < |acks| :: acks[i].connection != acks[j].connection)
  {
    InitialInv();
    RunKeeps(INITIAL, es);
  }

  /**
   * A device none of whose mutations is inside its operation, and no outside call of which is
   * about to evict, is registered under its active generation, unless by a struck handshake.
   */
  lemma RegisteredGenerationIsActive(es: seq<Event>, d: DeviceId)
    requires
      var s := Run(INITIAL, es);
      && d in s.registry
      && (forall t <- s.mutations | s.mutations[t].device == d :: !s.mutations[t].phase.Operating?)
      && (forall x <- s.strays :: x.device != d)
    ensures
      var s := Run(INITIAL, es);
      ActiveGeneration(s.credentials, d) == Some(s.registry[d].generation) <==> !s.registry[d].struck
  {
    InitialInv();
    RunKeeps(INITIAL, es);
    var s := Run(INITIAL, es);
    assert RegistrationCurrent(s.credentials, s.mutations, s.strays, d, s.registry[d]);
  }

  /** A connection gets at most one session: once made, it stays the connection's own. */
  lemma {:induction false} SessionIsMadeOnce(s: State, es: seq<Event>, c: ConnectionId)
    requires Inv(s) && c in s.connections && s.connections[c].session.Some?
    ensures c in Run(s, es).connections && Run(s, es).connections[c].session == s.connections[c].session
    decreases |es|
  {
    if es != [] {
      StepKeeps(s, es[0]);
      StepMoves(s, es[0]);
      SessionIsMadeOnce(Step(s, es[0]), es[1..], c);
    }
  }

  // --- What happens to connections -------------------------------------------------------------

  /** A session stays the connection's own, and a connection that left the handshake does not come back. */
  predicate ConnectionMoves(a: Connection, b: Connection) {
    && (a.session.Some? ==> b.session == a.session)
    && (a.finalized || !a.state.Handshaking? ==> b.finalized || !b.state.Handshaking?)
  }

  ghost predicate ConnectionsMove(cs: Connections, cs': Connections) {
    forall c <- cs :: c in cs' && ConnectionMoves(cs[c], cs'[c])
  }

  lemma CloseMoves(cs: Connections, c: ConnectionId)
    ensures ConnectionsMove(cs, CloseConnection(cs, c))
  {
  }

  lemma MoveTwice(a: Connections, b: Connections, c: Connections)
    requires ConnectionsMove(a, b) && ConnectionsMove(b, c)
    ensures ConnectionsMove(a, c)
  {
  }

  lemma ReadyMoves(cs: Connections, c: ConnectionId, d: DeviceId)
    requires c in cs && cs[c].session.None?
    ensures ConnectionsMove(cs, cs[c := Connection(Ready, false, Some(d))]) || cs[c].finalized
  {
  }

  lemma EvictMoves(s: State, d: DeviceId, g: Generation)
    ensures ConnectionsMove(s.connections, EvictGeneration(s, d, g).connections)
  {
    if d in s.registry && s.registry[d].generation == g {
      CloseMoves(s.connections, s.registry[d].connection);
    }
  }

  lemma CommitReadyMoves(s: State, h: HandshakeId, ackSent: bool, bound: bool)
    requires RegistryOpen(s.connections, s.registry)
    ensures ConnectionsMove(s.connections, CommitReadyStep(s, h, ackSent, bound).connections)
  {
    if h in s.handshakes && s.handshakes[h].phase.Validated? {
      var k := s.handshakes[h];
      CloseMoves(s.connections, k.connection);
      if k.phase.generation.Some? && StillHandshaking(s, k.connection) {
        var cs := s.connections[k.connection := Connection(Ready, false, Some(k.device))];
        ReadyMoves(s.connections, k.connection, k.device);
        var other := if ackSent && bound && k.device in s.registry then s.registry[k.device].connection else k.connection;
        CloseMoves(cs, other);
        MoveTwice(s.connections, cs, CloseConnection(cs, other));
      }
    }
  }

  lemma HandshakeMoves(s: State, e: Event)
    requires HandshakeEvent(e) && !e.CommitReady?
    ensures ConnectionsMove(s.connections, Step(s, e).connections)
  {
    match e
    case Hello(h, c, d, digest) => CloseMoves(s.connections, c);
    case FinishAuthentication(h) =>
      if h in s.handshakes { CloseMoves(s.connections, s.handshakes[h].connection); }
    case BeginReady(h) =>
      if h in s.handshakes { CloseMoves(s.connections, s.handshakes[h].connection); }
    case VerifyCredential(h) => if h in s.handshakes && s.handshakes[h].phase.Verifying? { }
    case ValidateReady(h) => if h in s.handshakes && s.handshakes[h].phase.Leased? { }
  }

  lemma StepMoves(s: State, e: Event)
    requires RegistryOpen(s.connections, s.registry)
    ensures ConnectionsMove(s.connections, Step(s, e).connections)
  {
    match e
    case CommitReady(h, ackSent, bound) => CommitReadyMoves(s, h, ackSent, bound);
    case EvictCommitted(t) => EvictionsMove(s, e);
    case OutsideEvict(d, g) => EvictionsMove(s, e);
    case Invalidate(d, g) => EvictionsMove(s, e);
    case Close(c) => CloseMoves(s.connections, c);
    case _ => if HandshakeEvent(e) { HandshakeMoves(s, e); } else { OthersMove(s, e); }
  }

  lemma EvictionsMove(s: State, e: Event)
    requires e.EvictCommitted? || e.OutsideEvict? || e.Invalidate?
    ensures ConnectionsMove(s.connections, Step(s, e).connections)
  {
    match e
    case EvictCommitted(t) =>
      if t in s.mutations && s.mutations[t].phase.Operating? && s.mutations[t].phase.evict.Some? {
        EvictMoves(s, s.mutations[t].device, s.mutations[t].phase.evict.value);
      }
    case OutsideEvict(d, g) => EvictMoves(s, d, g);
    case Invalidate(d, g) => EvictMoves(s, d, g);
  }

  lemma OthersMove(s: State, e: Event)
    requires !HandshakeEvent(e) && !e.EvictCommitted? && !e.OutsideEvict? && !e.Invalidate? && !e.Close?
    ensures ConnectionsMove(s.connections, Step(s, e).connections)
  {
  }

  /** No session stays registered after its connection is finalized. */
  lemma FinalizedSessionsAreUnregistered(es: seq<Event>, d: DeviceId)
    requires d in Run(INITIAL, es).registry
    ensures
      var s := Run(INITIAL, es);
      s.registry[d].connection in s.connections && !s.connections[s.registry[d].connection].finalized
  {
    InitialInv();
    RunKeeps(INITIAL, es);
  }

  /** While the server runs, the lease count of a device is the number of handshakes in the leased section. */
  lemma LeasesAreReleasedExactlyOnce(es: seq<Event>, d: DeviceId)
    requires !Run(INITIAL, es).gate.stopping
    ensures
      var s := Run(INITIAL, es);
      && Count(s.gate.ready, d) == |LeasesOn(s.handshakes, d)|
      && Count(s.gate.authentications, d) == |AuthenticationsOn(s.handshakes, d)|
      && Count(s.gate.mutations, d) == |MutationsOn(s.mutations, d)|
  {
    InitialInv();
    RunKeeps(INITIAL, es);
    var s := Run(INITIAL, es);
    assert CountsExactOn(s.gate, s.mutations, s.handshakes, d);
  }

  /** An operation never runs beside another operation of its device, nor beside a leased handshake of it. */
  lemma OperationRunsAlone(es: seq<Event>, t: Ticket, u: Ticket)
    requires
      var s := Run(INITIAL, es);
      t in s.mutations && s.mutations[t].phase.Operating? && u in s.mutations
      && s.mutations[u].phase.Operating? && s.mutations[u].device == s.mutations[t].device
    ensures t == u
    ensures LeasesOn(Run(INITIAL, es).handshakes, Run(INITIAL, es).mutations[t].device) == {}
  {
    InitialInv();
    RunKeeps(INITIAL, es);
    var s := Run(INITIAL, es);
    HolderHeads(s.lines, s.mutations, t);
    HolderHeads(s.lines, s.mutations, u);
    assert DrainSound(s.gate, s.handshakes, t, s.mutations[t]);
  }

  predicate Authenticating(s: State, h: HandshakeId, d: DeviceId) {
    h in s.handshakes && s.handshakes[h].device == d && InAuthentication(s.handshakes[h])
  }

  predicate AuthenticatingThroughout(s: State, es: seq<Event>, h: HandshakeId, d: DeviceId)
    decreases |es|
  {
    Authenticating(s, h, d)
    && (es != [] ==> AuthenticatingThroughout(Step(s, es[0]), es[1..], h, d))
  }

  predicate NoMutationThroughout(s: State, es: seq<Event>, d: DeviceId)
    decreases |es|
  {
    !MutationActive(s.gate, d) && (es != [] ==> NoMutationThroughout(Step(s, es[0]), es[1..], d))
  }

  predicate HandshakeEvent(e: Event) {
    e.Hello? || e.VerifyCredential? || e.FinishAuthentication? || e.BeginReady? || e.ValidateReady?
    || e.CommitReady?
  }

  lemma CommitReadyIsLocal(s: State, h: HandshakeId, ackSent: bool, bound: bool)
    ensures
      var s' := CommitReadyStep(s, h, ackSent, bound);
      && s'.mutations == s.mutations && s'.gate.stopping == s.gate.stopping
      && s'.gate.mutations == s.gate.mutations && s'.credentials == s.credentials
      && (s'.handshakes == s.handshakes || s'.handshakes == s.handshakes - {h})
  {
    if h in s.handshakes && s.handshakes[h].phase.Validated? {
      if s.handshakes[h].phase.generation.None? {
      } else if !StillHandshaking(s, s.handshakes[h].connection) {
      } else if !ackSent || !bound {
      } else {
      }
    }
  }

  lemma BeginReadyIsLocal(s: State, h: HandshakeId)
    ensures
      var s' := BeginReadyStep(s, h);
      && s'.mutations == s.mutations && s'.gate.stopping == s.gate.stopping
      && s'.gate.mutations == s.gate.mutations && s'.credentials == s.credentials
      && (s'.handshakes == s.handshakes || s'.handshakes == s.handshakes - {h}
          || (h in s.handshakes && !InAuthentication(s.handshakes[h])
              && s'.handshakes == s.handshakes[h := s.handshakes[h].(phase := Leased)]))
  {
    if h in s.handshakes && s.handshakes[h].phase.Authenticated? {
      if !StillHandshaking(s, s.handshakes[h].connection) {
      } else if s.gate.stopping || MutationActive(s.gate, s.handshakes[h].device) {
      } else {
      }
    }
  }

  /** An earlier phase of a handshake: only the handshake itself and the gate's counts change. */
  lemma EarlyPhaseIsLocal(s: State, e: Event)
    requires e.Hello? || e.VerifyCredential? || e.FinishAuthentication? || e.ValidateReady?
    ensures
      var s' := Step(s, e);
      && s'.mutations == s.mutations && s'.gate.stopping == s.gate.stopping
      && s'.gate.mutations == s.gate.mutations && s'.credentials == s.credentials
  {
    match e
    case Hello(h, c, d, digest) =>
      if h !in s.handshakes && StillHandshaking(s, c) {
        if s.gate.stopping || MutationActive(s.gate, d) { }
      }
    case FinishAuthentication(h) =>
      if h in s.handshakes && s.handshakes[h].phase.Verified? {
        if s.handshakes[h].phase.ok && !s.gate.stopping && !MutationActive(s.gate, s.handshakes[h].device) { }
      }
    case _ =>
  }

  lemma EarlyPhaseEndsAuthentications(s: State, e: Event, d: DeviceId)
    requires e.VerifyCredential? || e.FinishAuthentication? || e.ValidateReady?
    ensures AuthenticationsOn(Step(s, e).handshakes, d) <= AuthenticationsOn(s.handshakes, d)
  {
    match e
    case VerifyCredential(h) => if h in s.handshakes && s.handshakes[h].phase.Verifying? { }
    case FinishAuthentication(h) =>
      if h in s.handshakes && s.handshakes[h].phase.Verified? {
        if s.handshakes[h].phase.ok && !s.gate.stopping && !MutationActive(s.gate, s.handshakes[h].device) { }
      }
    case ValidateReady(h) => if h in s.handshakes && s.handshakes[h].phase.Leased? { }
  }

  /** Handshakes touch no mutation, and only their repository-independent part of the gate. */
  lemma HandshakesLeaveMutations(s: State, e: Event)
    requires HandshakeEvent(e)
    ensures Step(s, e).mutations == s.mutations && Step(s, e).gate.stopping == s.gate.stopping
    ensures Step(s, e).gate.mutations == s.gate.mutations && Step(s, e).credentials == s.credentials
  {
    match e
    case CommitReady(h, ackSent, bound) => CommitReadyIsLocal(s, h, ackSent, bound);
    case BeginReady(h) => BeginReadyIsLocal(s, h);
    case _ => EarlyPhaseIsLocal(s, e);
  }

  /** Other events leave the authentications in flight; a call outside only marks handshakes. */
  lemma OthersLeaveHandshakes(s: State, e: Event, d: DeviceId)
    requires !HandshakeEvent(e)
    ensures AuthenticationsOn(Step(s, e).handshakes, d) == AuthenticationsOn(s.handshakes, d)
    ensures s.gate.stopping ==> Step(s, e).gate.stopping
  {
    OthersKeepStopping(s, e);
    match e
    case OutsideCommit(op) => StruckHolders(s.handshakes, op.device, d);
    case _ => OthersFrom(s, e);
  }

  lemma OthersKeepStopping(s: State, e: Event)
    requires !HandshakeEvent(e)
    ensures s.gate.stopping ==> Step(s, e).gate.stopping
  {
  }

  /** What is not a step of a handshake or a call outside touches no handshake and no acknowledgement. */
  lemma OthersFrom(s: State, e: Event)
    requires !HandshakeEvent(e) && !e.OutsideCommit?
    ensures Step(s, e).handshakes == s.handshakes && Step(s, e).acks == s.acks
  {
  }

  lemma StoppingStays(s: State, e: Event)
    ensures s.gate.stopping ==> Step(s, e).gate.stopping
  {
    if HandshakeEvent(e) {
      HandshakesLeaveMutations(s, e);
    } else {
      OthersLeaveHandshakes(s, e, 0);
    }
  }

  /** Only its own last step removes a mutation, and that waits for the running authentications. */
  lemma MutationRemains(s: State, e: Event, t: Ticket)
    requires DrainsSound(s.gate, s.mutations, s.handshakes) && t in s.mutations && !s.gate.stopping
    requires AuthenticationsOn(s.handshakes, s.mutations[t].device) != {}
    ensures t in Step(s, e).mutations && Step(s, e).mutations[t].device == s.mutations[t].device
  {
    assert DrainSound(s.gate, s.handshakes, t, s.mutations[t]);
    if HandshakeEvent(e) {
      HandshakesLeaveMutations(s, e);
    } else {
      OthersKeepMutation(s, e, t);
    }
  }

  lemma OthersKeepMutation(s: State, e: Event, t: Ticket)
    requires !HandshakeEvent(e) && t in s.mutations && !s.mutations[t].phase.Unlocked?
    ensures t in Step(s, e).mutations && Step(s, e).mutations[t].device == s.mutations[t].device
  {
    if MutationEvent(e) {
      MutationEventsKeepMutation(s, e, t);
    } else {
      OthersKeepMutations(s, e);
    }
  }

  predicate MutationEvent(e: Event) {
    e.BeginsMutation? || e.Acquire? || e.EnterOperation? || e.Commit? || e.EvictCommitted? || e.LeaveOperation?
    || e.Unlock? || e.EndsMutation?
  }

  /** One mutation stays while the phase of any one changes. */
  lemma PhaseChangeKeepsMutation(s: State, u: Ticket, p: MutationPhase, t: Ticket)
    requires t in s.mutations && u in s.mutations
    ensures
      var ms := s.mutations[u := s.mutations[u].(phase := p)];
      t in ms && ms[t].device == s.mutations[t].device
  {
  }

  lemma CommitKeepsMutation(s: State, u: Ticket, op: Op, t: Ticket)
    requires t in s.mutations
    ensures t in CommitStep(s, u, op).mutations && CommitStep(s, u, op).mutations[t].device == s.mutations[t].device
  {
  }

  lemma EvictKeepsMutation(s: State, u: Ticket, t: Ticket)
    requires t in s.mutations
    ensures t in EvictCommittedStep(s, u).mutations
    ensures EvictCommittedStep(s, u).mutations[t].device == s.mutations[t].device
  {
  }

  lemma MutationEventsKeepMutation(s: State, e: Event, t: Ticket)
    requires MutationEvent(e) && t in s.mutations && !s.mutations[t].phase.Unlocked?
    ensures t in Step(s, e).mutations && Step(s, e).mutations[t].device == s.mutations[t].device
  {
    match e
    case Commit(u, op) => CommitKeepsMutation(s, u, op, t);
    case EvictCommitted(u) => EvictKeepsMutation(s, u, t);
    case Acquire(u) => if u in s.mutations { PhaseChangeKeepsMutation(s, u, AwaitingLeases, t); }
    case Unlock(u) => if u in s.mutations { PhaseChangeKeepsMutation(s, u, Unlocked, t); }
    case LeaveOperation(u) => if u in s.mutations { PhaseChangeKeepsMutation(s, u, AwaitingAuthentications, t); }
    case EnterOperation(u) =>
      if u in s.mutations {
        PhaseChangeKeepsMutation(s, u, if s.gate.stopping then AwaitingAuthentications else Operating(None), t);
      }
    case BeginsMutation(u, d) =>
    case EndsMutation(u) =>
  }

  lemma OthersKeepMutations(s: State, e: Event)
    requires !HandshakeEvent(e) && !MutationEvent(e)
    ensures Step(s, e).mutations == s.mutations
  {
  }

  /** A mutation that meets a running authentication cannot end before it. */
  lemma MutationOutlastsAuthentication(s: State, e: Event, h: HandshakeId, d: DeviceId)
    requires Inv(s) && Authenticating(s, h, d) && MutationActive(s.gate, d) && !Step(s, e).gate.stopping
    ensures MutationActive(Step(s, e).gate, d)
  {
    var s' := Step(s, e);
    StepKeeps(s, e);
    StoppingStays(s, e);
    assert CountsExactOn(s.gate, s.mutations, s.handshakes, d);
    assert CountsExactOn(s'.gate, s'.mutations, s'.handshakes, d);
    var t :| t in MutationsOn(s.mutations, d);
    assert h in AuthenticationsOn(s.handshakes, d);
    MutationRemains(s, e, t);
    assert t in MutationsOn(s'.mutations, d);
  }

  lemma {:induction false} MutationOutlastsRun(s: State, es: seq<Event>, h: HandshakeId, d: DeviceId)
    requires Inv(s) && AuthenticatingThroughout(s, es, h, d)
    requires MutationActive(s.gate, d) || s.gate.stopping
    ensures MutationActive(Run(s, es).gate, d) || Run(s, es).gate.stopping
    decreases |es|
  {
    if es != [] {
      StepKeeps(s, es[0]);
      if s.gate.stopping {
        StoppingStays(s, es[0]);
      } else if !Step(s, es[0]).gate.stopping {
        MutationOutlastsAuthentication(s, es[0], h, d);
      }
      MutationOutlastsRun(Step(s, es[0]), es[1..], h, d);
    }
  }

  predicate AuthenticationSucceeds(s: State, h: HandshakeId, d: DeviceId) {
    Authenticating(s, h, d) && h in FinishAuthenticationStep(s, h).handshakes
    && FinishAuthenticationStep(s, h).handshakes[h].phase.Authenticated?
  }

  /**
   * A successful authentication overlaps no mutation of its device: if a mutation was active
   * at any state between the hello and the end of authentication, the authentication fails.
   */
  lemma {:induction false} AuthenticationOverlapsNoMutation(s: State, es: seq<Event>, h: HandshakeId, d: DeviceId)
    requires Inv(s) && AuthenticatingThroughout(s, es, h, d)
    requires AuthenticationSucceeds(Run(s, es), h, d)
    ensures NoMutationThroughout(s, es, d)
    decreases |es|
  {
    assert !MutationActive(Run(s, es).gate, d) && !Run(s, es).gate.stopping;
    if MutationActive(s.gate, d) {
      MutationOutlastsRun(s, es, h, d);
    }
    if es != [] {
      StepKeeps(s, es[0]);
      AuthenticationOverlapsNoMutation(Step(s, es[0]), es[1..], h, d);
    }
  }

  /** During a mutation no authentication of its device begins: those in flight can only end. */
  lemma AuthenticationsOnlyEnd(s: State, e: Event, d: DeviceId)
    requires MutationActive(s.gate, d) || s.gate.stopping
    ensures AuthenticationsOn(Step(s, e).handshakes, d) <= AuthenticationsOn(s.handshakes, d)
  {
    if !HandshakeEvent(e) {
      OthersLeaveHandshakes(s, e, d);
    } else {
      match e
      case CommitReady(h, ackSent, bound) => CommitReadyIsLocal(s, h, ackSent, bound);
      case BeginReady(h) => BeginReadyIsLocal(s, h);
      case Hello(h, c, d', digest) => if h !in s.handshakes && StillHandshaking(s, c) { }
      case _ => EarlyPhaseEndsAuthentications(s, e, d);
    }
  }

  /** No lost wake-up: a waiting mutation may go on as soon as nothing is left to wait for. */
  lemma DrainsComplete(es: seq<Event>, t: Ticket)
    requires t in Run(INITIAL, es).mutations
    ensures
      var s := Run(INITIAL, es);
      var m := s.mutations[t];
      && (m.phase.AwaitingAuthentications? && AuthenticationsOn(s.handshakes, m.device) == {} ==>
            Step(s, Unlock(t)).mutations[t].phase == Unlocked)
      && (m.phase.AwaitingLeases? && LeasesOn(s.handshakes, m.device) == {} ==>
            !Step(s, EnterOperation(t)).mutations[t].phase.AwaitingLeases?)
  {
    InitialInv();
    RunKeeps(INITIAL, es);
    var s := Run(INITIAL, es);
    assert DrainSound(s.gate, s.handshakes, t, s.mutations[t]);
  }

  // --- Calls outside the lifecycle operation ---------------------------------------------------

  /** A handshake that may still be acknowledged. */
  predicate MayAcknowledge(s: State, h: HandshakeId) {
    && h in s.handshakes && s.handshakes[h].phase.Validated? && s.handshakes[h].phase.generation.Some?
    && StillHandshaking(s, s.handshakes[h].connection)
  }

  /** The event is a rotation or revocation outside the lifecycle operation, beside such a handshake. */
  predicate Strikes(s: State, e: Event) {
    && e.OutsideCommit? && !e.op.Issue? && Apply(s.credentials, e.op).1.Issued?
    && exists h :: h in s.handshakes && s.handshakes[h].device == e.op.device && MayAcknowledge(s, h)
  }

  predicate NothingStrikes(s: State, es: seq<Event>)
    decreases |es|
  {
    es != [] ==> !Strikes(s, es[0]) && NothingStrikes(Step(s, es[0]), es[1..])
  }

  ghost predicate AllAcksActive(acks: seq<Ack>) {
    forall i | 0 <= i < |acks| :: acks[i].activeThen == Some(acks[i].generation)
  }

  /** Handshakes belong to opened connections, and none that may be acknowledged was struck. */
  ghost predicate NobodyMisled(s: State) {
    && (forall h <- s.handshakes ::
          && s.handshakes[h].connection in s.connections
          && (s.handshakes[h].struck ==> !StillHandshaking(s, s.handshakes[h].connection)))
    && (forall i | 0 <= i < |s.acks| :: !s.acks[i].struck)
  }

  /** The handshakes after a step: earlier ones, with their connection, or one that has just begun. */
  ghost predicate HandshakesFrom(s: State, s': State) {
    forall h <- s'.handshakes ::
      && s'.handshakes[h].connection in s'.connections
      && (s'.handshakes[h].struck ==>
            && h in s.handshakes && s.handshakes[h].connection == s'.handshakes[h].connection
            && s.handshakes[h].struck)
  }

  lemma MovedNobodyMisled(s: State, s': State)
    requires NobodyMisled(s) && HandshakesFrom(s, s') && ConnectionsMove(s.connections, s'.connections)
    requires forall i | 0 <= i < |s'.acks| :: !s'.acks[i].struck
    ensures NobodyMisled(s')
  {
    forall h <- s'.handshakes | s'.handshakes[h].struck
      ensures !StillHandshaking(s', s'.handshakes[h].connection)
    {
      var c := s.handshakes[h].connection;
      assert ConnectionMoves(s.connections[c], s'.connections[c]);
    }
  }

  lemma CommitReadyFrom(s: State, h: HandshakeId, ackSent: bool, bound: bool)
    requires NobodyMisled(s) && RegistryOpen(s.connections, s.registry)
    ensures NobodyMisled(CommitReadyStep(s, h, ackSent, bound))
  {
    var s' := CommitReadyStep(s, h, ackSent, bound);
    CommitReadyIsLocal(s, h, ackSent, bound);
    CommitReadyMoves(s, h, ackSent, bound);
    CommitReadyAcks(s, h, ackSent, bound);
    MovedNobodyMisled(s, s');
  }

  /** Only a handshake whose connection is still handshaking is acknowledged. */
  lemma CommitReadyAcks(s: State, h: HandshakeId, ackSent: bool, bound: bool)
    ensures
      var acks := CommitReadyStep(s, h, ackSent, bound).acks;
      if !MayAcknowledge(s, h) || !ackSent then acks == s.acks
      else
        var k := s.handshakes[h];
        acks == s.acks + [Ack(k.connection, k.device, k.phase.generation.value,
                              ActiveGeneration(s.credentials, k.device), k.struck)]
  {
  }

  lemma OutsideCommitFrom(s: State, op: Op)
    requires NobodyMisled(s) && !Strikes(s, OutsideCommit(op)) && ValidatedCurrent(s.credentials, s.handshakes)
    ensures NobodyMisled(OutsideCommitStep(s, op))
  {
    var s' := OutsideCommitStep(s, op);
    forall h <- s'.handshakes
      ensures s'.handshakes[h].connection in s'.connections
      ensures s'.handshakes[h].struck ==> !StillHandshaking(s', s'.handshakes[h].connection)
    {
      assert h in s.handshakes;
      if s'.handshakes[h].struck && !s.handshakes[h].struck {
        assert s.handshakes[h].device == op.device;
        assert !MayAcknowledge(s, h);
      }
    }
  }

  lemma HelloFrom(s: State, h: HandshakeId, c: ConnectionId, d: DeviceId, digest: Digest)
    requires NobodyMisled(s)
    ensures HandshakesFrom(s, HelloStep(s, h, c, d, digest)) && HelloStep(s, h, c, d, digest).acks == s.acks
  {
    if h !in s.handshakes && StillHandshaking(s, c) {
      if s.gate.stopping || MutationActive(s.gate, d) { }
    }
  }

  lemma FinishAuthenticationFrom(s: State, h: HandshakeId)
    requires NobodyMisled(s)
    ensures HandshakesFrom(s, FinishAuthenticationStep(s, h)) && FinishAuthenticationStep(s, h).acks == s.acks
  {
    if h in s.handshakes && s.handshakes[h].phase.Verified? {
      if s.handshakes[h].phase.ok && !s.gate.stopping && !MutationActive(s.gate, s.handshakes[h].device) { }
    }
  }

  lemma BeginReadyFrom(s: State, h: HandshakeId)
    requires NobodyMisled(s)
    ensures HandshakesFrom(s, BeginReadyStep(s, h)) && BeginReadyStep(s, h).acks == s.acks
  {
    if h in s.handshakes && s.handshakes[h].phase.Authenticated? {
      if !StillHandshaking(s, s.handshakes[h].connection) {
      } else if s.gate.stopping || MutationActive(s.gate, s.handshakes[h].device) {
      }
    }
  }

  lemma HandshakeFrom(s: State, e: Event)
    requires NobodyMisled(s) && HandshakeEvent(e) && !e.CommitReady?
    ensures HandshakesFrom(s, Step(s, e)) && Step(s, e).acks == s.acks
  {
    match e
    case Hello(h, c, d, digest) => HelloFrom(s, h, c, d, digest);
    case FinishAuthentication(h) => FinishAuthenticationFrom(s, h);
    case BeginReady(h) => BeginReadyFrom(s, h);
    case VerifyCredential(h) => if h in s.handshakes && s.handshakes[h].phase.Verifying? { }
    case ValidateReady(h) => if h in s.handshakes && s.handshakes[h].phase.Leased? { }
  }

  lemma NobodyMisledKept(s: State, e: Event)
    requires Inv(s) && NobodyMisled(s) && !Strikes(s, e)
    ensures NobodyMisled(Step(s, e))
  {
    StepMoves(s, e);
    match e
    case CommitReady(h, ackSent, bound) => CommitReadyFrom(s, h, ackSent, bound);
    case OutsideCommit(op) => OutsideCommitFrom(s, op);
    case _ =>
      if HandshakeEvent(e) {
        HandshakeFrom(s, e);
      } else {
        OthersFrom(s, e);
      }
      MovedNobodyMisled(s, Step(s, e));
  }

  lemma {:induction false} NothingStrikesMeansNobodyMisled(s: State, es: seq<Event>)
    requires Inv(s) && NobodyMisled(s) && NothingStrikes(s, es)
    ensures NobodyMisled(Run(s, es)) && Inv(Run(s, es))
    decreases |es|
  {
    if es != [] {
      NobodyMisledKept(s, es[0]);
      StepKeeps(s, es[0]);
      NothingStrikesMeansNobodyMisled(Step(s, es[0]), es[1..]);
    }
  }

  lemma UnstruckAcksAreActive(s: State)
    requires Inv(s) && NobodyMisled(s)
    ensures AllAcksActive(s.acks)
  {
  }

  /** A struck handshake that may be acknowledged is, and the acknowledgement names a dead generation. */
  lemma StrikeMisleads(s: State, e: Event) returns (h: HandshakeId)
    requires Inv(s) && Strikes(s, e)
    ensures !AllAcksActive(Step(Step(s, e), CommitReady(h, true, true)).acks)
  {
    h :| h in s.handshakes && s.handshakes[h].device == e.op.device && MayAcknowledge(s, h);
    var s' := Step(s, e);
    StepKeeps(s, e);
    assert HandshakeCurrent(s'.credentials, s'.handshakes[h]);
    CommitReadyAcks(s', h, true, true);
    var acks := Step(s', CommitReady(h, true, true)).acks;
    assert acks[|s'.acks|].activeThen != Some(acks[|s'.acks|].generation);
  }

  /** One more acknowledgement may follow any prefix of the run. */
  ghost predicate EveryAckIsActive(s: State, es: seq<Event>)
    decreases |es|
  {
    && (forall h :: AllAcksActive(Step(s, CommitReady(h, true, true)).acks))
    && (es != [] ==> EveryAckIsActive(Step(s, es[0]), es[1..]))
  }

  lemma AckAfterNobodyMisled(s: State, h: HandshakeId)
    requires Inv(s) && NobodyMisled(s)
    ensures AllAcksActive(Step(s, CommitReady(h, true, true)).acks)
  {
    NobodyMisledKept(s, CommitReady(h, true, true));
    StepKeeps(s, CommitReady(h, true, true));
    UnstruckAcksAreActive(Step(s, CommitReady(h, true, true)));
  }

  lemma {:induction false} AcksAreActiveExactly(s: State, es: seq<Event>)
    requires Inv(s) && NobodyMisled(s)
    ensures EveryAckIsActive(s, es) <==> NothingStrikes(s, es)
    decreases |es|
  {
    forall h: HandshakeId ensures AllAcksActive(Step(s, CommitReady(h, true, true)).acks) {
      AckAfterNobodyMisled(s, h);
    }
    if es != [] {
      StepKeeps(s, es[0]);
      if Strikes(s, es[0]) {
        var h := StrikeMisleads(s, es[0]);
        assert !EveryAckIsActive(Step(s, es[0]), es[1..]);
      } else {
        NobodyMisledKept(s, es[0]);
        AcksAreActiveExactly(Step(s, es[0]), es[1..]);
      }
    }
  }

  /**
   * For every run, calls outside the lifecycle operation included: every acknowledgement that
   * is sent, or may be sent after any of its steps, names the active generation, if and only if
   * no such call rotates or revokes beside a validated handshake of its device that may still
   * be acknowledged. First issues are harmless, and so are sessions already registered.
   */
  lemma AcknowledgementsAreActiveExactlyUnlessStruck(es: seq<Event>)
    ensures EveryAckIsActive(INITIAL, es) <==> NothingStrikes(INITIAL, es)
    ensures NothingStrikes(INITIAL, es) ==> AllAcksActive(Run(INITIAL, es).acks)
  {
    InitialInv();
    AcksAreActiveExactly(INITIAL, es);
    if NothingStrikes(INITIAL, es) {
      NothingStrikesMeansNobodyMisled(INITIAL, es);
      UnstruckAcksAreActive(Run(INITIAL, es));
    }
  }

  // --- A run that fails ----------------------------------------------------------------------------

  /** A connection authenticates and is validated; the credential of the device is the first one. */
  function ValidatedRun(d: DeviceId): seq<Event> {
    [OutsideCommit(Issue(d, 0, DigestOf(0), 0)), Open(0), Hello(0, 0, d, DigestOf(0)), VerifyCredential(0),
     FinishAuthentication(0), BeginReady(0), ValidateReady(0)]
  }

  /** Then a call outside rotates and evicts, and only then is the handshake acknowledged. */
  function MisledRun(d: DeviceId): seq<Event> {
    ValidatedRun(d)
    + [OutsideCommit(Rotate(d, 0, 1, 1, DigestOf(1), 1)), OutsideEvict(d, Generation(0, 1)), CommitReady(0, true, true)]
  }

  lemma RunCons(s: State, e: Event, es: seq<Event>)
    ensures Run(s, [e] + es) == Run(Step(s, e), es)
  {
    assert ([e] + es)[1..] == es;
  }

  lemma {:induction false} RunAppend(s: State, es: seq<Event>, more: seq<Event>)
    ensures Run(s, es + more) == Run(Run(s, es), more)
    decreases |es|
  {
    if es == [] {
      assert es + more == more;
    } else {
      assert (es + more)[1..] == es[1..] + more;
      RunAppend(Step(s, es[0]), es[1..], more);
    }
  }

  predicate FirstValidated(s: State, d: DeviceId) {
    && s.credentials == Store(map[d := Credential(0, 1, DigestOf(0), 0, Active)], {0})
    && s.handshakes == map[0 := Handshake(0, d, DigestOf(0), Validated(Some(Generation(0, 1))), false)]
    && s.connections == map[0 := Connection(Handshaking, false, None)]
    && s.registry == map[] && s.acks == [] && s.strays == {} && s.mutations == map[]
  }

  lemma ValidatedRunValidates(d: DeviceId)
    ensures FirstValidated(Run(INITIAL, ValidatedRun(d)), d)
  {
    var es := ValidatedRun(d);
    var s1 := Step(INITIAL, es[0]);
    assert s1.credentials == Store(map[d := Credential(0, 1, DigestOf(0), 0, Active)], {0});
    var s2 := Step(s1, es[1]);
    var s3 := Step(s2, es[2]);
    assert s3.handshakes == map[0 := Handshake(0, d, DigestOf(0), Verifying, false)];
    var s4 := Step(s3, es[3]);
    assert s4.handshakes == map[0 := Handshake(0, d, DigestOf(0), Verified(true), false)];
    var s5 := Step(s4, es[4]);
    assert s5.handshakes == map[0 := Handshake(0, d, DigestOf(0), Authenticated, false)];
    var s6 := Step(s5, es[5]);
    assert s6.handshakes == map[0 := Handshake(0, d, DigestOf(0), Leased, false)];
    var s7 := Step(s6, es[6]);
    assert s7.handshakes == map[0 := Handshake(0, d, DigestOf(0), Validated(Some(Generation(0, 1))), false)];
    assert es == [es[0]] + ([es[1]] + ([es[2]] + ([es[3]] + ([es[4]] + ([es[5]] + ([es[6]] + []))))));
    RunCons(s6, es[6], []);
    RunCons(s5, es[5], [es[6]] + []);
    RunCons(s4, es[4], [es[5]] + ([es[6]] + []));
    RunCons(s3, es[3], [es[4]] + ([es[5]] + ([es[6]] + [])));
    RunCons(s2, es[2], [es[3]] + ([es[4]] + ([es[5]] + ([es[6]] + []))));
    RunCons(s1, es[1], [es[2]] + ([es[3]] + ([es[4]] + ([es[5]] + ([es[6]] + [])))));
    RunCons(INITIAL, es[0], [es[1]] + ([es[2]] + ([es[3]] + ([es[4]] + ([es[5]] + ([es[6]] + []))))));
  }

  /**
   * A run from the start in which a rotation outside the lifecycle operation misleads a
   * handshake: it is acknowledged for a generation that is gone, and its session stays
   * registered under it, with nothing left that would evict it.
   */
  lemma OutsideRotationMisleadsHandshake(d: DeviceId)
    ensures
      var s := Run(INITIAL, MisledRun(d));
      && s.acks == [Ack(0, d, Generation(0, 1), Some(Generation(1, 2)), true)]
      && s.registry == map[d := Registration(Generation(0, 1), 0, true)]
      && s.strays == {} && s.mutations == map[]
      && ActiveGeneration(s.credentials, d) == Some(Generation(1, 2))
  {
    var more := [OutsideCommit(Rotate(d, 0, 1, 1, DigestOf(1), 1)), OutsideEvict(d, Generation(0, 1)),
                 CommitReady(0, true, true)];
    ValidatedRunValidates(d);
    RunAppend(INITIAL, ValidatedRun(d), more);
    LateRotationMisleads(Run(INITIAL, ValidatedRun(d)), d, more);
  }

  lemma LateRotationMisleads(s: State, d: DeviceId, more: seq<Event>)
    requires FirstValidated(s, d)
    requires more == [OutsideCommit(Rotate(d, 0, 1, 1, DigestOf(1), 1)), OutsideEvict(d, Generation(0, 1)),
                      CommitReady(0, true, true)]
    ensures
      var s' := Run(s, more);
      && s'.acks == [Ack(0, d, Generation(0, 1), Some(Generation(1, 2)), true)]
      && s'.registry == map[d := Registration(Generation(0, 1), 0, true)]
      && s'.strays == {} && s'.mutations == map[]
      && ActiveGeneration(s'.credentials, d) == Some(Generation(1, 2))
  {
    var s1 := Step(s, more[0]);
    assert s1.handshakes == map[0 := Handshake(0, d, DigestOf(0), Validated(Some(Generation(0, 1))), true)];
    assert s1.strays == {Stray(d, Generation(0, 1))};
    var s2 := Step(s1, more[1]);
    assert s2.strays == {} && s2.registry == map[];
    assert ActiveGeneration(s2.credentials, d) == Some(Generation(1, 2));
    var s3 := Step(s2, more[2]);
    CommitReadyAcks(s2, 0, true, true);
    assert more == [more[0]] + ([more[1]] + ([more[2]] + []));
    RunCons(s2, more[2], []);
    RunCons(s1, more[1], [more[2]] + []);
    RunCons(s, more[0], [more[1]] + ([more[2]] + []));
  }
}
