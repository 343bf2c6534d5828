/**
 * What single calls of the server runtime bring about, and where an acknowledgement comes
 * from: every run traces it back to a hello with the digest of a credential that was active.
 */
module ServerRuntimeLaws {
  import opened Wrappers
  import opened DeviceCredential
  import opened DeviceCredentialLifecycle
  import opened SessionGate
  import opened ServerRuntime
  import opened ServerRuntimeInvariant
  import opened ServerRuntimeResults

  // --- Ready connections ---------------------------------------------------------------------------------

  /** A connection that is ready has a session, and its device is registered on it. */
  predicate ReadyIsRegistered(cs: Connections, reg: Registry, c: ConnectionId) {
    c in cs && cs[c].state.Ready? ==>
      && cs[c].session.Some?
      && cs[c].session.value in reg && reg[cs[c].session.value].connection == c
  }

  /** Closing a connection leaves it neither handshaking nor ready, and touches no other. */
  lemma CloseEnds(cs: Connections, c: ConnectionId, other: ConnectionId)
    requires c in cs && (cs[c].finalized ==> cs[c].state.Closed?)
    ensures !CloseConnection(cs, c)[c].state.Ready? && !CloseConnection(cs, c)[c].state.Handshaking?
    ensures CloseConnection(cs, c)[c].session == cs[c].session
    ensures other in cs && other != c ==> CloseConnection(cs, c)[other] == cs[other]
  {
  }

  /** A finalised connection is closed. */
  ghost predicate FinalizedAreClosed(cs: Connections) {
    forall c <- cs | cs[c].finalized :: cs[c].state.Closed?
  }

  lemma EvictingKeepsReady(s: State, d: DeviceId, g: Generation, c: ConnectionId)
    requires ReadyIsRegistered(s.connections, s.registry, c) && FinalizedAreClosed(s.connections)
    requires RegistryOpen(s.connections, s.registry)
    ensures
      var s' := EvictGeneration(s, d, g);
      ReadyIsRegistered(s'.connections, s'.registry, c) && FinalizedAreClosed(s'.connections)
  {
  }

  lemma CommittingKeepsReady(s: State, h: HandshakeId, ackSent: bool, bound: bool, c: ConnectionId)
    requires ReadyIsRegistered(s.connections, s.registry, c) && FinalizedAreClosed(s.connections)
    requires RegistryOpen(s.connections, s.registry)
    ensures
      var s' := CommitReadyStep(s, h, ackSent, bound);
      ReadyIsRegistered(s'.connections, s'.registry, c) && FinalizedAreClosed(s'.connections)
  {
    if h in s.handshakes && s.handshakes[h].phase.Validated? && s.handshakes[h].phase.generation.Some?
       && StillHandshaking(s, s.handshakes[h].connection) {
      if ackSent && bound {
        BindingKeepsReady(s, h, c);
      }
    }
  }

  lemma BindingKeepsReady(s: State, h: HandshakeId, c: ConnectionId)
    requires ReadyIsRegistered(s.connections, s.registry, c) && FinalizedAreClosed(s.connections)
    requires RegistryOpen(s.connections, s.registry)
    requires h in s.handshakes && s.handshakes[h].phase.Validated? && s.handshakes[h].phase.generation.Some?
    requires StillHandshaking(s, s.handshakes[h].connection)
    ensures
      var s' := CommitReadyStep(s, h, true, true);
      ReadyIsRegistered(s'.connections, s'.registry, c) && FinalizedAreClosed(s'.connections)
  {
    var k := s.handshakes[h];
    var cs := s.connections[k.connection := Connection(Ready, false, Some(k.device))];
    var s' := CommitReadyStep(s, h, true, true);
    if k.device in s.registry {
      var replaced := s.registry[k.device].connection;
      assert s'.connections == CloseConnection(cs, replaced);
      assert replaced != k.connection;
      CloseEnds(cs, replaced, c);
    }
  }

  lemma HandshakesKeepReady(s: State, e: Event, c: ConnectionId)
    requires ReadyIsRegistered(s.connections, s.registry, c) && FinalizedAreClosed(s.connections)
    requires HandshakeEvent(e) && !e.CommitReady?
    ensures
      var s' := Step(s, e);
      ReadyIsRegistered(s'.connections, s'.registry, c) && FinalizedAreClosed(s'.connections)
  {
    match e
    case Hello(h, c', d, digest) => if h !in s.handshakes && StillHandshaking(s, c') { }
    case FinishAuthentication(h) => if h in s.handshakes && s.handshakes[h].phase.Verified? { }
    case BeginReady(h) => if h in s.handshakes && s.handshakes[h].phase.Authenticated? { }
    case VerifyCredential(h) => if h in s.handshakes && s.handshakes[h].phase.Verifying? { }
    case ValidateReady(h) => if h in s.handshakes && s.handshakes[h].phase.Leased? { }
  }

  /** What touches neither connections nor registrations. */
  lemma OthersKeepReady(s: State, e: Event)
    requires MutationEvent(e) && !e.EvictCommitted?
    ensures Step(s, e).connections == s.connections && Step(s, e).registry == s.registry
  {
  }

  /** The heartbeat's eviction, and the end of a server stop, forget a registration without closing. */
  predicate ForgetsOnly(e: Event, c: ConnectionId) {
    e == EvictSession(c) || e.EndStop?
  }

  lemma StepKeepsReady(s: State, e: Event, c: ConnectionId)
    requires ReadyIsRegistered(s.connections, s.registry, c) && FinalizedAreClosed(s.connections)
    requires RegistryOpen(s.connections, s.registry) && !ForgetsOnly(e, c)
    ensures
      var s' := Step(s, e);
      ReadyIsRegistered(s'.connections, s'.registry, c) && FinalizedAreClosed(s'.connections)
  {
    match e
    case CommitReady(h, ackSent, bound) => CommittingKeepsReady(s, h, ackSent, bound, c);
    case Invalidate(d, g) => EvictingKeepsReady(s, d, g, c);
    case OutsideEvict(d, g) => EvictingKeepsReady(s, d, g, c);
    case EvictCommitted(t) =>
      if t in s.mutations && s.mutations[t].phase.Operating? && s.mutations[t].phase.evict.Some? {
        EvictingKeepsReady(s, s.mutations[t].device, s.mutations[t].phase.evict.value, c);
      }
    case _ =>
      if HandshakeEvent(e) {
        HandshakesKeepReady(s, e, c);
      } else if MutationEvent(e) {
        OthersKeepReady(s, e);
      } else {
        RestKeepsReady(s, e, c);
      }
  }

  lemma RestKeepsReady(s: State, e: Event, c: ConnectionId)
    requires ReadyIsRegistered(s.connections, s.registry, c) && FinalizedAreClosed(s.connections)
    requires !ForgetsOnly(e, c)
    requires e.Open? || e.OutsideCommit? || e.EvictSession? || e.Close? || e.Finalize? || e.BeginStop? || e.EndStop?
    ensures
      var s' := Step(s, e);
      ReadyIsRegistered(s'.connections, s'.registry, c) && FinalizedAreClosed(s'.connections)
  {
  }

  lemma {:induction false} RunKeepsReady(s: State, es: seq<Event>, c: ConnectionId)
    requires Inv(s) && ReadyIsRegistered(s.connections, s.registry, c) && FinalizedAreClosed(s.connections)
    requires forall i | 0 <= i < |es| :: !ForgetsOnly(es[i], c)
    ensures
      var s' := Run(s, es);
      ReadyIsRegistered(s'.connections, s'.registry, c) && FinalizedAreClosed(s'.connections)
    decreases |es|
  {
    if es != [] {
      assert !ForgetsOnly(es[0], c);
      StepKeeps(s, es[0]);
      StepKeepsReady(s, es[0], c);
      RunKeepsReady(Step(s, es[0]), es[1..], c);
    }
  }

  /**
   * Over every run, a connection that is ready is the one its device is registered on: a session
   * that is evicted or replaced is closed in the same step. Only a heartbeat's own eviction and
   * the end of a server stop forget a registration first.
   */
  lemma ReadyConnectionsAreRegistered(es: seq<Event>, c: ConnectionId)
    requires forall i | 0 <= i < |es| :: !ForgetsOnly(es[i], c)
    ensures
      var s := Run(INITIAL, es);
      ReadyIsRegistered(s.connections, s.registry, c)
  {
    InitialInv();
    RunKeepsReady(INITIAL, es, c);
  }

  // --- Ends of handshakes and connections ----------------------------------------------------------------

  /** A handshake that ends leaves its connection ready or closing, never waiting in the handshake. */
  lemma EndedHandshakeEndsConnection(s: State, e: Event, h: HandshakeId)
    requires h in s.handshakes && h !in Step(s, e).handshakes
    ensures !StillHandshaking(Step(s, e), s.handshakes[h].connection)
  {
    if e.CommitReady? || e.FinishAuthentication? || e.BeginReady? {
      OtherHandshakesStay(s, e, h);
      match e {
        case CommitReady(_, ackSent, bound) => CommittedHandshakeEnds(s, h, ackSent, bound);
        case FinishAuthentication(_) => AuthenticationEnds(s, h);
        case BeginReady(_) => AuthenticationEnds(s, h);
      }
    } else {
      OnlyThreeStepsEndHandshakes(s, e, h);
    }
  }

  lemma OtherHandshakesStay(s: State, e: Event, h: HandshakeId)
    requires h in s.handshakes && (e.CommitReady? || e.FinishAuthentication? || e.BeginReady?)
    ensures h !in Step(s, e).handshakes ==> h == e.handshake
    ensures h !in Step(s, e).handshakes && e.CommitReady? ==> s.handshakes[h].phase.Validated?
  {
    match e
    case CommitReady(h', ackSent, bound) => CommitReadyIsLocal(s, h', ackSent, bound);
    case FinishAuthentication(h') => if h' in s.handshakes && s.handshakes[h'].phase.Verified? { }
    case BeginReady(h') => BeginReadyIsLocal(s, h');
  }

  lemma AuthenticationEnds(s: State, h: HandshakeId)
    requires h in s.handshakes
    ensures h !in FinishAuthenticationStep(s, h).handshakes ==>
      !StillHandshaking(FinishAuthenticationStep(s, h), s.handshakes[h].connection)
    ensures h !in BeginReadyStep(s, h).handshakes ==>
      !StillHandshaking(BeginReadyStep(s, h), s.handshakes[h].connection)
  {
  }

  lemma OnlyThreeStepsEndHandshakes(s: State, e: Event, h: HandshakeId)
    requires h in s.handshakes && !e.CommitReady? && !e.FinishAuthentication? && !e.BeginReady?
    ensures h in Step(s, e).handshakes
  {
    if HandshakeEvent(e) {
      match e
      case Hello(h', c, d, digest) => if h' !in s.handshakes && StillHandshaking(s, c) { }
      case VerifyCredential(h') => if h' in s.handshakes && s.handshakes[h'].phase.Verifying? { }
      case ValidateReady(h') => if h' in s.handshakes && s.handshakes[h'].phase.Leased? { }
    } else if !e.OutsideCommit? {
      OthersFrom(s, e);
    }
  }

  lemma CommittedHandshakeEnds(s: State, h: HandshakeId, ackSent: bool, bound: bool)
    requires h in s.handshakes && s.handshakes[h].phase.Validated?
    ensures !StillHandshaking(CommitReadyStep(s, h, ackSent, bound), s.handshakes[h].connection)
    ensures h !in CommitReadyStep(s, h, ackSent, bound).handshakes
  {
    if s.handshakes[h].phase.generation.Some? && StillHandshaking(s, s.handshakes[h].connection) {
      if !ackSent {
      } else if !bound {
      }
    }
  }

  /** A hello either begins its handshake, with what it presented, or ends its connection. */
  lemma HelloBeginsOrCloses(s: State, h: HandshakeId, c: ConnectionId, d: DeviceId, digest: Digest)
    requires StillHandshaking(s, c) && h !in s.handshakes
    ensures
      var s' := Step(s, Hello(h, c, d, digest));
      if s.gate.stopping || Count(s.gate.mutations, d) > 0
      then s'.handshakes == s.handshakes && !StillHandshaking(s', c)
      else s'.handshakes == s.handshakes[h := Handshake(c, d, digest, Verifying, false)] && StillHandshaking(s', c)
  {
  }

  /** A handshake that comes too late for its connection leaves it, whoever has it now, and only gives up what it holds. */
  lemma LateHandshakeOnlyEnds(s: State, h: HandshakeId, ackSent: bool, bound: bool)
    requires h in s.handshakes && !StillHandshaking(s, s.handshakes[h].connection)
    ensures
      var k := s.handshakes[h];
      && (k.phase.Authenticated? ==> Step(s, BeginReady(h)) == s.(handshakes := s.handshakes - {h}))
      && (k.phase.Validated? && k.phase.generation.Some? ==>
            var s' := Step(s, CommitReady(h, ackSent, bound));
            && s' == s.(handshakes := s.handshakes - {h}, gate := s'.gate)
            && (Count(s.gate.ready, k.device) > 0 ==>
                  Count(s'.gate.ready, k.device) == Count(s.gate.ready, k.device) - 1))
  {
  }

  /** After it is finalised a connection is closed for good and no device is registered on it. */
  lemma FinalizeEnds(s: State, c: ConnectionId)
    requires c in s.connections
    ensures
      var s' := Step(s, Finalize(c));
      && s'.connections[c].finalized && s'.connections[c].state.Closed?
      && (forall d <- s'.registry :: s'.registry[d].connection != c)
      && (forall d <- s.registry | s.registry[d].connection != c :: d in s'.registry && s'.registry[d] == s.registry[d])
  {
  }

  /** An invalidation, whoever sends it, leaves the generation registered nowhere and its session closing. */
  lemma InvalidationEvicts(s: State, d: DeviceId, g: Generation)
    requires FinalizedAreClosed(s.connections) && RegistryOpen(s.connections, s.registry)
    ensures
      var s' := Step(s, Invalidate(d, g));
      && (d in s'.registry ==> s'.registry[d].generation != g)
      && (d in s.registry && s.registry[d].generation == g ==>
            && s'.registry == s.registry - {d}
            && !s'.connections[s.registry[d].connection].state.Ready?)
      && (!(d in s.registry && s.registry[d].generation == g) ==> s' == s)
  {
  }

  /** A closed connection is neither handshaking nor ready. */
  lemma CloseIsFinal(s: State, c: ConnectionId)
    requires c in s.connections && FinalizedAreClosed(s.connections)
    ensures
      var s' := Step(s, Close(c));
      c in s'.connections && !s'.connections[c].state.Ready? && !s'.connections[c].state.Handshaking?
  {
    CloseEnds(s.connections, c, c);
  }

  // --- Server stop -----------------------------------------------------------------------------------------

  /** A stop lets every waiter go at once; its end leaves no count and no registration. */
  lemma StopReleasesEverything(s: State, d: DeviceId)
    ensures
      var s1 := Step(s, BeginStop);
      s1.gate.stopping && WaitersOf(s1.gate.authWaiters, d) == {} && WaitersOf(s1.gate.readyWaiters, d) == {}
    ensures s.gate.stopping ==>
      var s2 := Step(s, EndStop);
      && s2.gate.stopping && s2.registry == map[]
      && Count(s2.gate.mutations, d) == 0 && Count(s2.gate.authentications, d) == 0 && Count(s2.gate.ready, d) == 0
  {
  }

  /** Once the server is stopping, no authentication, lease, mutation or operation begins. */
  lemma StoppedServerAdmitsNothing(s: State, e: Event, d: DeviceId, t: Ticket)
    requires s.gate.stopping
    ensures Step(s, e).gate.stopping
    ensures AuthenticationsOn(Step(s, e).handshakes, d) <= AuthenticationsOn(s.handshakes, d)
    ensures LeasesOn(Step(s, e).handshakes, d) <= LeasesOn(s.handshakes, d)
    ensures t in Step(s, e).mutations ==> t in s.mutations
    ensures t in Step(s, e).mutations && Step(s, e).mutations[t].phase.Operating? ==> s.mutations[t].phase.Operating?
  {
    StoppingStays(s, e);
    AuthenticationsOnlyEnd(s, e, d);
    if HandshakeEvent(e) {
      HandshakesLeaveMutations(s, e);
      StoppedLeases(s, e, d);
    } else {
      if e.OutsideCommit? {
        StruckHolders(s.handshakes, e.op.device, d);
      } else {
        OthersFrom(s, e);
      }
      if MutationEvent(e) {
        StoppedMutations(s, e, t);
      } else {
        OthersKeepMutations(s, e);
      }
    }
  }

  lemma StoppedLeases(s: State, e: Event, d: DeviceId)
    requires s.gate.stopping && HandshakeEvent(e)
    ensures LeasesOn(Step(s, e).handshakes, d) <= LeasesOn(s.handshakes, d)
  {
    match e
    case CommitReady(h, ackSent, bound) => CommitReadyIsLocal(s, h, ackSent, bound);
    case BeginReady(h) => if h in s.handshakes && s.handshakes[h].phase.Authenticated? { }
    case Hello(h, c, d', digest) =>
    case FinishAuthentication(h) => if h in s.handshakes && s.handshakes[h].phase.Verified? { }
    case VerifyCredential(h) => if h in s.handshakes && s.handshakes[h].phase.Verifying? { }
    case ValidateReady(h) => if h in s.handshakes && s.handshakes[h].phase.Leased? { }
  }

  lemma StoppedMutations(s: State, e: Event, t: Ticket)
    requires s.gate.stopping && MutationEvent(e)
    ensures t in Step(s, e).mutations ==> t in s.mutations
    ensures t in Step(s, e).mutations && Step(s, e).mutations[t].phase.Operating? ==> s.mutations[t].phase.Operating?
  {
  }

  // --- Where an acknowledgement comes from -------------------------------------------------------------------

  /** An unstruck validated handshake carries the very digest of its device's active record. */
  ghost predicate ValidatedHold(store: Store, hs: Handshakes) {
    forall h <- hs | hs[h].phase.Validated? && hs[h].phase.generation.Some? && !hs[h].struck ::
      Holds(store, hs[h].device, hs[h].phase.generation.value, hs[h].digest)
  }

  /** Some credential that was active when the handshake was last checked had its digest. */
  predicate Passed(k: Handshake) {
    k.phase == Verified(true) || k.phase.Authenticated? || k.phase.Leased? || k.phase.Validated?
  }

  /** How a handshake after a step comes from one before it. */
  ghost predicate Follows(store: Store, k: Handshake, k': Handshake) {
    && k'.connection == k.connection && k'.device == k.device && k'.digest == k.digest && (k.struck ==> k'.struck)
    && (Passed(k') ==> Passed(k) || exists g :: Holds(store, k.device, g, k.digest))
    && (k'.phase.Validated? && k'.phase.generation.Some? ==>
          k.phase == k'.phase || Holds(store, k.device, k'.phase.generation.value, k.digest))
  }

  lemma CheckedHandshakeFollows(s: State, h: HandshakeId)
    requires h in s.handshakes
    ensures Follows(s.credentials, s.handshakes[h], VerifyCredentialStep(s, h).handshakes[h])
    ensures Follows(s.credentials, s.handshakes[h], ValidateReadyStep(s, h).handshakes[h])
  {
    var k := s.handshakes[h];
    DigestIsAcceptedExactly(s.credentials, k.device, k.digest);
    if Verify(s.credentials, k.device, k.digest).Some? {
      var c := s.credentials.byDevice[k.device];
      assert Holds(s.credentials, k.device, Generation(c.credentialId, c.version), k.digest);
    }
  }

  lemma SameHandshakeFollows(store: Store, k: Handshake, struck: bool)
    requires k.struck ==> struck
    ensures Follows(store, k, k.(struck := struck))
  {
  }

  lemma MovedHandshakeFollows(s: State, h: HandshakeId, h': HandshakeId)
    ensures h in s.handshakes && h in FinishAuthenticationStep(s, h').handshakes ==>
      Follows(s.credentials, s.handshakes[h], FinishAuthenticationStep(s, h').handshakes[h])
    ensures h in s.handshakes && h in BeginReadyStep(s, h').handshakes ==>
      Follows(s.credentials, s.handshakes[h], BeginReadyStep(s, h').handshakes[h])
    ensures h in FinishAuthenticationStep(s, h').handshakes ==> h in s.handshakes
    ensures h in BeginReadyStep(s, h').handshakes ==> h in s.handshakes
  {
  }

  lemma OtherCheckFollows(s: State, h: HandshakeId, h': HandshakeId)
    requires h in VerifyCredentialStep(s, h').handshakes || h in ValidateReadyStep(s, h').handshakes
    ensures h in s.handshakes
    ensures h in VerifyCredentialStep(s, h').handshakes && h in ValidateReadyStep(s, h').handshakes
    ensures Follows(s.credentials, s.handshakes[h], VerifyCredentialStep(s, h').handshakes[h])
    ensures Follows(s.credentials, s.handshakes[h], ValidateReadyStep(s, h').handshakes[h])
  {
    if h == h' {
      CheckedHandshakeFollows(s, h);
    } else {
      SameHandshakeFollows(s.credentials, s.handshakes[h], s.handshakes[h].struck);
    }
  }

  lemma NewHandshake(s: State, h: HandshakeId, c: ConnectionId, d: DeviceId, digest: Digest, h': HandshakeId)
    requires h in HelloStep(s, h', c, d, digest).handshakes
    ensures
      var k' := HelloStep(s, h', c, d, digest).handshakes[h];
      if h in s.handshakes then k' == s.handshakes[h]
      else h == h' && k' == Handshake(c, d, digest, Verifying, false)
  {
  }

  /** Every handshake comes from one before the step, or from a hello that presented what it carries. */
  lemma HandshakeFollows(s: State, e: Event, h: HandshakeId)
    requires h in Step(s, e).handshakes
    ensures
      var k' := Step(s, e).handshakes[h];
      if h in s.handshakes then Follows(s.credentials, s.handshakes[h], k')
      else e == Hello(h, k'.connection, k'.device, k'.digest) && !Passed(k')
  {
    if HandshakeEvent(e) {
      match e
      case VerifyCredential(h') => OtherCheckFollows(s, h, h');
      case ValidateReady(h') => OtherCheckFollows(s, h, h');
      case CommitReady(h', ackSent, bound) =>
        CommitReadyIsLocal(s, h', ackSent, bound);
        SameHandshakeFollows(s.credentials, s.handshakes[h], s.handshakes[h].struck);
      case Hello(h', c, d, digest) =>
        NewHandshake(s, h, c, d, digest, h');
        if h in s.handshakes {
          SameHandshakeFollows(s.credentials, s.handshakes[h], s.handshakes[h].struck);
        }
      case FinishAuthentication(h') => MovedHandshakeFollows(s, h, h');
      case BeginReady(h') => MovedHandshakeFollows(s, h, h');
    } else {
      OthersOnlyMark(s, e, h);
      SameHandshakeFollows(s.credentials, s.handshakes[h], Step(s, e).handshakes[h].struck);
    }
  }

  lemma OthersOnlyMark(s: State, e: Event, h: HandshakeId)
    requires !HandshakeEvent(e) && h in Step(s, e).handshakes
    ensures h in s.handshakes
    ensures Step(s, e).handshakes[h] == s.handshakes[h].(struck := Step(s, e).handshakes[h].struck)
    ensures s.handshakes[h].struck ==> Step(s, e).handshakes[h].struck
  {
    if !e.OutsideCommit? {
      OthersFrom(s, e);
    }
  }

  /** The run holds a hello that presented this. */
  ghost predicate Greeted(es: seq<Event>, c: ConnectionId, d: DeviceId, digest: Digest) {
    exists i | 0 <= i < |es| :: IsHello(es[i], c, d, digest)
  }

  predicate IsHello(e: Event, c: ConnectionId, d: DeviceId, digest: Digest) {
    e.Hello? && e.connection == c && e.device == d && e.digest == digest
  }

  /** At some moment of the run the device's active record was this generation, with this digest. */
  ghost predicate WasActive(es: seq<Event>, d: DeviceId, g: Generation, digest: Digest) {
    exists q: nat :: HeldAfter(es, q, d, g, digest)
  }

  predicate HeldAfter(es: seq<Event>, q: nat, d: DeviceId, g: Generation, digest: Digest) {
    q <= |es| && Holds(Run(INITIAL, es[..q]).credentials, d, g, digest)
  }

  ghost predicate HandshakeTraces(es: seq<Event>, k: Handshake) {
    && Greeted(es, k.connection, k.device, k.digest)
    && (Passed(k) ==> exists g :: WasActive(es, k.device, g, k.digest))
    && (k.phase.Validated? && k.phase.generation.Some? ==>
          WasActive(es, k.device, k.phase.generation.value, k.digest))
  }

  ghost predicate AckTraces(es: seq<Event>, a: Ack) {
    exists digest :: Greeted(es, a.connection, a.device, digest) && WasActive(es, a.device, a.generation, digest)
  }

  ghost predicate AcksTrace(es: seq<Event>, acks: seq<Ack>) {
    forall i | 0 <= i < |acks| :: AckTraces(es, acks[i])
  }

  lemma GreetedGrows(es: seq<Event>, e: Event, c: ConnectionId, d: DeviceId, digest: Digest)
    ensures Greeted(es, c, d, digest) ==> Greeted(es + [e], c, d, digest)
    ensures IsHello(e, c, d, digest) ==> Greeted(es + [e], c, d, digest)
  {
    if Greeted(es, c, d, digest) {
      var i :| 0 <= i < |es| && IsHello(es[i], c, d, digest);
      assert (es + [e])[i] == es[i];
    }
    assert (es + [e])[|es|] == e;
  }

  lemma WasActiveGrows(es: seq<Event>, e: Event, d: DeviceId, g: Generation, digest: Digest)
    ensures WasActive(es, d, g, digest) ==> WasActive(es + [e], d, g, digest)
    ensures Holds(Run(INITIAL, es).credentials, d, g, digest) ==> WasActive(es + [e], d, g, digest)
  {
    if WasActive(es, d, g, digest) {
      var q: nat :| HeldAfter(es, q, d, g, digest);
      assert (es + [e])[..q] == es[..q];
      assert HeldAfter(es + [e], q, d, g, digest);
    }
    if Holds(Run(INITIAL, es).credentials, d, g, digest) {
      assert (es + [e])[..|es|] == es;
      assert HeldAfter(es + [e], |es|, d, g, digest);
    }
  }

  lemma TracesGrow(es: seq<Event>, e: Event, k: Handshake, k': Handshake)
    requires HandshakeTraces(es, k) && Follows(Run(INITIAL, es).credentials, k, k')
    ensures HandshakeTraces(es + [e], k')
  {
    var store := Run(INITIAL, es).credentials;
    GreetedGrows(es, e, k.connection, k.device, k.digest);
    if Passed(k') {
      if Passed(k) {
        var g :| WasActive(es, k.device, g, k.digest);
        WasActiveGrows(es, e, k.device, g, k.digest);
      } else {
        var g :| Holds(store, k.device, g, k.digest);
        WasActiveGrows(es, e, k.device, g, k.digest);
      }
    }
    if k'.phase.Validated? && k'.phase.generation.Some? {
      WasActiveGrows(es, e, k.device, k'.phase.generation.value, k.digest);
    }
  }

  lemma AckOfTraced(es: seq<Event>, k: Handshake, a: Ack)
    requires HandshakeTraces(es, k) && k.phase.Validated? && k.phase.generation == Some(a.generation)
    requires a.connection == k.connection && a.device == k.device
    ensures AckTraces(es, a)
  {
    assert Greeted(es, a.connection, a.device, k.digest) && WasActive(es, a.device, a.generation, k.digest);
  }

  lemma AckTracesGrow(es: seq<Event>, e: Event, a: Ack)
    requires AckTraces(es, a)
    ensures AckTraces(es + [e], a)
  {
    var digest :| Greeted(es, a.connection, a.device, digest) && WasActive(es, a.device, a.generation, digest);
    GreetedGrows(es, e, a.connection, a.device, digest);
    WasActiveGrows(es, e, a.device, a.generation, digest);
  }

  lemma RunSnoc(s: State, es: seq<Event>, e: Event)
    ensures Run(s, es + [e]) == Step(Run(s, es), e)
  {
    RunAppend(s, es, [e]);
    assert [e][1..] == [];
  }

  lemma StepTraces(es: seq<Event>, e: Event)
    requires forall h <- Run(INITIAL, es).handshakes :: HandshakeTraces(es, Run(INITIAL, es).handshakes[h])
    ensures
      var s' := Step(Run(INITIAL, es), e);
      forall h <- s'.handshakes :: HandshakeTraces(es + [e], s'.handshakes[h])
  {
    var s := Run(INITIAL, es);
    var s' := Step(s, e);
    forall h <- s'.handshakes
      ensures HandshakeTraces(es + [e], s'.handshakes[h])
    {
      HandshakeFollows(s, e, h);
      var k' := s'.handshakes[h];
      if h in s.handshakes {
        TracesGrow(es, e, s.handshakes[h], k');
      } else {
        GreetedGrows(es, e, k'.connection, k'.device, k'.digest);
      }
    }
  }

  lemma StepAckTraces(es: seq<Event>, e: Event)
    requires forall h <- Run(INITIAL, es).handshakes :: HandshakeTraces(es, Run(INITIAL, es).handshakes[h])
    requires AcksTrace(es, Run(INITIAL, es).acks)
    ensures AcksTrace(es + [e], Step(Run(INITIAL, es), e).acks)
  {
    var s := Run(INITIAL, es);
    forall i | 0 <= i < |s.acks|
      ensures AckTraces(es + [e], s.acks[i])
    {
      AckTracesGrow(es, e, s.acks[i]);
    }
    if e.CommitReady? {
      CommitReadyAcks(s, e.handshake, e.ackSent, e.bound);
      if MayAcknowledge(s, e.handshake) && e.ackSent {
        var k := s.handshakes[e.handshake];
        var a := Ack(k.connection, k.device, k.phase.generation.value, ActiveGeneration(s.credentials, k.device), k.struck);
        assert Step(s, e).acks == s.acks + [a];
        AckOfTraced(es, k, a);
        AckTracesGrow(es, e, a);
      }
    } else {
      AcksOnlyByCommit(s, e);
    }
  }

  lemma AcksOnlyByCommit(s: State, e: Event)
    requires !e.CommitReady?
    ensures Step(s, e).acks == s.acks
  {
    match e
    case Hello(h, c, d, digest) => if h !in s.handshakes && StillHandshaking(s, c) { }
    case FinishAuthentication(h) => if h in s.handshakes && s.handshakes[h].phase.Verified? { }
    case BeginReady(h) => if h in s.handshakes && s.handshakes[h].phase.Authenticated? { }
    case VerifyCredential(h) => if h in s.handshakes && s.handshakes[h].phase.Verifying? { }
    case ValidateReady(h) => if h in s.handshakes && s.handshakes[h].phase.Leased? { }
    case OutsideCommit(op) =>
    case _ => OthersFrom(s, e);
  }

  /**
   * Over every run: a handshake that was ever accepted presented, in its hello, the digest of a
   * credential that was active for its device at some moment; one that was validated for a
   * generation presented the digest of that generation; and so did each acknowledged one.
   */
  lemma {:induction false} AcceptedHellosHadTheDigest(es: seq<Event>)
    ensures
      var s := Run(INITIAL, es);
      && (forall h <- s.handshakes :: HandshakeTraces(es, s.handshakes[h]))
      && AcksTrace(es, s.acks)
    decreases |es|
  {
    if es != [] {
      var before, e := es[..|es| - 1], es[|es| - 1];
      assert es == before + [e];
      AcceptedHellosHadTheDigest(before);
      RunSnoc(INITIAL, before, e);
      StepTraces(before, e);
      StepAckTraces(before, e);
    }
  }

  /** A device that never had a credential with any digest presented on a connection is never acknowledged there. */
  lemma WrongSecretIsNeverAcknowledged(es: seq<Event>, c: ConnectionId, d: DeviceId)
    requires forall digest, g | Greeted(es, c, d, digest) :: !WasActive(es, d, g, digest)
    ensures
      var acks := Run(INITIAL, es).acks;
      forall i | 0 <= i < |acks| :: !(acks[i].connection == c && acks[i].device == d)
  {
    AcceptedHellosHadTheDigest(es);
    var acks := Run(INITIAL, es).acks;
    forall i | 0 <= i < |acks|
      ensures !(acks[i].connection == c && acks[i].device == d)
    {
      assert AckTraces(es, acks[i]);
    }
  }

  // --- What a validated handshake carries ----------------------------------------------------------------------

  /** Of one generation there is only one record: while it stays active, so does its digest. */
  lemma ActiveRecordStays(store: Store, op: Op, d: DeviceId, g: Generation, digest: Digest)
    requires Valid(store) && Holds(store, d, g, digest) && ActiveGeneration(Apply(store, op).0, d) == Some(g)
    ensures Holds(Apply(store, op).0, d, g, digest)
  {
  }

  lemma CredentialsOnlyByCommit(s: State, e: Event)
    requires !e.Commit? && !e.OutsideCommit?
    ensures Step(s, e).credentials == s.credentials
  {
    if HandshakeEvent(e) {
      HandshakesLeaveMutations(s, e);
    }
  }

  lemma CommitsApply(s: State, e: Event)
    requires e.Commit? || e.OutsideCommit?
    ensures Step(s, e).credentials == s.credentials || Step(s, e).credentials == Apply(s.credentials, e.op).0
  {
  }

  lemma HoldingStays(s: State, e: Event, d: DeviceId, g: Generation, digest: Digest)
    requires Valid(s.credentials) && Holds(s.credentials, d, g, digest)
    requires ActiveGeneration(Step(s, e).credentials, d) == Some(g)
    ensures Holds(Step(s, e).credentials, d, g, digest)
  {
    if e.Commit? || e.OutsideCommit? {
      CommitsApply(s, e);
      if Step(s, e).credentials != s.credentials {
        ActiveRecordStays(s.credentials, e.op, d, g, digest);
      }
    } else {
      CredentialsOnlyByCommit(s, e);
    }
  }

  lemma StepKeepsHolding(s: State, e: Event)
    requires Inv(s) && ValidatedHold(s.credentials, s.handshakes)
    ensures ValidatedHold(Step(s, e).credentials, Step(s, e).handshakes)
  {
    var s' := Step(s, e);
    StepKeeps(s, e);
    forall h <- s'.handshakes
      | s'.handshakes[h].phase.Validated? && s'.handshakes[h].phase.generation.Some? && !s'.handshakes[h].struck
      ensures Holds(s'.credentials, s'.handshakes[h].device, s'.handshakes[h].phase.generation.value,
                    s'.handshakes[h].digest)
    {
      var k' := s'.handshakes[h];
      HandshakeFollows(s, e, h);
      assert HandshakeCurrent(s'.credentials, k');
      HoldingStays(s, e, k'.device, k'.phase.generation.value, k'.digest);
    }
  }

  lemma {:induction false} RunKeepsHolding(s: State, es: seq<Event>)
    requires Inv(s) && ValidatedHold(s.credentials, s.handshakes)
    ensures ValidatedHold(Run(s, es).credentials, Run(s, es).handshakes)
    decreases |es|
  {
    if es != [] {
      StepKeeps(s, es[0]);
      StepKeepsHolding(s, es[0]);
      RunKeepsHolding(Step(s, es[0]), es[1..]);
    }
  }

  /**
   * Over every run, an unstruck handshake that is validated for a generation carries exactly the
   * digest of its device's record, which is active and of that generation.
   */
  lemma ValidatedHandshakesHoldTheDigest(es: seq<Event>)
    ensures ValidatedHold(Run(INITIAL, es).credentials, Run(INITIAL, es).handshakes)
  {
    InitialInv();
    RunKeepsHolding(INITIAL, es);
  }

  // --- A handshake and a mutation, undisturbed -----------------------------------------------------------------

  lemma OneStep(s: State, e: Event, s': State)
    requires s' == Step(s, e)
    ensures Run(s, [e]) == s'
  {
    RunCons(s, e, []);
    assert [e] + [] == [e];
  }

  lemma HelloRuns(s: State, h: HandshakeId, c: ConnectionId, d: DeviceId, digest: Digest)
    ensures Run(s, [Hello(h, c, d, digest)]) == HelloStep(s, h, c, d, digest)
  {
    OneStep(s, Hello(h, c, d, digest), HelloStep(s, h, c, d, digest));
  }

  lemma VerifyRuns(s: State, h: HandshakeId)
    ensures Run(s, [VerifyCredential(h)]) == VerifyCredentialStep(s, h)
  {
    OneStep(s, VerifyCredential(h), VerifyCredentialStep(s, h));
  }

  lemma FinishRuns(s: State, h: HandshakeId)
    ensures Run(s, [FinishAuthentication(h)]) == FinishAuthenticationStep(s, h)
  {
    OneStep(s, FinishAuthentication(h), FinishAuthenticationStep(s, h));
  }

  lemma BeginReadyRuns(s: State, h: HandshakeId)
    ensures Run(s, [BeginReady(h)]) == BeginReadyStep(s, h)
  {
    OneStep(s, BeginReady(h), BeginReadyStep(s, h));
  }

  lemma ValidateRuns(s: State, h: HandshakeId)
    ensures Run(s, [ValidateReady(h)]) == ValidateReadyStep(s, h)
  {
    OneStep(s, ValidateReady(h), ValidateReadyStep(s, h));
  }

  lemma CommitReadyRuns(s: State, h: HandshakeId)
    ensures Run(s, [CommitReady(h, true, true)]) == CommitReadyStep(s, h, true, true)
  {
    OneStep(s, CommitReady(h, true, true), CommitReadyStep(s, h, true, true));
  }

  lemma BeginsRuns(s: State, t: Ticket, d: DeviceId)
    ensures Run(s, [BeginsMutation(t, d)]) == BeginMutationStep(s, t, d)
  {
    OneStep(s, BeginsMutation(t, d), BeginMutationStep(s, t, d));
  }

  lemma AcquireRuns(s: State, t: Ticket)
    ensures Run(s, [Acquire(t)]) == AcquireStep(s, t)
  {
    OneStep(s, Acquire(t), AcquireStep(s, t));
  }

  lemma EnterRuns(s: State, t: Ticket)
    ensures Run(s, [EnterOperation(t)]) == EnterOperationStep(s, t)
  {
    OneStep(s, EnterOperation(t), EnterOperationStep(s, t));
  }

  lemma CommitRuns(s: State, t: Ticket, op: Op)
    ensures Run(s, [Commit(t, op)]) == CommitStep(s, t, op)
  {
    OneStep(s, Commit(t, op), CommitStep(s, t, op));
  }

  lemma EvictRuns(s: State, t: Ticket)
    ensures Run(s, [EvictCommitted(t)]) == EvictCommittedStep(s, t)
  {
    OneStep(s, EvictCommitted(t), EvictCommittedStep(s, t));
  }

  lemma LeaveRuns(s: State, t: Ticket)
    ensures Run(s, [LeaveOperation(t)]) == LeaveOperationStep(s, t)
  {
    OneStep(s, LeaveOperation(t), LeaveOperationStep(s, t));
  }

  lemma UnlockRuns(s: State, t: Ticket)
    ensures Run(s, [Unlock(t)]) == UnlockStep(s, t)
  {
    OneStep(s, Unlock(t), UnlockStep(s, t));
  }

  lemma EndsRuns(s: State, t: Ticket)
    ensures Run(s, [EndsMutation(t)]) == EndMutationStep(s, t)
  {
    OneStep(s, EndsMutation(t), EndMutationStep(s, t));
  }

  lemma TwoRuns(s: State, es: seq<Event>, more: seq<Event>, s1: State, s2: State)
    requires Run(s, es) == s1 && Run(s1, more) == s2
    ensures Run(s, es + more) == s2
  {
    RunAppend(s, es, more);
  }

  /** Only one handshake and the gate change. */
  ghost predicate OnlyHandshake(s: State, s': State, h: HandshakeId, k: Handshake) {
    && s'.handshakes == s.handshakes[h := k] && s'.connections == s.connections && s'.registry == s.registry
    && s'.acks == s.acks && s'.credentials == s.credentials && s'.mutations == s.mutations && s'.strays == s.strays
    && s'.gate.stopping == s.gate.stopping && s'.gate.mutations == s.gate.mutations
  }

  lemma SecretIsChecked(s: State, h: HandshakeId, c: ConnectionId, d: DeviceId, digest: Digest)
    returns (es: seq<Event>, s': State)
    requires !s.gate.stopping && Count(s.gate.mutations, d) == 0 && StillHandshaking(s, c) && h !in s.handshakes
    ensures es == [Hello(h, c, d, digest)] + [VerifyCredential(h)] && Run(s, es) == s'
    ensures OnlyHandshake(s, s', h, Handshake(c, d, digest, Verified(
              d in s.credentials.byDevice && s.credentials.byDevice[d].status.Active?
              && s.credentials.byDevice[d].digest == digest), false))
  {
    var s1 := HelloStep(s, h, c, d, digest);
    assert OnlyHandshake(s, s1, h, Handshake(c, d, digest, Verifying, false));
    DigestIsAcceptedExactly(s.credentials, d, digest);
    s' := VerifyCredentialStep(s1, h);
    HelloRuns(s, h, c, d, digest);
    VerifyRuns(s1, h);
    es := [Hello(h, c, d, digest)] + [VerifyCredential(h)];
    TwoRuns(s, [Hello(h, c, d, digest)], [VerifyCredential(h)], s1, s');
  }

  lemma CheckedIsValidated(s: State, h: HandshakeId, g: Generation) returns (es: seq<Event>, s': State)
    requires h in s.handshakes && s.handshakes[h].phase == Verified(true) && !s.handshakes[h].struck
    requires !s.gate.stopping && Count(s.gate.mutations, s.handshakes[h].device) == 0
    requires StillHandshaking(s, s.handshakes[h].connection)
    requires Holds(s.credentials, s.handshakes[h].device, g, s.handshakes[h].digest)
    ensures Run(s, es) == s'
    ensures OnlyHandshake(s, s', h, s.handshakes[h].(phase := Validated(Some(g))))
  {
    var k := s.handshakes[h];
    var s1 := FinishAuthenticationStep(s, h);
    assert OnlyHandshake(s, s1, h, k.(phase := Authenticated));
    var s2 := BeginReadyStep(s1, h);
    assert OnlyHandshake(s1, s2, h, k.(phase := Leased));
    DigestIsAcceptedExactly(s.credentials, k.device, k.digest);
    s' := ValidateReadyStep(s2, h);
    assert OnlyHandshake(s2, s', h, k.(phase := Validated(Some(g))));
    FinishRuns(s, h);
    BeginReadyRuns(s1, h);
    ValidateRuns(s2, h);
    TwoRuns(s, [FinishAuthentication(h)], [BeginReady(h)], s1, s2);
    es := [FinishAuthentication(h)] + [BeginReady(h)] + [ValidateReady(h)];
    TwoRuns(s, [FinishAuthentication(h)] + [BeginReady(h)], [ValidateReady(h)], s2, s');
  }

  lemma ValidatedIsRegistered(s: State, h: HandshakeId) returns (s': State)
    requires MayAcknowledge(s, h) && FinalizedAreClosed(s.connections)
    requires forall d <- s.registry :: s.registry[d].connection in s.connections
    ensures Run(s, [CommitReady(h, true, true)]) == s'
    ensures
      var k := s.handshakes[h];
      && s'.handshakes == s.handshakes - {h}
      && s'.acks == s.acks + [Ack(k.connection, k.device, k.phase.generation.value,
                                  ActiveGeneration(s.credentials, k.device), k.struck)]
      && s'.registry == s.registry[k.device := Registration(k.phase.generation.value, k.connection, k.struck)]
      && s'.credentials == s.credentials && s'.mutations == s.mutations
      && (!(k.device in s.registry && s.registry[k.device].connection == k.connection) ==>
            k.connection in s'.connections && s'.connections[k.connection] == Connection(Ready, false, Some(k.device)))
      && (k.device in s.registry && s.registry[k.device].connection != k.connection ==>
            && s.registry[k.device].connection in s'.connections
            && !s'.connections[s.registry[k.device].connection].state.Ready?)
  {
    var k := s.handshakes[h];
    s' := CommitReadyStep(s, h, true, true);
    CommitReadyRuns(s, h);
    CommitReadyAcks(s, h, true, true);
    if k.device in s.registry && s.registry[k.device].connection != k.connection {
      var cs := s.connections[k.connection := Connection(Ready, false, Some(k.device))];
      CloseEnds(cs, s.registry[k.device].connection, k.connection);
    }
  }

  lemma SecretIsValidated(s: State, h: HandshakeId, c: ConnectionId, d: DeviceId, g: Generation, digest: Digest)
    returns (es: seq<Event>, s': State)
    requires !s.gate.stopping && Count(s.gate.mutations, d) == 0
    requires StillHandshaking(s, c) && h !in s.handshakes && Holds(s.credentials, d, g, digest)
    ensures Run(s, es) == s' && OnlyHandshake(s, s', h, Handshake(c, d, digest, Validated(Some(g)), false))
  {
    var checking, s2 := SecretIsChecked(s, h, c, d, digest);
    var validating, s5 := CheckedIsValidated(s2, h, g);
    TwoRuns(s, checking, validating, s2, s5);
    es, s' := checking + validating, s5;
  }

  /**
   * Undisturbed, a hello with the active digest is acknowledged for the active generation, and
   * its session is registered in place of any other of the device, which is closed.
   */
  lemma RightSecretIsAcknowledged(s: State, h: HandshakeId, c: ConnectionId, d: DeviceId, g: Generation, digest: Digest)
    returns (es: seq<Event>)
    requires Inv(s) && FinalizedAreClosed(s.connections)
    requires !s.gate.stopping && Count(s.gate.mutations, d) == 0
    requires StillHandshaking(s, c) && h !in s.handshakes && Holds(s.credentials, d, g, digest)
    ensures
      var s' := Run(s, es);
      && s'.acks == s.acks + [Ack(c, d, g, Some(g), false)]
      && s'.registry == s.registry[d := Registration(g, c, false)]
      && s'.handshakes == s.handshakes && s'.credentials == s.credentials && s'.mutations == s.mutations
      && c in s'.connections && s'.connections[c] == Connection(Ready, false, Some(d))
      && (d in s.registry ==>
            && s.registry[d].connection in s'.connections
            && !s'.connections[s.registry[d].connection].state.Ready?)
  {
    var before, s5 := SecretIsValidated(s, h, c, d, g, digest);
    var s6 := ValidatedIsRegistered(s5, h);
    assert s5.handshakes - {h} == s.handshakes;
    assert d in s.registry ==> s.registry[d].connection != c;
    TwoRuns(s, before, [CommitReady(h, true, true)], s5, s6);
    es := before + [CommitReady(h, true, true)];
    HoldingIsActive(s.credentials, d, g, digest);
  }

  lemma HoldingIsActive(store: Store, d: DeviceId, g: Generation, digest: Digest)
    requires Holds(store, d, g, digest)
    ensures ActiveGeneration(store, d) == Some(g)
  {
  }

  /** Any other digest, and any digest of a device without an active credential, ends the connection. */
  lemma WrongSecretIsRefused(s: State, h: HandshakeId, c: ConnectionId, d: DeviceId, digest: Digest)
    requires !s.gate.stopping && Count(s.gate.mutations, d) == 0 && StillHandshaking(s, c) && h !in s.handshakes
    requires !(d in s.credentials.byDevice && s.credentials.byDevice[d].status.Active?
               && s.credentials.byDevice[d].digest == digest)
    ensures
      var s' := Run(s, [Hello(h, c, d, digest), VerifyCredential(h), FinishAuthentication(h)]);
      && s'.handshakes == s.handshakes && !StillHandshaking(s', c)
      && s'.acks == s.acks && s'.registry == s.registry && s'.credentials == s.credentials
  {
    var checking, s2 := SecretIsChecked(s, h, c, d, digest);
    FinishRuns(s2, h);
    CheckFails(s2, h);
    assert s2.handshakes - {h} == s.handshakes;
    TwoRuns(s, checking, [FinishAuthentication(h)], s2, FinishAuthenticationStep(s2, h));
    assert checking + [FinishAuthentication(h)]
        == [Hello(h, c, d, digest), VerifyCredential(h), FinishAuthentication(h)];
  }

  lemma CheckFails(s: State, h: HandshakeId)
    requires h in s.handshakes && s.handshakes[h].phase == Verified(false)
    ensures
      var s' := FinishAuthenticationStep(s, h);
      && s'.handshakes == s.handshakes - {h} && !StillHandshaking(s', s.handshakes[h].connection)
      && s'.acks == s.acks && s'.registry == s.registry && s'.credentials == s.credentials
  {
  }

  lemma HeadIsMutation(line: seq<Ticket>, ms: Mutations, d: DeviceId)
    requires LineExact(line, ms, d) && line != []
    ensures line[0] in MutationsOn(ms, d)
  {
    assert line[0] in line;
  }

  /** Only one mutation, its line and the gate change. */
  ghost predicate OnlyMutation(s: State, s': State, t: Ticket, m: Mutation) {
    && s'.mutations == s.mutations[t := m] && s'.credentials == s.credentials && s'.registry == s.registry
    && s'.connections == s.connections && s'.handshakes == s.handshakes && s'.gate.stopping == s.gate.stopping
  }

  lemma MutationBegins(s: State, t: Ticket, d: DeviceId) returns (s': State)
    requires Inv(s) && !s.gate.stopping && t !in s.mutations && MutationsOn(s.mutations, d) == {}
    ensures Run(s, [BeginsMutation(t, d)]) == s' && Inv(s')
    ensures OnlyMutation(s, s', t, Mutation(d, InLine)) && LineOf(s'.lines, d) == [t]
  {
    assert LineExact(LineOf(s.lines, d), s.mutations, d);
    if LineOf(s.lines, d) != [] {
      HeadIsMutation(LineOf(s.lines, d), s.mutations, d);
    }
    s' := BeginMutationStep(s, t, d);
    BeginMutationKeeps(s, t, d);
    BeginsRuns(s, t, d);
  }

  lemma MutationAcquires(s: State, t: Ticket, d: DeviceId) returns (s': State)
    requires Inv(s) && !s.gate.stopping && t in s.mutations && s.mutations[t] == Mutation(d, InLine)
    requires LineOf(s.lines, d) == [t] && LeasesOn(s.handshakes, d) == {}
    ensures Run(s, [Acquire(t)]) == s' && Inv(s')
    ensures OnlyMutation(s, s', t, Mutation(d, AwaitingLeases)) && t !in WaitersOf(s'.gate.readyWaiters, d)
  {
    s' := AcquireStep(s, t);
    AcquireKeeps(s, t);
    AcquireRuns(s, t);
    assert OnlyMutation(s, s', t, Mutation(d, AwaitingLeases));
    assert DrainSound(s'.gate, s'.handshakes, t, s'.mutations[t]);
  }

  lemma MutationEnters(s: State, t: Ticket, d: DeviceId) returns (s': State)
    requires Inv(s) && !s.gate.stopping && t in s.mutations && s.mutations[t] == Mutation(d, InLine)
    requires LineOf(s.lines, d) == [t] && LeasesOn(s.handshakes, d) == {}
    ensures Run(s, [Acquire(t)] + [EnterOperation(t)]) == s' && Inv(s')
    ensures OnlyMutation(s, s', t, Mutation(d, Operating(None)))
  {
    var s1 := MutationAcquires(s, t, d);
    s' := EnterOperationStep(s1, t);
    EnterOperationKeeps(s1, t);
    EnterRuns(s1, t);
    assert OnlyMutation(s1, s', t, Mutation(d, Operating(None)));
    TwoRuns(s, [Acquire(t)], [EnterOperation(t)], s1, s');
  }

  predicate Replaces(s: State, op: Op) {
    && Apply(s.credentials, op).1.Issued? && !op.Issue? && op.device in s.registry
    && Some(s.registry[op.device].generation) == ActiveGeneration(s.credentials, op.device)
  }

  /** What an undisturbed mutation leaves behind. */
  ghost predicate Mutated(s: State, s': State, op: Op) {
    && s'.credentials == Apply(s.credentials, op).0 && s'.handshakes == s.handshakes
    && (if Replaces(s, op)
        then
          && s'.registry == s.registry - {op.device}
          && s.registry[op.device].connection in s'.connections
          && !s'.connections[s.registry[op.device].connection].state.Ready?
        else s'.registry == s.registry && s'.connections == s.connections)
  }

  /** The repository call of the operation, and the eviction of what it replaced. */
  lemma CommitChanges(s: State, t: Ticket, op: Op)
    requires t in s.mutations && s.mutations[t] == Mutation(op.device, Operating(None))
    ensures
      var (store, r) := Apply(s.credentials, op);
      CommitStep(s, t, op) == s.(credentials := store, mutations := s.mutations[t := Mutation(op.device, Operating(
        if r.Issued? && !op.Issue? then ActiveGeneration(s.credentials, op.device) else None))])
  {
  }

  lemma EvictionChanges(s: State, t: Ticket, d: DeviceId, g: Option<Generation>)
    requires FinalizedAreClosed(s.connections) && RegistryOpen(s.connections, s.registry)
    requires t in s.mutations && s.mutations[t] == Mutation(d, Operating(g))
    ensures
      var s' := EvictCommittedStep(s, t);
      && s'.credentials == s.credentials && s'.gate == s.gate && s'.handshakes == s.handshakes
      && s'.mutations == s.mutations[t := Mutation(d, Operating(None))]
      && (if g.Some? && d in s.registry && s.registry[d].generation == g.value
          then
            && s'.registry == s.registry - {d}
            && s.registry[d].connection in s'.connections
            && !s'.connections[s.registry[d].connection].state.Ready?
          else s'.registry == s.registry && s'.connections == s.connections)
  {
    if d in s.registry {
      CloseEnds(s.connections, s.registry[d].connection, 0);
    }
    if g.None? {
      assert s.mutations == s.mutations[t := Mutation(d, Operating(None))];
    }
  }

  lemma OperationCommits(s: State, t: Ticket, op: Op) returns (s': State)
    requires Inv(s) && FinalizedAreClosed(s.connections)
    requires t in s.mutations && s.mutations[t] == Mutation(op.device, Operating(None))
    ensures Run(s, [Commit(t, op)] + [EvictCommitted(t)]) == s' && Inv(s')
    ensures Mutated(s, s', op) && s'.mutations == s.mutations && s'.gate == s.gate
  {
    var s1 := CommitStep(s, t, op);
    CommitKeeps(s, t, op);
    CommitChanges(s, t, op);
    OnlyDeviceCommitted(s.credentials, op);
    s' := EvictCommittedStep(s1, t);
    EvictCommittedKeeps(s1, t);
    EvictionChanges(s1, t, op.device, s1.mutations[t].phase.evict);
    assert s'.mutations == s.mutations;
    CommitRuns(s, t, op);
    EvictRuns(s1, t);
    TwoRuns(s, [Commit(t, op)], [EvictCommitted(t)], s1, s');
  }

  lemma MutationUnlocks(s: State, t: Ticket, d: DeviceId) returns (s': State)
    requires Inv(s) && !s.gate.stopping && t in s.mutations && s.mutations[t] == Mutation(d, Operating(None))
    requires AuthenticationsOn(s.handshakes, d) == {}
    ensures Run(s, [LeaveOperation(t)] + [Unlock(t)]) == s' && Inv(s')
    ensures OnlyMutation(s, s', t, Mutation(d, Unlocked))
  {
    var s1 := LeaveOperationStep(s, t);
    LeaveOperationKeeps(s, t);
    assert OnlyMutation(s, s1, t, Mutation(d, AwaitingAuthentications));
    assert DrainSound(s1.gate, s1.handshakes, t, s1.mutations[t]);
    s' := UnlockStep(s1, t);
    UnlockKeeps(s1, t);
    assert OnlyMutation(s1, s', t, Mutation(d, Unlocked));
    LeaveRuns(s, t);
    UnlockRuns(s1, t);
    TwoRuns(s, [LeaveOperation(t)], [Unlock(t)], s1, s');
  }

  /** The last step leaves nothing of the mutation, and lets the device go. */
  lemma MutationEnds(s: State, t: Ticket, d: DeviceId) returns (s': State)
    requires Inv(s) && !s.gate.stopping && t in s.mutations && s.mutations[t] == Mutation(d, Unlocked)
    ensures Run(s, [EndsMutation(t)]) == s' && Inv(s') && s'.mutations == s.mutations - {t}
    ensures s'.credentials == s.credentials && s'.registry == s.registry && s'.connections == s.connections
    ensures s'.handshakes == s.handshakes
    ensures MutationsOn(s.mutations, d) == {t} ==> Count(s'.gate.mutations, d) == 0
  {
    s' := EndMutationStep(s, t);
    EndMutationKeeps(s, t);
    EndsRuns(s, t);
    if MutationsOn(s.mutations, d) == {t} {
      assert MutationsOn(s'.mutations, d) == MutationsOn(s.mutations, d) - {t} == {};
      assert CountsExactOn(s'.gate, s'.mutations, s'.handshakes, d);
    }
  }

  lemma MutationReachesOperation(s: State, t: Ticket, d: DeviceId) returns (es: seq<Event>, s': State)
    requires Inv(s) && !s.gate.stopping && t !in s.mutations
    requires MutationsOn(s.mutations, d) == {} && LeasesOn(s.handshakes, d) == {}
    ensures Run(s, es) == s' && Inv(s') && OnlyMutation(s, s', t, Mutation(d, Operating(None)))
  {
    var s1 := MutationBegins(s, t, d);
    s' := MutationEnters(s1, t, d);
    es := [BeginsMutation(t, d)] + ([Acquire(t)] + [EnterOperation(t)]);
    TwoRuns(s, [BeginsMutation(t, d)], [Acquire(t)] + [EnterOperation(t)], s1, s');
  }

  lemma MutationLeaves(s: State, t: Ticket, d: DeviceId) returns (es: seq<Event>, s': State)
    requires Inv(s) && !s.gate.stopping && t in s.mutations && s.mutations[t] == Mutation(d, Operating(None))
    requires AuthenticationsOn(s.handshakes, d) == {} && MutationsOn(s.mutations, d) == {t}
    ensures Run(s, es) == s' && s'.mutations == s.mutations - {t} && Count(s'.gate.mutations, d) == 0
    ensures s'.credentials == s.credentials && s'.registry == s.registry && s'.connections == s.connections
    ensures s'.handshakes == s.handshakes
  {
    var s1 := MutationUnlocks(s, t, d);
    AloneOnDevice(s.mutations - {t}, t, d, s1.mutations);
    s' := MutationEnds(s1, t, d);
    assert s1.mutations - {t} == s.mutations - {t};
    es := ([LeaveOperation(t)] + [Unlock(t)]) + [EndsMutation(t)];
    TwoRuns(s, [LeaveOperation(t)] + [Unlock(t)], [EndsMutation(t)], s1, s');
  }

  /**
   * Undisturbed, a mutation performs exactly its repository call, the session of a generation it
   * replaced is evicted and closing, and the device is free for the next one.
   */
  lemma MutationCompletes(s: State, t: Ticket, op: Op) returns (es: seq<Event>)
    requires Inv(s) && FinalizedAreClosed(s.connections) && !s.gate.stopping && t !in s.mutations
    requires MutationsOn(s.mutations, op.device) == {} && LeasesOn(s.handshakes, op.device) == {}
    requires AuthenticationsOn(s.handshakes, op.device) == {}
    ensures
      var s' := Run(s, es);
      Mutated(s, s', op) && s'.mutations == s.mutations && Count(s'.gate.mutations, op.device) == 0
  {
    var d := op.device;
    var entering, s3 := MutationReachesOperation(s, t, d);
    var s5 := OperationCommits(s3, t, op);
    AloneOnDevice(s.mutations, t, d, s5.mutations);
    var leaving, s8 := MutationLeaves(s5, t, d);
    var committing := [Commit(t, op)] + [EvictCommitted(t)];
    assert s8.mutations == s.mutations;
    TwoRuns(s, entering, committing, s3, s5);
    TwoRuns(s, entering + committing, leaving, s5, s8);
    es := entering + committing + leaving;
  }

  lemma AloneOnDevice(ms: Mutations, t: Ticket, d: DeviceId, ms': Mutations)
    requires MutationsOn(ms, d) == {} && t !in ms && t in ms' && ms'[t].device == d
    requires ms' == ms[t := ms'[t]]
    ensures MutationsOn(ms', d) == {t}
  {
    forall u ensures u in MutationsOn(ms', d) <==> u == t {
      assert u !in MutationsOn(ms, d);
    }
  }

  /** Every registered session was acknowledged, on its connection and for its generation. */
  ghost predicate RegisteredWereAcknowledged(reg: Registry, acks: seq<Ack>) {
    forall d <- reg :: exists i :: 0 <= i < |acks| && Acknowledges(acks[i], d, reg[d])
  }

  predicate Acknowledges(a: Ack, d: DeviceId, r: Registration) {
    a.connection == r.connection && a.device == d && a.generation == r.generation && a.struck == r.struck
  }

  lemma CommitRegistersAcknowledged(s: State, h: HandshakeId, ackSent: bool, bound: bool)
    requires RegisteredWereAcknowledged(s.registry, s.acks)
    ensures
      var s' := CommitReadyStep(s, h, ackSent, bound);
      RegisteredWereAcknowledged(s'.registry, s'.acks)
  {
    var s' := CommitReadyStep(s, h, ackSent, bound);
    CommitReadyAcks(s, h, ackSent, bound);
    forall d <- s'.registry
      ensures exists i :: 0 <= i < |s'.acks| && Acknowledges(s'.acks[i], d, s'.registry[d])
    {
      if d in s.registry && s'.registry[d] == s.registry[d] {
        var i :| 0 <= i < |s.acks| && Acknowledges(s.acks[i], d, s.registry[d]);
        assert s'.acks[i] == s.acks[i];
      } else {
        assert Acknowledges(s'.acks[|s.acks|], d, s'.registry[d]);
      }
    }
  }

  lemma OthersOnlyForget(s: State, e: Event)
    requires !e.CommitReady?
    ensures forall d <- Step(s, e).registry :: d in s.registry && Step(s, e).registry[d] == s.registry[d]
  {
    if HandshakeEvent(e) {
      match e
      case Hello(h, c, d, digest) => if h !in s.handshakes && StillHandshaking(s, c) { }
      case FinishAuthentication(h) => if h in s.handshakes && s.handshakes[h].phase.Verified? { }
      case BeginReady(h) => if h in s.handshakes && s.handshakes[h].phase.Authenticated? { }
      case VerifyCredential(h) => if h in s.handshakes && s.handshakes[h].phase.Verifying? { }
      case ValidateReady(h) => if h in s.handshakes && s.handshakes[h].phase.Leased? { }
    }
  }

  lemma {:induction false} RegistrationsComeFromAcks(s: State, es: seq<Event>)
    requires RegisteredWereAcknowledged(s.registry, s.acks)
    ensures RegisteredWereAcknowledged(Run(s, es).registry, Run(s, es).acks)
    decreases |es|
  {
    if es != [] {
      var e := es[0];
      if e.CommitReady? {
        CommitRegistersAcknowledged(s, e.handshake, e.ackSent, e.bound);
      } else {
        OthersOnlyForget(s, e);
        AcksOnlyByCommit(s, e);
      }
      RegistrationsComeFromAcks(Step(s, e), es[1..]);
    }
  }
}
