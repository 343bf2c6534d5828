/**
 * The server runtime as a step system: unboundedly many gateway handshakes, credential
 * mutations, closing connections and server stop, one step per stretch of code between
 * awaits. An event that is not possible in a state leaves the state unchanged, so every
 * sequence of events is a run.
 */
module ServerRuntime {
  import opened Wrappers
  import opened DeviceCredential
  import opened DeviceCredentialLifecycle
  import opened SessionGate

  type HandshakeId = nat
  type ConnectionId = nat

  /** Progress of runCredentialLifecycleOperation. */
  datatype MutationPhase =
    | InLine
    | AwaitingLeases
    | Operating(evict: Option<Generation>)   // a generation committed away, not yet evicted
    | AwaitingAuthentications
    | Unlocked

  datatype Mutation = Mutation(device: DeviceId, phase: MutationPhase)

  /** Progress of one bridge.hello frame. */
  datatype HandshakePhase =
    | Verifying
    | Verified(ok: bool)
    | Authenticated
    | Leased
    | Validated(generation: Option<Generation>)

  /**
   * `struck` is history: a call outside the lifecycle operation has rotated or revoked the
   * generation that this handshake was validated for.
   */
  datatype Handshake = Handshake(
    connection: ConnectionId,
    device: DeviceId,
    digest: Digest,
    phase: HandshakePhase,
    struck: bool)

  datatype ConnectionState = Handshaking | Ready | Closing | Closed

  datatype Connection = Connection(
    state: ConnectionState,
    finalized: bool,
    session: Option<DeviceId>)

  datatype Registration = Registration(generation: Generation, connection: ConnectionId, struck: bool)

  /** A bridge.hello.ack as sent, with the generation active at that instant. */
  datatype Ack = Ack(
    connection: ConnectionId,
    device: DeviceId,
    generation: Generation,
    activeThen: Option<Generation>,
    struck: bool)

  /** A generation that a call outside the lifecycle operation has committed away and not yet evicted. */
  datatype Stray = Stray(device: DeviceId, generation: Generation)

  type Mutations = map<Ticket, Mutation>
  type Handshakes = map<HandshakeId, Handshake>
  type Connections = map<ConnectionId, Connection>
  type Registry = map<DeviceId, Registration>

  datatype State = State(
    gate: Gate,
    credentials: Store,
    mutations: Mutations,
    lines: Lines,
    handshakes: Handshakes,
    connections: Connections,
    registry: Registry,
    acks: seq<Ack>,
    strays: set<Stray>)

  const INITIAL := State(OPEN_GATE, EMPTY_STORE, map[], map[], map[], map[], map[], [], {})

  datatype Event =
    | Open(connection: ConnectionId)
    | Hello(handshake: HandshakeId, connection: ConnectionId, device: DeviceId, digest: Digest)
    | VerifyCredential(handshake: HandshakeId)
    | FinishAuthentication(handshake: HandshakeId)
    | BeginReady(handshake: HandshakeId)
    | ValidateReady(handshake: HandshakeId)
    | CommitReady(handshake: HandshakeId, ackSent: bool, bound: bool)
    | BeginsMutation(ticket: Ticket, device: DeviceId)
    | Acquire(ticket: Ticket)
    | EnterOperation(ticket: Ticket)
    | Commit(ticket: Ticket, op: Op)
    | EvictCommitted(ticket: Ticket)
    | LeaveOperation(ticket: Ticket)
    | Unlock(ticket: Ticket)
    | EndsMutation(ticket: Ticket)
    | OutsideCommit(op: Op)
    | OutsideEvict(device: DeviceId, generation: Generation)
    | Invalidate(device: DeviceId, generation: Generation)
    | EvictSession(connection: ConnectionId)
    | Close(connection: ConnectionId)
    | Finalize(connection: ConnectionId)
    | BeginStop
    | EndStop

  // --- Steps of a handshake ------------------------------------------------------------

  /** failConnection / closeConnection: a no-op once closing, closed or finalized. */
  function CloseConnection(cs: Connections, c: ConnectionId): Connections
  {
    if c in cs && !cs[c].finalized && (cs[c].state.Handshaking? || cs[c].state.Ready?)
    then cs[c := cs[c].(state := Closing)] else cs
  }

  function WithPhase(s: State, h: HandshakeId, p: HandshakePhase): State
    requires h in s.handshakes
  {
    s.(handshakes := s.handshakes[h := s.handshakes[h].(phase := p)])
  }

  function FailHandshake(s: State, h: HandshakeId): State
    requires h in s.handshakes
  {
    s.(handshakes := s.handshakes - {h},
       connections := CloseConnection(s.connections, s.handshakes[h].connection))
  }

  predicate StillHandshaking(s: State, c: ConnectionId) {
    c in s.connections && !s.connections[c].finalized && s.connections[c].state.Handshaking?
  }

  function HelloStep(s: State, h: HandshakeId, c: ConnectionId, d: DeviceId, digest: Digest): State {
    if h in s.handshakes || !StillHandshaking(s, c) then s
    else if s.gate.stopping || MutationActive(s.gate, d) then
      s.(connections := CloseConnection(s.connections, c))
    else
      s.(gate := CountAuthentication(s.gate, d),
         handshakes := s.handshakes[h := Handshake(c, d, digest, Verifying, false)])
  }

  function VerifyCredentialStep(s: State, h: HandshakeId): State {
    if h !in s.handshakes || !s.handshakes[h].phase.Verifying? then s
    else
      var k := s.handshakes[h];
      WithPhase(s, h, Verified(Verify(s.credentials, k.device, k.digest).Some?))
  }

  function FinishAuthenticationStep(s: State, h: HandshakeId): State {
    if h !in s.handshakes || !s.handshakes[h].phase.Verified? then s
    else
      var k := s.handshakes[h];
      var ended := s.(gate := UncountAuthentication(s.gate, k.device));
      if k.phase.ok && !s.gate.stopping && !MutationActive(s.gate, k.device)
      then WithPhase(ended, h, Authenticated)
      else FailHandshake(ended, h)
  }

  function BeginReadyStep(s: State, h: HandshakeId): State {
    if h !in s.handshakes || !s.handshakes[h].phase.Authenticated? then s
    else
      var k := s.handshakes[h];
      if !StillHandshaking(s, k.connection) then s.(handshakes := s.handshakes - {h})
      else if s.gate.stopping || MutationActive(s.gate, k.device) then FailHandshake(s, h)
      else WithPhase(s.(gate := TakeLease(s.gate, k.device)), h, Leased)
  }

  function ValidateReadyStep(s: State, h: HandshakeId): State {
    if h !in s.handshakes || !s.handshakes[h].phase.Leased? then s
    else
      var k := s.handshakes[h];
      var found := Verify(s.credentials, k.device, k.digest);
      WithPhase(s, h, Validated(match found case Some(c) => Some(GenerationOf(c)) case None => None))
  }

  /** The session becomes ready, the acknowledgement leaves, and the session is registered. */
  function CommitReadyStep(s: State, h: HandshakeId, ackSent: bool, bound: bool): State {
    if h !in s.handshakes || !s.handshakes[h].phase.Validated? then s
    else
      var k := s.handshakes[h];
      var c := k.connection;
      var released := s.(gate := ReleaseLease(s.gate, k.device));
      if k.phase.generation.None? then FailHandshake(released, h)
      else if !StillHandshaking(s, c) then released.(handshakes := s.handshakes - {h})
      else
        var ready := released.(
          handshakes := s.handshakes - {h},
          connections := s.connections[c := Connection(Ready, false, Some(k.device))]);
        if !ackSent then ready.(connections := CloseConnection(ready.connections, c))
        else
          var acked := ready.(acks := s.acks + [
            Ack(c, k.device, k.phase.generation.value, ActiveGeneration(s.credentials, k.device), k.struck)]);
          if !bound then acked.(connections := CloseConnection(acked.connections, c))
          else
            acked.(
              registry := s.registry[k.device := Registration(k.phase.generation.value, c, k.struck)],
              connections := if k.device in s.registry
                             then CloseConnection(acked.connections, s.registry[k.device].connection)
                             else acked.connections)
  }

  // --- Steps of a credential mutation -----------------------------------------------------

  function WithMutationPhase(s: State, t: Ticket, p: MutationPhase): State
    requires t in s.mutations
  {
    s.(mutations := s.mutations[t := s.mutations[t].(phase := p)])
  }

  function BeginMutationStep(s: State, t: Ticket, d: DeviceId): State {
    if t in s.mutations || s.gate.stopping then s
    else
      s.(gate := BeginMutation(s.gate, d),
         mutations := s.mutations[t := Mutation(d, InLine)],
         lines := Join(s.lines, d, t))
  }

  /** Ticket t is first in line for its device. */
  predicate Heads(lines: Lines, ms: Mutations, t: Ticket) {
    t in ms && LineOf(lines, ms[t].device) != [] && LineOf(lines, ms[t].device)[0] == t
  }

  function AcquireStep(s: State, t: Ticket): State {
    if !Heads(s.lines, s.mutations, t) || !s.mutations[t].phase.InLine? then s
    else WithMutationPhase(s.(gate := AwaitLeases(s.gate, s.mutations[t].device, t)), t, AwaitingLeases)
  }

  function LeaveOperationOf(s: State, t: Ticket): State
    requires t in s.mutations
  {
    WithMutationPhase(s.(gate := AwaitAuthentications(s.gate, s.mutations[t].device, t)),
                      t, AwaitingAuthentications)
  }

  function EnterOperationStep(s: State, t: Ticket): State {
    if t !in s.mutations || !s.mutations[t].phase.AwaitingLeases?
      || t in WaitersOf(s.gate.readyWaiters, s.mutations[t].device) then s
    else if s.gate.stopping then LeaveOperationOf(s, t)
    else WithMutationPhase(s, t, Operating(None))
  }

  /** A repository call of the running operation; a replaced generation must then be evicted. */
  function CommitStep(s: State, t: Ticket, op: Op): State {
    if t !in s.mutations || s.mutations[t].phase != Operating(None) || op.device != s.mutations[t].device then s
    else
      var (store, r) := Apply(s.credentials, op);
      WithMutationPhase(s.(credentials := store), t,
        Operating(if r.Issued? && !op.Issue? then ActiveGeneration(s.credentials, op.device) else None))
  }

  function EvictGeneration(s: State, d: DeviceId, g: Generation): State {
    if d in s.registry && s.registry[d].generation == g then
      s.(registry := s.registry - {d},
         connections := CloseConnection(s.connections, s.registry[d].connection))
    else s
  }

  function EvictCommittedStep(s: State, t: Ticket): State {
    if t !in s.mutations || !s.mutations[t].phase.Operating? || s.mutations[t].phase.evict.None? then s
    else
      WithMutationPhase(EvictGeneration(s, s.mutations[t].device, s.mutations[t].phase.evict.value),
                        t, Operating(None))
  }

  function LeaveOperationStep(s: State, t: Ticket): State {
    if t !in s.mutations || s.mutations[t].phase != Operating(None) then s else LeaveOperationOf(s, t)
  }

  function UnlockStep(s: State, t: Ticket): State {
    if t !in s.mutations || !s.mutations[t].phase.AwaitingAuthentications?
      || t in WaitersOf(s.gate.authWaiters, s.mutations[t].device) then s
    else WithMutationPhase(s.(lines := Leave(s.lines, s.mutations[t].device)), t, Unlocked)
  }

  function EndMutationStep(s: State, t: Ticket): State {
    if t !in s.mutations || !s.mutations[t].phase.Unlocked? then s
    else
      s.(gate := EndMutation(s.gate, s.mutations[t].device), mutations := s.mutations - {t})
  }

  // --- Calls outside the lifecycle operation ---------------------------------------------------

  /** Validated handshakes of the device now hold a generation that is gone. */
  function Struck(hs: Handshakes, d: DeviceId): Handshakes {
    map h | h in hs ::
      if hs[h].device == d && hs[h].phase.Validated? && hs[h].phase.generation.Some?
      then hs[h].(struck := true) else hs[h]
  }

  /** The repository call of resumeClaimedPairing when its device lookup found nothing. */
  function OutsideCommitStep(s: State, op: Op): State {
    var (store, r) := Apply(s.credentials, op);
    if !r.Issued? || op.Issue? then s.(credentials := store)
    else
      s.(credentials := store,
         handshakes := Struck(s.handshakes, op.device),
         strays := s.strays + {Stray(op.device, ActiveGeneration(s.credentials, op.device).value)})
  }

  /** Such a call evicts the generation it replaced, too, but only after the commit. */
  function OutsideEvictStep(s: State, d: DeviceId, g: Generation): State {
    if Stray(d, g) !in s.strays then s
    else EvictGeneration(s, d, g).(strays := s.strays - {Stray(d, g)})
  }

  // --- Sessions that end, and server stop ----------------------------------------------------

  /** evictSession: drops the registration of this connection's session, if it is current. */
  function EvictSessionStep(s: State, c: ConnectionId): State {
    s.(registry := map d | d in s.registry && s.registry[d].connection != c :: s.registry[d])
  }

  function FinalizeStep(s: State, c: ConnectionId): State {
    if c !in s.connections then s
    else
      EvictSessionStep(s, c).(
        connections := s.connections[c := s.connections[c].(state := Closed, finalized := true)])
  }

  function Step(s: State, e: Event): State {
    match e
    case Open(c) =>
      if c in s.connections then s
      else s.(connections := s.connections[c := Connection(Handshaking, false, None)])
    case Hello(h, c, d, digest) => HelloStep(s, h, c, d, digest)
    case VerifyCredential(h) => VerifyCredentialStep(s, h)
    case FinishAuthentication(h) => FinishAuthenticationStep(s, h)
    case BeginReady(h) => BeginReadyStep(s, h)
    case ValidateReady(h) => ValidateReadyStep(s, h)
    case CommitReady(h, ackSent, bound) => CommitReadyStep(s, h, ackSent, bound)
    case BeginsMutation(t, d) => BeginMutationStep(s, t, d)
    case Acquire(t) => AcquireStep(s, t)
    case EnterOperation(t) => EnterOperationStep(s, t)
    case Commit(t, op) => CommitStep(s, t, op)
    case EvictCommitted(t) => EvictCommittedStep(s, t)
    case LeaveOperation(t) => LeaveOperationStep(s, t)
    case Unlock(t) => UnlockStep(s, t)
    case EndsMutation(t) => EndMutationStep(s, t)
    case OutsideCommit(op) => OutsideCommitStep(s, op)
    case OutsideEvict(d, g) => OutsideEvictStep(s, d, g)
    case Invalidate(d, g) => EvictGeneration(s, d, g)
    case EvictSession(c) => EvictSessionStep(s, c)
    case Close(c) => s.(connections := CloseConnection(s.connections, c))
    case Finalize(c) => FinalizeStep(s, c)
    case BeginStop => s.(gate := StopGate(s.gate))
    case EndStop => if s.gate.stopping then s.(gate := ClearGate(s.gate), registry := map[]) else s
  }

  function Run(s: State, es: seq<Event>): State
    decreases |es|
  {
    if es == [] then s else Run(Step(s, es[0]), es[1..])
  }
}
