/**
 * The inductive invariant of the server runtime, in parts that each speak of a few fields,
 * and its preservation by every step.
 */
module ServerRuntimeInvariant {
  import opened Wrappers
  import opened DeviceCredential
  import opened DeviceCredentialLifecycle
  import opened SessionGate
  import opened ServerRuntime

  // --- Invariant: each part speaks of the fields it needs only ---------------------------------

  predicate InAuthentication(k: Handshake) {
    k.phase.Verifying? || k.phase.Verified?
  }

  predicate HoldsLease(k: Handshake) {
    k.phase.Leased? || k.phase.Validated?
  }

  function MutationsOn(ms: Mutations, d: DeviceId): set<Ticket> {
    set t | t in ms && ms[t].device == d
  }

  function AuthenticationsOn(hs: Handshakes, d: DeviceId): set<HandshakeId> {
    set h | h in hs && hs[h].device == d && InAuthentication(hs[h])
  }

  function LeasesOn(hs: Handshakes, d: DeviceId): set<HandshakeId> {
    set h | h in hs && hs[h].device == d && HoldsLease(hs[h])
  }

  /** Every counter is the number of its holders, so each lease is released exactly once. */
  ghost predicate CountsExact(g: Gate, ms: Mutations, hs: Handshakes) {
    !g.stopping ==> forall d: DeviceId :: CountsExactOn(g, ms, hs, d)
  }

  ghost predicate CountsExactOn(g: Gate, ms: Mutations, hs: Handshakes, d: DeviceId) {
    && Count(g.mutations, d) == |MutationsOn(ms, d)|
    && Count(g.authentications, d) == |AuthenticationsOn(hs, d)|
    && Count(g.ready, d) == |LeasesOn(hs, d)|
  }

  /** A line holds exactly the mutations that have not released the lock; only its head has it. */
  ghost predicate LinesExact(lines: Lines, ms: Mutations) {
    forall d: DeviceId :: LineExact(LineOf(lines, d), ms, d)
  }

  ghost predicate LineExact(line: seq<Ticket>, ms: Mutations, d: DeviceId) {
    && (forall t <- line :: t in ms && ms[t].device == d && !ms[t].phase.Unlocked?)
    && (forall t <- ms | ms[t].device == d && !ms[t].phase.Unlocked? :: t in line)
    && (forall i | 0 < i < |line| :: line[i] in ms && ms[line[i]].phase.InLine?)
    && (forall i, j | 0 <= i < j < |line| :: line[i] != line[j])
  }

  /** Waiting, drained and finished phases say what they should about the other side. */
  ghost predicate DrainsSound(g: Gate, ms: Mutations, hs: Handshakes) {
    && (forall t <- ms :: DrainSound(g, hs, t, ms[t]))
    && WaitersInPhase(g.readyWaiters, ms, AwaitingLeases)
    && WaitersInPhase(g.authWaiters, ms, AwaitingAuthentications)
    && (g.stopping ==> g.readyWaiters == map[] && g.authWaiters == map[])
  }

  ghost predicate WaitersInPhase(w: Waiters, ms: Mutations, p: MutationPhase) {
    forall d: DeviceId, t | t in WaitersOf(w, d) :: t in ms && ms[t] == Mutation(d, p)
  }

  ghost predicate DrainSound(g: Gate, hs: Handshakes, t: Ticket, m: Mutation) {
    match m.phase
    case InLine => true
    case AwaitingLeases =>
      g.stopping || (t in WaitersOf(g.readyWaiters, m.device) <==> LeasesOn(hs, m.device) != {})
    case Operating(_) => LeasesOn(hs, m.device) == {}
    case AwaitingAuthentications =>
      g.stopping || (t in WaitersOf(g.authWaiters, m.device) <==> AuthenticationsOn(hs, m.device) != {})
    case Unlocked => g.stopping || AuthenticationsOn(hs, m.device) == {}
  }

  /** A generation that is not active and never will be again, since its id is used up. */
  predicate Superseded(store: Store, d: DeviceId, g: Generation) {
    g.credentialId in store.used && ActiveGeneration(store, d) != Some(g)
  }

  /** A validated handshake carries the active generation, or was struck and carries a dead one. */
  ghost predicate ValidatedCurrent(store: Store, hs: Handshakes) {
    forall h <- hs :: HandshakeCurrent(store, hs[h])
  }

  predicate HandshakeCurrent(store: Store, k: Handshake) {
    if k.phase.Validated? && k.phase.generation.Some? then
      if k.struck then Superseded(store, k.device, k.phase.generation.value)
      else ActiveGeneration(store, k.device) == k.phase.generation
    else !k.struck
  }

  ghost predicate PendingEviction(ms: Mutations, d: DeviceId, g: Generation) {
    exists t <- ms :: ms[t] == Mutation(d, Operating(Some(g)))
  }

  /**
   * A registration carries the active generation, or one that a mutation or an outside call is
   * about to evict; that of a struck handshake carries a dead one.
   */
  ghost predicate RegistryCurrent(store: Store, ms: Mutations, strays: set<Stray>, reg: Registry) {
    forall d <- reg :: RegistrationCurrent(store, ms, strays, d, reg[d])
  }

  ghost predicate RegistrationCurrent(store: Store, ms: Mutations, strays: set<Stray>, d: DeviceId, r: Registration) {
    if r.struck then Superseded(store, d, r.generation)
    else
      || ActiveGeneration(store, d) == Some(r.generation)
      || PendingEviction(ms, d, r.generation)
      || Stray(d, r.generation) in strays
  }

  /** Registered sessions belong to connections that made them and are not finalized. */
  ghost predicate RegistryOpen(cs: Connections, reg: Registry) {
    && (forall d <- reg ::
          && reg[d].connection in cs && !cs[reg[d].connection].finalized
          && cs[reg[d].connection].session == Some(d))
    && (forall c <- cs | cs[c].session.Some? :: !cs[c].state.Handshaking?)
  }

  /** Acknowledgements carried the generation active when sent unless struck, at most one per connection. */
  ghost predicate AcksSound(cs: Connections, acks: seq<Ack>) {
    && (forall i | 0 <= i < |acks| ::
          && (acks[i].activeThen == Some(acks[i].generation) <==> !acks[i].struck)
          && acks[i].connection in cs && cs[acks[i].connection].session == Some(acks[i].device))
    && (forall i, j | 0 <= i < j < |acks| :: acks[i].connection != acks[j].connection)
    && (forall c <- cs | cs[c].session.Some? :: !cs[c].state.Handshaking?)
  }

  ghost predicate Inv(s: State) {
    && Valid(s.credentials)
    && CountsExact(s.gate, s.mutations, s.handshakes)
    && LinesExact(s.lines, s.mutations)
    && DrainsSound(s.gate, s.mutations, s.handshakes)
    && ValidatedCurrent(s.credentials, s.handshakes)
    && RegistryCurrent(s.credentials, s.mutations, s.strays, s.registry)
    && RegistryOpen(s.connections, s.registry)
    && AcksSound(s.connections, s.acks)
  }

  // --- Counters --------------------------------------------------------------------------------

  function One(b: bool): nat {
    if b then 1 else 0
  }

  lemma CountAfterIncrement(m: Counts, d: DeviceId, e: DeviceId)
    ensures Count(Increment(m, d), e) == Count(m, e) + One(d == e)
  {
  }

  lemma CountAfterDecrement(m: Counts, d: DeviceId, e: DeviceId)
    requires Count(m, d) > 0
    ensures Count(Decrement(m, d), e) == Count(m, e) - One(d == e)
  {
  }

  predicate Authenticates(k: Handshake, d: DeviceId) {
    k.device == d && InAuthentication(k)
  }

  predicate Leases(k: Handshake, d: DeviceId) {
    k.device == d && HoldsLease(k)
  }

  /** Two sets that differ in x only differ in size by x only. */
  lemma SizeByMembership(a: set<nat>, b: set<nat>, x: nat)
    requires a - {x} == b - {x}
    ensures |a| + One(x in b) == |b| + One(x in a)
  {
    assert |a - {x}| == |a| - One(x in a) && |b - {x}| == |b| - One(x in b);
  }

  /** The holder sets after handshake h moved to a phase, in cardinalities. */
  lemma HoldersAfterMove(hs: Handshakes, h: HandshakeId, k: Handshake, d: DeviceId)
    ensures |AuthenticationsOn(hs[h := k], d)| + One(h in hs && Authenticates(hs[h], d))
         == |AuthenticationsOn(hs, d)| + One(Authenticates(k, d))
    ensures |LeasesOn(hs[h := k], d)| + One(h in hs && Leases(hs[h], d))
         == |LeasesOn(hs, d)| + One(Leases(k, d))
  {
    SizeByMembership(AuthenticationsOn(hs[h := k], d), AuthenticationsOn(hs, d), h);
    SizeByMembership(LeasesOn(hs[h := k], d), LeasesOn(hs, d), h);
  }

  lemma HoldersAfterEnd(hs: Handshakes, h: HandshakeId, d: DeviceId)
    requires h in hs
    ensures |AuthenticationsOn(hs - {h}, d)| + One(Authenticates(hs[h], d)) == |AuthenticationsOn(hs, d)|
    ensures |LeasesOn(hs - {h}, d)| + One(Leases(hs[h], d)) == |LeasesOn(hs, d)|
  {
    SizeByMembership(AuthenticationsOn(hs - {h}, d), AuthenticationsOn(hs, d), h);
    SizeByMembership(LeasesOn(hs - {h}, d), LeasesOn(hs, d), h);
  }

  lemma AuthenticationCounted(g: Gate, ms: Mutations, hs: Handshakes, h: HandshakeId, k: Handshake)
    requires CountsExact(g, ms, hs) && h !in hs && InAuthentication(k)
    ensures CountsExact(CountAuthentication(g, k.device), ms, hs[h := k])
  {
    var g' := CountAuthentication(g, k.device);
    var hs' := hs[h := k];
    if !g.stopping {
      forall d: DeviceId
        ensures CountsExactOn(g', ms, hs', d)
      {
        assert CountsExactOn(g, ms, hs, d);
        HoldersAfterMove(hs, h, k, d);
        CountAfterIncrement(g.authentications, k.device, d);
      }
    }
  }

  lemma LeaseCounted(g: Gate, ms: Mutations, hs: Handshakes, h: HandshakeId, k: Handshake)
    requires CountsExact(g, ms, hs) && h in hs && !HoldsLease(hs[h]) && !InAuthentication(hs[h])
    requires HoldsLease(k) && k.device == hs[h].device
    ensures CountsExact(TakeLease(g, k.device), ms, hs[h := k])
  {
    var g' := TakeLease(g, k.device);
    var hs' := hs[h := k];
    if !g.stopping {
      forall d: DeviceId
        ensures CountsExactOn(g', ms, hs', d)
      {
        assert CountsExactOn(g, ms, hs, d);
        HoldersAfterMove(hs, h, k, d);
        CountAfterIncrement(g.ready, k.device, d);
      }
    }
  }

  /** A phase change that neither takes nor gives up anything. */
  lemma PhaseUncounted(g: Gate, ms: Mutations, hs: Handshakes, h: HandshakeId, k: Handshake)
    requires CountsExact(g, ms, hs) && h in hs && k.device == hs[h].device
    requires InAuthentication(k) == InAuthentication(hs[h]) && HoldsLease(k) == HoldsLease(hs[h])
    ensures CountsExact(g, ms, hs[h := k])
  {
    var hs' := hs[h := k];
    if !g.stopping {
      forall d: DeviceId
        ensures CountsExactOn(g, ms, hs', d)
      {
        assert CountsExactOn(g, ms, hs, d);
        HoldersAfterMove(hs, h, k, d);
      }
    }
  }

  lemma HolderCounted(g: Gate, ms: Mutations, hs: Handshakes, h: HandshakeId)
    requires CountsExact(g, ms, hs) && !g.stopping && h in hs
    ensures InAuthentication(hs[h]) ==> Count(g.authentications, hs[h].device) > 0
    ensures HoldsLease(hs[h]) ==> Count(g.ready, hs[h].device) > 0
  {
    assert CountsExactOn(g, ms, hs, hs[h].device);
    assert InAuthentication(hs[h]) ==> h in AuthenticationsOn(hs, hs[h].device);
    assert HoldsLease(hs[h]) ==> h in LeasesOn(hs, hs[h].device);
  }

  /** The handshake leaves authentication: it ends, or goes on authenticated. */
  lemma AuthenticationUncounted(g: Gate, ms: Mutations, hs: Handshakes, hs': Handshakes, h: HandshakeId)
    requires CountsExact(g, ms, hs) && h in hs && InAuthentication(hs[h])
    requires hs' == hs - {h} || hs' == hs[h := hs[h].(phase := Authenticated)]
    ensures CountsExact(UncountAuthentication(g, hs[h].device), ms, hs')
  {
    var g' := UncountAuthentication(g, hs[h].device);
    if !g.stopping {
      forall d: DeviceId
        ensures CountsExactOn(g', ms, hs', d)
      {
        assert CountsExactOn(g, ms, hs, d);
        HolderCounted(g, ms, hs, h);
        HoldersAfterMove(hs, h, hs[h].(phase := Authenticated), d);
        HoldersAfterEnd(hs, h, d);
        CountAfterDecrement(g.authentications, hs[h].device, d);
      }
    }
  }

  lemma LeaseUncounted(g: Gate, ms: Mutations, hs: Handshakes, h: HandshakeId)
    requires CountsExact(g, ms, hs) && h in hs && HoldsLease(hs[h])
    ensures CountsExact(ReleaseLease(g, hs[h].device), ms, hs - {h})
  {
    var g' := ReleaseLease(g, hs[h].device);
    var hs' := hs - {h};
    if !g.stopping {
      forall d: DeviceId
        ensures CountsExactOn(g', ms, hs', d)
      {
        assert CountsExactOn(g, ms, hs, d);
        HolderCounted(g, ms, hs, h);
        HoldersAfterEnd(hs, h, d);
        CountAfterDecrement(g.ready, hs[h].device, d);
      }
    }
  }

  lemma DroppedUncounted(g: Gate, ms: Mutations, hs: Handshakes, h: HandshakeId)
    requires CountsExact(g, ms, hs) && h in hs && !HoldsLease(hs[h]) && !InAuthentication(hs[h])
    ensures CountsExact(g, ms, hs - {h})
  {
    var hs' := hs - {h};
    if !g.stopping {
      forall d: DeviceId
        ensures CountsExactOn(g, ms, hs', d)
      {
        assert CountsExactOn(g, ms, hs, d);
        HoldersAfterEnd(hs, h, d);
      }
    }
  }

  lemma MutationCounted(g: Gate, ms: Mutations, hs: Handshakes, t: Ticket, m: Mutation)
    requires CountsExact(g, ms, hs) && t !in ms
    ensures CountsExact(BeginMutation(g, m.device), ms[t := m], hs)
  {
    var g' := BeginMutation(g, m.device);
    var ms' := ms[t := m];
    if !g.stopping {
      forall d: DeviceId
        ensures CountsExactOn(g', ms', hs, d)
      {
        assert CountsExactOn(g, ms, hs, d);
        SizeByMembership(MutationsOn(ms[t := m], d), MutationsOn(ms, d), t);
        CountAfterIncrement(g.mutations, m.device, d);
      }
    }
  }

  lemma MutationUncounted(g: Gate, ms: Mutations, hs: Handshakes, t: Ticket)
    requires CountsExact(g, ms, hs) && t in ms
    ensures CountsExact(EndMutation(g, ms[t].device), ms - {t}, hs)
  {
    var g' := EndMutation(g, ms[t].device);
    var ms' := ms - {t};
    if !g.stopping {
      forall d: DeviceId
        ensures CountsExactOn(g', ms', hs, d)
      {
        assert CountsExactOn(g, ms, hs, d) && CountsExactOn(g, ms, hs, ms[t].device);
        SizeByMembership(MutationsOn(ms - {t}, d), MutationsOn(ms, d), t);
        assert t in MutationsOn(ms, ms[t].device);
        CountAfterDecrement(g.mutations, ms[t].device, d);
      }
    }
  }

  /** Counting looks at neither the waiters nor the phase of a mutation. */
  lemma MutationPhaseUncounted(g: Gate, g': Gate, ms: Mutations, hs: Handshakes, t: Ticket, p: MutationPhase)
    requires CountsExact(g, ms, hs) && t in ms
    requires g' == g.(readyWaiters := g'.readyWaiters, authWaiters := g'.authWaiters)
    ensures CountsExact(g', ms[t := ms[t].(phase := p)], hs)
  {
    var ms' := ms[t := ms[t].(phase := p)];
    if !g.stopping {
      forall d: DeviceId
        ensures CountsExactOn(g', ms', hs, d)
      {
        assert CountsExactOn(g, ms, hs, d);
        assert MutationsOn(ms', d) == MutationsOn(ms, d);
      }
    }
  }

  // --- Lines -----------------------------------------------------------------------------------

  lemma LineJoined(lines: Lines, ms: Mutations, t: Ticket, d: DeviceId)
    requires LinesExact(lines, ms) && t !in ms
    ensures LinesExact(Join(lines, d, t), ms[t := Mutation(d, InLine)])
  {
    var ms' := ms[t := Mutation(d, InLine)];
    forall e: DeviceId
      ensures LineExact(LineOf(Join(lines, d, t), e), ms', e)
    {
      assert LineExact(LineOf(lines, e), ms, e);
      if e == d {
        var line := LineOf(lines, d);
        assert LineOf(Join(lines, d, t), d) == line + [t];
        assert forall i | 0 <= i < |line| :: line[i] in line;
      }
    }
  }

  /** The head of a line changes phase without giving up the lock. */
  lemma LineKeptByPhase(lines: Lines, ms: Mutations, t: Ticket, p: MutationPhase)
    requires LinesExact(lines, ms) && Heads(lines, ms, t) && !p.Unlocked? && !ms[t].phase.Unlocked?
    ensures LinesExact(lines, ms[t := ms[t].(phase := p)])
  {
    var ms' := ms[t := ms[t].(phase := p)];
    forall e: DeviceId
      ensures LineExact(LineOf(lines, e), ms', e)
    {
      assert LineExact(LineOf(lines, e), ms, e);
    }
  }

  lemma LineLeft(lines: Lines, ms: Mutations, t: Ticket)
    requires LinesExact(lines, ms) && Heads(lines, ms, t)
    ensures LinesExact(Leave(lines, ms[t].device), ms[t := ms[t].(phase := Unlocked)])
  {
    var d := ms[t].device;
    var ms' := ms[t := ms[t].(phase := Unlocked)];
    forall e: DeviceId
      ensures LineExact(LineOf(Leave(lines, d), e), ms', e)
    {
      assert LineExact(LineOf(lines, e), ms, e);
      if e == d {
        assert LineOf(Leave(lines, d), d) == LineOf(lines, d)[1..];
        TailOfLine(LineOf(lines, d), ms, d);
      }
    }
  }

  lemma TailOfLine(line: seq<Ticket>, ms: Mutations, d: DeviceId)
    requires LineExact(line, ms, d) && line != []
    ensures LineExact(line[1..], ms[line[0] := Mutation(d, Unlocked)], d)
  {
    assert forall i | 0 <= i < |line[1..]| :: line[1..][i] == line[i + 1];
    forall t <- ms | t != line[0] && ms[t].device == d && !ms[t].phase.Unlocked?
      ensures t in line[1..]
    {
      var i :| 0 <= i < |line| && line[i] == t;
      assert line[1..][i - 1] == t;
    }
  }

  lemma LineForgets(lines: Lines, ms: Mutations, t: Ticket)
    requires LinesExact(lines, ms) && t in ms && ms[t].phase.Unlocked?
    ensures LinesExact(lines, ms - {t})
  {
    forall e: DeviceId
      ensures LineExact(LineOf(lines, e), ms - {t}, e)
    {
      assert LineExact(LineOf(lines, e), ms, e);
    }
  }

  /** Past the lock and not yet unlocked means first in line. */
  lemma HolderHeads(lines: Lines, ms: Mutations, t: Ticket)
    requires LinesExact(lines, ms) && t in ms && !ms[t].phase.InLine? && !ms[t].phase.Unlocked?
    ensures Heads(lines, ms, t)
  {
    var line := LineOf(lines, ms[t].device);
    assert LineExact(line, ms, ms[t].device);
    var i :| 0 <= i < |line| && line[i] == t;
  }

  // --- Drains ----------------------------------------------------------------------------------

  lemma NoMutationOn(g: Gate, ms: Mutations, hs: Handshakes, d: DeviceId)
    requires CountsExact(g, ms, hs) && !g.stopping && !MutationActive(g, d)
    ensures forall t <- ms :: ms[t].device != d
  {
    assert CountsExactOn(g, ms, hs, d);
    forall t <- ms
      ensures ms[t].device != d
    {
      assert t !in MutationsOn(ms, d);
    }
  }

  /** Handshakes of devices without a mutation, and moves that keep all holder sets, disturb no drain. */
  lemma DrainsUndisturbed(g: Gate, g': Gate, ms: Mutations, hs: Handshakes, hs': Handshakes)
    requires DrainsSound(g, ms, hs)
    requires g'.stopping == g.stopping && g'.readyWaiters == g.readyWaiters && g'.authWaiters == g.authWaiters
    requires forall t <- ms :: AuthenticationsOn(hs', ms[t].device) == AuthenticationsOn(hs, ms[t].device)
    requires forall t <- ms :: LeasesOn(hs', ms[t].device) == LeasesOn(hs, ms[t].device)
    ensures DrainsSound(g', ms, hs')
  {
    forall t <- ms
      ensures DrainSound(g', hs', t, ms[t])
    {
      assert DrainSound(g, hs, t, ms[t]);
    }
  }

  /** Ending the last authentication of d resolves all its waiters; ending another resolves none. */
  lemma WaitersAfterAuthentication(g: Gate, ms: Mutations, hs: Handshakes, hs': Handshakes, h: HandshakeId)
    requires CountsExact(g, ms, hs) && !g.stopping && h in hs && InAuthentication(hs[h])
    requires hs' == hs - {h} || hs' == hs[h := hs[h].(phase := Authenticated)]
    ensures WaitersOf(UncountAuthentication(g, hs[h].device).authWaiters, hs[h].device)
         == if AuthenticationsOn(hs', hs[h].device) == {} then {} else WaitersOf(g.authWaiters, hs[h].device)
  {
    var d := hs[h].device;
    HolderCounted(g, ms, hs, h);
    AuthenticationUncounted(g, ms, hs, hs', h);
    assert CountsExactOn(UncountAuthentication(g, d), ms, hs', d);
  }

  lemma WaitersAfterLease(g: Gate, ms: Mutations, hs: Handshakes, h: HandshakeId)
    requires CountsExact(g, ms, hs) && !g.stopping && h in hs && HoldsLease(hs[h])
    ensures WaitersOf(ReleaseLease(g, hs[h].device).readyWaiters, hs[h].device)
         == if LeasesOn(hs - {h}, hs[h].device) == {} then {} else WaitersOf(g.readyWaiters, hs[h].device)
  {
    var d := hs[h].device;
    HolderCounted(g, ms, hs, h);
    LeaseUncounted(g, ms, hs, h);
    assert CountsExactOn(ReleaseLease(g, d), ms, hs - {h}, d);
  }

  lemma DrainsFollowAuthentication(g: Gate, ms: Mutations, hs: Handshakes, hs': Handshakes, h: HandshakeId)
    requires CountsExact(g, ms, hs) && DrainsSound(g, ms, hs) && h in hs && InAuthentication(hs[h])
    requires hs' == hs - {h} || hs' == hs[h := hs[h].(phase := Authenticated)]
    ensures DrainsSound(UncountAuthentication(g, hs[h].device), ms, hs')
  {
    var g' := UncountAuthentication(g, hs[h].device);
    if !g.stopping {
      WaitersAfterAuthentication(g, ms, hs, hs', h);
    }
    forall t <- ms
      ensures DrainSound(g', hs', t, ms[t])
    {
      DrainFollowsAuthentication(g, g', hs, hs', h, t, ms[t]);
    }
    assert forall d: DeviceId, t | t in WaitersOf(g'.authWaiters, d) :: t in WaitersOf(g.authWaiters, d);
  }

  lemma DrainFollowsAuthentication(g: Gate, g': Gate, hs: Handshakes, hs': Handshakes,
                                   h: HandshakeId, t: Ticket, m: Mutation)
    requires DrainSound(g, hs, t, m) && h in hs && InAuthentication(hs[h])
    requires hs' == hs - {h} || hs' == hs[h := hs[h].(phase := Authenticated)]
    requires g'.stopping == g.stopping && g'.readyWaiters == g.readyWaiters
    requires m.device != hs[h].device ==> WaitersOf(g'.authWaiters, m.device) == WaitersOf(g.authWaiters, m.device)
    requires !g.stopping && m.device == hs[h].device ==>
               WaitersOf(g'.authWaiters, m.device)
               == if AuthenticationsOn(hs', m.device) == {} then {} else WaitersOf(g.authWaiters, m.device)
    ensures DrainSound(g', hs', t, m)
  {
    assert LeasesOn(hs', m.device) == LeasesOn(hs, m.device);
    assert AuthenticationsOn(hs', m.device) == AuthenticationsOn(hs, m.device) - {h};
    if m.device == hs[h].device {
      assert h in AuthenticationsOn(hs, m.device);
    } else {
      assert h !in AuthenticationsOn(hs, m.device);
    }
  }

  lemma DrainsFollowLease(g: Gate, ms: Mutations, hs: Handshakes, h: HandshakeId)
    requires CountsExact(g, ms, hs) && DrainsSound(g, ms, hs) && h in hs && HoldsLease(hs[h])
    ensures DrainsSound(ReleaseLease(g, hs[h].device), ms, hs - {h})
  {
    var g' := ReleaseLease(g, hs[h].device);
    if !g.stopping {
      WaitersAfterLease(g, ms, hs, h);
    }
    forall t <- ms
      ensures DrainSound(g', hs - {h}, t, ms[t])
    {
      DrainFollowsLease(g, g', hs, h, t, ms[t]);
    }
    assert forall d: DeviceId, t | t in WaitersOf(g'.readyWaiters, d) :: t in WaitersOf(g.readyWaiters, d);
  }

  lemma DrainFollowsLease(g: Gate, g': Gate, hs: Handshakes, h: HandshakeId, t: Ticket, m: Mutation)
    requires DrainSound(g, hs, t, m) && h in hs && HoldsLease(hs[h])
    requires g'.stopping == g.stopping && g'.authWaiters == g.authWaiters
    requires m.device != hs[h].device ==> WaitersOf(g'.readyWaiters, m.device) == WaitersOf(g.readyWaiters, m.device)
    requires !g.stopping && m.device == hs[h].device ==>
               WaitersOf(g'.readyWaiters, m.device)
               == if LeasesOn(hs - {h}, m.device) == {} then {} else WaitersOf(g.readyWaiters, m.device)
    ensures DrainSound(g', hs - {h}, t, m)
  {
    assert AuthenticationsOn(hs - {h}, m.device) == AuthenticationsOn(hs, m.device);
    assert LeasesOn(hs - {h}, m.device) == LeasesOn(hs, m.device) - {h};
    if m.device == hs[h].device {
      assert h in LeasesOn(hs, m.device);
    } else {
      assert h !in LeasesOn(hs, m.device);
    }
  }

  /** A mutation that is in no waiter set takes a phase that is sound for it. */
  lemma DrainsFollowPhase(g: Gate, ms: Mutations, hs: Handshakes, t: Ticket, m: Mutation)
    requires DrainsSound(g, ms, hs) && DrainSound(g, hs, t, m)
    requires forall d: DeviceId :: t !in WaitersOf(g.readyWaiters, d) && t !in WaitersOf(g.authWaiters, d)
    ensures DrainsSound(g, ms[t := m], hs)
  {
  }

  /** Joining a waiter set exactly when there is something to wait for. */
  lemma DrainsFollowLeaseWait(g: Gate, ms: Mutations, hs: Handshakes, t: Ticket)
    requires CountsExact(g, ms, hs) && DrainsSound(g, ms, hs) && t in ms && ms[t].phase.InLine?
    ensures DrainsSound(AwaitLeases(g, ms[t].device, t), ms[t := ms[t].(phase := AwaitingLeases)], hs)
  {
    var d := ms[t].device;
    var g' := AwaitLeases(g, d, t);
    assert !g.stopping ==> CountsExactOn(g, ms, hs, d);
    assert t !in WaitersOf(g.readyWaiters, d) && t !in WaitersOf(g.authWaiters, d);
    WaitersJoined(g.readyWaiters, g'.readyWaiters, d, t);
    forall u <- ms | u != t
      ensures DrainSound(g', hs, u, ms[u])
    {
      assert DrainSound(g, hs, u, ms[u]);
    }
    assert DrainSound(g', hs, t, ms[t].(phase := AwaitingLeases));
  }

  lemma WaitersJoined(w: Waiters, w': Waiters, d: DeviceId, t: Ticket)
    requires w' == w || w' == w[d := WaitersOf(w, d) + {t}]
    ensures forall e: DeviceId, u | u != t || e != d :: u in WaitersOf(w', e) <==> u in WaitersOf(w, e)
  {
  }

  lemma DrainsFollowAuthenticationWait(g: Gate, ms: Mutations, hs: Handshakes, t: Ticket)
    requires CountsExact(g, ms, hs) && DrainsSound(g, ms, hs) && t in ms
    requires forall d: DeviceId :: t !in WaitersOf(g.readyWaiters, d) && t !in WaitersOf(g.authWaiters, d)
    ensures DrainsSound(AwaitAuthentications(g, ms[t].device, t),
                        ms[t := ms[t].(phase := AwaitingAuthentications)], hs)
  {
    var d := ms[t].device;
    var g' := AwaitAuthentications(g, d, t);
    assert !g.stopping ==> CountsExactOn(g, ms, hs, d);
    WaitersJoined(g.authWaiters, g'.authWaiters, d, t);
    forall u <- ms | u != t
      ensures DrainSound(g', hs, u, ms[u])
    {
      assert DrainSound(g, hs, u, ms[u]);
    }
    assert DrainSound(g', hs, t, ms[t].(phase := AwaitingAuthentications));
  }

  // --- Generations -------------------------------------------------------------------------------

  /** A generation once superseded stays so. */
  lemma SupersededStays(store: Store, op: Op, d: DeviceId, g: Generation)
    requires Superseded(store, d, g)
    ensures Superseded(Apply(store, op).0, d, g)
  {
  }

  /** Rotating or revoking supersedes the generation that was active. */
  lemma CommitSupersedes(store: Store, op: Op)
    requires Valid(store) && Apply(store, op).1.Issued? && !op.Issue?
    ensures ActiveGeneration(store, op.device).Some?
    ensures Superseded(Apply(store, op).0, op.device, ActiveGeneration(store, op.device).value)
  {
  }

  /** A commit touches no leased handshake: the device of a running operation has none. */
  lemma ValidatedKeptByCommit(store: Store, g: Gate, ms: Mutations, hs: Handshakes, t: Ticket, op: Op)
    requires ValidatedCurrent(store, hs) && DrainsSound(g, ms, hs)
    requires t in ms && ms[t].phase.Operating? && op.device == ms[t].device
    ensures ValidatedCurrent(Apply(store, op).0, hs)
  {
    assert DrainSound(g, hs, t, ms[t]);
    OnlyDeviceCommitted(store, op);
    forall h <- hs
      ensures HandshakeCurrent(Apply(store, op).0, hs[h])
    {
      assert HandshakeCurrent(store, hs[h]);
      assert h !in LeasesOn(hs, op.device);
    }
  }

  lemma OnlyDeviceCommitted(store: Store, op: Op)
    ensures forall d: DeviceId | d != op.device ::
      ActiveGeneration(Apply(store, op).0, d) == ActiveGeneration(store, d)
    ensures !Apply(store, op).1.Issued? ==> Apply(store, op).0 == store
    ensures Apply(store, op).1.Issued? && op.Issue? ==> ActiveGeneration(store, op.device) == None
    ensures Apply(store, op).1.Issued? && !op.Issue? ==> ActiveGeneration(store, op.device).Some?
  {
  }

  /** No other mutation of the device of a lock holder is about to evict anything. */
  lemma HolderEvictsAlone(lines: Lines, ms: Mutations, t: Ticket, g: Generation)
    requires LinesExact(lines, ms) && t in ms && !ms[t].phase.InLine? && !ms[t].phase.Unlocked?
    ensures PendingEviction(ms, ms[t].device, g) <==> ms[t].phase == Operating(Some(g))
  {
    HolderHeads(lines, ms, t);
    forall u <- ms | ms[u] == Mutation(ms[t].device, Operating(Some(g)))
      ensures u == t
    {
      HolderHeads(lines, ms, u);
    }
    if ms[t].phase == Operating(Some(g)) {
      assert ms[t] == Mutation(ms[t].device, Operating(Some(g)));
    }
  }

  lemma RegistryKeptByCommit(store: Store, lines: Lines, ms: Mutations, strays: set<Stray>, reg: Registry,
                             t: Ticket, op: Op)
    requires RegistryCurrent(store, ms, strays, reg) && LinesExact(lines, ms)
    requires t in ms && ms[t].phase == Operating(None) && op.device == ms[t].device
    ensures var (store', r) := Apply(store, op);
      RegistryCurrent(store', ms[t := Mutation(op.device, Operating(
        if r.Issued? && !op.Issue? then ActiveGeneration(store, op.device) else None))], strays, reg)
  {
    var (store', r) := Apply(store, op);
    OnlyDeviceCommitted(store, op);
    var m' := Mutation(op.device,
      Operating(if r.Issued? && !op.Issue? then ActiveGeneration(store, op.device) else None));
    var ms' := ms[t := m'];
    assert ms'[t] == m';
    forall d <- reg
      ensures RegistrationCurrent(store', ms', strays, d, reg[d])
    {
      assert RegistrationCurrent(store, ms, strays, d, reg[d]);
      if reg[d].struck {
        SupersededStays(store, op, d, reg[d].generation);
      } else if d == op.device {
        HolderEvictsAlone(lines, ms, t, reg[d].generation);
      } else if PendingEviction(ms, d, reg[d].generation) {
        var u :| u in ms && ms[u] == Mutation(d, Operating(Some(reg[d].generation)));
        assert ms'[u] == ms[u];
      }
    }
  }

  lemma RegistryKeptByEviction(store: Store, lines: Lines, ms: Mutations, strays: set<Stray>, reg: Registry, t: Ticket)
    requires RegistryCurrent(store, ms, strays, reg) && LinesExact(lines, ms)
    requires t in ms && ms[t].phase.Operating? && ms[t].phase.evict.Some?
    ensures
      var d := ms[t].device;
      var hit := d in reg && reg[d].generation == ms[t].phase.evict.value;
      RegistryCurrent(store, ms[t := Mutation(d, Operating(None))], strays, if hit then reg - {d} else reg)
  {
    var d := ms[t].device;
    var ms' := ms[t := Mutation(d, Operating(None))];
    var hit := d in reg && reg[d].generation == ms[t].phase.evict.value;
    var reg' := if hit then reg - {d} else reg;
    forall e <- reg'
      ensures RegistrationCurrent(store, ms', strays, e, reg'[e])
    {
      assert RegistrationCurrent(store, ms, strays, e, reg[e]);
      if e == d {
        HolderEvictsAlone(lines, ms, t, reg[d].generation);
      } else if PendingEviction(ms, e, reg[e].generation) {
        var u :| u in ms && ms[u] == Mutation(e, Operating(Some(reg[e].generation)));
        assert ms'[u] == ms[u];
      }
    }
  }

  /** Registrations may disappear, and mutations that evict nothing may come, go and change phase. */
  lemma RegistryKept(store: Store, ms: Mutations, ms': Mutations, strays: set<Stray>, reg: Registry, reg': Registry)
    requires RegistryCurrent(store, ms, strays, reg)
    requires forall d <- reg' :: d in reg && reg'[d] == reg[d]
    requires forall t <- ms | ms[t].phase.Operating? && ms[t].phase.evict.Some? :: t in ms' && ms'[t] == ms[t]
    ensures RegistryCurrent(store, ms', strays, reg')
  {
    forall d <- reg'
      ensures RegistrationCurrent(store, ms', strays, d, reg'[d])
    {
      assert RegistrationCurrent(store, ms, strays, d, reg[d]);
      if PendingEviction(ms, d, reg[d].generation) {
        var u :| u in ms && ms[u] == Mutation(d, Operating(Some(reg[d].generation)));
        assert ms'[u] == ms[u];
      }
    }
  }

  /** A call outside the lifecycle operation leaves what it replaced to be evicted. */
  lemma RegistryKeptOutside(store: Store, ms: Mutations, strays: set<Stray>, reg: Registry, op: Op)
    requires Valid(store) && RegistryCurrent(store, ms, strays, reg)
    ensures
      var (store', r) := Apply(store, op);
      RegistryCurrent(store', ms,
        if r.Issued? && !op.Issue? then strays + {Stray(op.device, ActiveGeneration(store, op.device).value)} else strays,
        reg)
  {
    var (store', r) := Apply(store, op);
    OnlyDeviceCommitted(store, op);
    forall d <- reg
      ensures RegistrationCurrent(store', ms,
        if r.Issued? && !op.Issue? then strays + {Stray(op.device, ActiveGeneration(store, op.device).value)} else strays,
        d, reg[d])
    {
      assert RegistrationCurrent(store, ms, strays, d, reg[d]);
      if reg[d].struck {
        SupersededStays(store, op, d, reg[d].generation);
      }
    }
  }

  // --- Connections -------------------------------------------------------------------------------

  lemma ClosingKeepsSessions(cs: Connections, c: ConnectionId, reg: Registry, acks: seq<Ack>)
    requires RegistryOpen(cs, reg) && AcksSound(cs, acks)
    ensures RegistryOpen(CloseConnection(cs, c), reg) && AcksSound(CloseConnection(cs, c), acks)
  {
  }

  lemma ReadyAddsSession(cs: Connections, c: ConnectionId, d: DeviceId, reg: Registry, acks: seq<Ack>)
    requires RegistryOpen(cs, reg) && AcksSound(cs, acks)
    requires c in cs && !cs[c].finalized && cs[c].state.Handshaking?
    ensures RegistryOpen(cs[c := Connection(Ready, false, Some(d))], reg)
    ensures AcksSound(cs[c := Connection(Ready, false, Some(d))], acks)
    ensures forall i | 0 <= i < |acks| :: acks[i].connection != c
  {
  }

  lemma AckAdded(cs: Connections, acks: seq<Ack>, a: Ack)
    requires AcksSound(cs, acks) && (a.activeThen == Some(a.generation) <==> !a.struck)
    requires a.connection in cs && cs[a.connection].session == Some(a.device)
    requires forall i | 0 <= i < |acks| :: acks[i].connection != a.connection
    ensures AcksSound(cs, acks + [a])
  {
  }

  lemma FinalizeKeepsSessions(cs: Connections, c: ConnectionId, reg: Registry, acks: seq<Ack>)
    requires RegistryOpen(cs, reg) && AcksSound(cs, acks) && c in cs
    ensures RegistryOpen(cs[c := cs[c].(state := Closed, finalized := true)],
                         map d | d in reg && reg[d].connection != c :: reg[d])
    ensures AcksSound(cs[c := cs[c].(state := Closed, finalized := true)], acks)
  {
  }

  // --- Every step keeps the invariant ------------------------------------------------------------

  lemma HelloKeeps(s: State, h: HandshakeId, c: ConnectionId, d: DeviceId, digest: Digest)
    requires Inv(s)
    ensures Inv(HelloStep(s, h, c, d, digest))
  {
    if h in s.handshakes || !StillHandshaking(s, c) {
    } else if s.gate.stopping || MutationActive(s.gate, d) {
      ClosingKeepsSessions(s.connections, c, s.registry, s.acks);
    } else {
      var k := Handshake(c, d, digest, Verifying, false);
      var hs' := s.handshakes[h := k];
      AuthenticationCounted(s.gate, s.mutations, s.handshakes, h, k);
      NoMutationOn(s.gate, s.mutations, s.handshakes, d);
      HoldersElsewhere(s.handshakes, hs', h, d);
      DrainsUndisturbed(s.gate, CountAuthentication(s.gate, d), s.mutations, s.handshakes, hs');
    }
  }

  /** Handshake h matters to its own device only. */
  lemma HoldersElsewhere(hs: Handshakes, hs': Handshakes, h: HandshakeId, d: DeviceId)
    requires forall k | k != h :: k in hs <==> k in hs'
    requires forall k | k != h && k in hs :: hs'[k] == hs[k]
    requires (h in hs ==> hs[h].device == d) && (h in hs' ==> hs'[h].device == d)
    ensures forall e: DeviceId | e != d ::
      AuthenticationsOn(hs', e) == AuthenticationsOn(hs, e) && LeasesOn(hs', e) == LeasesOn(hs, e)
  {
  }

  lemma FinishAuthenticationKeeps(s: State, h: HandshakeId)
    requires Inv(s)
    ensures Inv(FinishAuthenticationStep(s, h))
  {
    if h !in s.handshakes || !s.handshakes[h].phase.Verified? {
    } else {
      var k := s.handshakes[h];
      var done := if k.phase.ok && !s.gate.stopping && !MutationActive(s.gate, k.device)
                  then s.handshakes[h := k.(phase := Authenticated)] else s.handshakes - {h};
      AuthenticationUncounted(s.gate, s.mutations, s.handshakes, done, h);
      DrainsFollowAuthentication(s.gate, s.mutations, s.handshakes, done, h);
      ClosingKeepsSessions(s.connections, k.connection, s.registry, s.acks);
    }
  }

  /** Repository reads of a handshake move it between phases that hold the same things. */
  lemma ReadKeeps(s: State, h: HandshakeId, p: HandshakePhase)
    requires Inv(s) && h in s.handshakes
    requires p.Verified? || p.Validated?
    requires p.Verified? <==> InAuthentication(s.handshakes[h])
    requires p.Validated? <==> HoldsLease(s.handshakes[h])
    requires !s.handshakes[h].struck
    requires p.Validated? && p.generation.Some? ==>
               ActiveGeneration(s.credentials, s.handshakes[h].device) == p.generation
    ensures Inv(WithPhase(s, h, p))
  {
    var k := s.handshakes[h].(phase := p);
    var hs' := s.handshakes[h := k];
    PhaseUncounted(s.gate, s.mutations, s.handshakes, h, k);
    forall t <- s.mutations
      ensures AuthenticationsOn(hs', s.mutations[t].device) == AuthenticationsOn(s.handshakes, s.mutations[t].device)
      ensures LeasesOn(hs', s.mutations[t].device) == LeasesOn(s.handshakes, s.mutations[t].device)
    {
    }
    DrainsUndisturbed(s.gate, s.gate, s.mutations, s.handshakes, hs');
  }

  lemma VerifyCredentialKeeps(s: State, h: HandshakeId)
    requires Inv(s)
    ensures Inv(VerifyCredentialStep(s, h))
  {
    if h in s.handshakes && s.handshakes[h].phase.Verifying? {
      ReadKeeps(s, h, Verified(Verify(s.credentials, s.handshakes[h].device, s.handshakes[h].digest).Some?));
    }
  }

  lemma ValidateReadyKeeps(s: State, h: HandshakeId)
    requires Inv(s)
    ensures Inv(ValidateReadyStep(s, h))
  {
    if h in s.handshakes && s.handshakes[h].phase.Leased? {
      var k := s.handshakes[h];
      var found := Verify(s.credentials, k.device, k.digest);
      ReadKeeps(s, h, Validated(match found case Some(c) => Some(GenerationOf(c)) case None => None));
    }
  }

  /** A handshake that holds nothing ends. */
  lemma DropKeeps(s: State, h: HandshakeId)
    requires Inv(s) && h in s.handshakes && s.handshakes[h].phase.Authenticated?
    ensures Inv(s.(handshakes := s.handshakes - {h}))
    ensures Inv(FailHandshake(s, h))
  {
    var hs' := s.handshakes - {h};
    DroppedUncounted(s.gate, s.mutations, s.handshakes, h);
    forall t <- s.mutations
      ensures AuthenticationsOn(hs', s.mutations[t].device) == AuthenticationsOn(s.handshakes, s.mutations[t].device)
      ensures LeasesOn(hs', s.mutations[t].device) == LeasesOn(s.handshakes, s.mutations[t].device)
    {
    }
    DrainsUndisturbed(s.gate, s.gate, s.mutations, s.handshakes, hs');
    ClosingKeepsSessions(s.connections, s.handshakes[h].connection, s.registry, s.acks);
  }

  lemma LeaseKeeps(s: State, h: HandshakeId)
    requires Inv(s) && h in s.handshakes && s.handshakes[h].phase.Authenticated?
    requires !s.gate.stopping && !MutationActive(s.gate, s.handshakes[h].device)
    ensures Inv(WithPhase(s.(gate := TakeLease(s.gate, s.handshakes[h].device)), h, Leased))
  {
    var k := s.handshakes[h];
    var hs' := s.handshakes[h := k.(phase := Leased)];
    LeaseCounted(s.gate, s.mutations, s.handshakes, h, k.(phase := Leased));
    NoMutationOn(s.gate, s.mutations, s.handshakes, k.device);
    HoldersElsewhere(s.handshakes, hs', h, k.device);
    DrainsUndisturbed(s.gate, TakeLease(s.gate, k.device), s.mutations, s.handshakes, hs');
  }

  lemma BeginReadyKeeps(s: State, h: HandshakeId)
    requires Inv(s)
    ensures Inv(BeginReadyStep(s, h))
  {
    if h !in s.handshakes || !s.handshakes[h].phase.Authenticated? {
    } else if !StillHandshaking(s, s.handshakes[h].connection)
      || s.gate.stopping || MutationActive(s.gate, s.handshakes[h].device) {
      DropKeeps(s, h);
    } else {
      LeaseKeeps(s, h);
    }
  }

  function Released(s: State, h: HandshakeId): State
    requires h in s.handshakes
  {
    s.(gate := ReleaseLease(s.gate, s.handshakes[h].device), handshakes := s.handshakes - {h})
  }

  lemma ReleaseKeeps(s: State, h: HandshakeId)
    requires Inv(s) && h in s.handshakes && HoldsLease(s.handshakes[h])
    ensures Inv(Released(s, h))
  {
    LeaseUncounted(s.gate, s.mutations, s.handshakes, h);
    DrainsFollowLease(s.gate, s.mutations, s.handshakes, h);
  }

  /** Connections, registrations and acknowledgements change; the rest stays. */
  lemma SessionsReplaced(s: State, cs: Connections, reg: Registry, acks: seq<Ack>)
    requires Inv(s) && RegistryOpen(cs, reg) && AcksSound(cs, acks)
    requires RegistryCurrent(s.credentials, s.mutations, s.strays, reg)
    ensures Inv(s.(connections := cs, registry := reg, acks := acks))
  {
  }

  lemma CommitReadyKeeps(s: State, h: HandshakeId, ackSent: bool, bound: bool)
    requires Inv(s)
    ensures Inv(CommitReadyStep(s, h, ackSent, bound))
  {
    if h !in s.handshakes || !s.handshakes[h].phase.Validated? {
    } else {
      var k := s.handshakes[h];
      var c := k.connection;
      var r := Released(s, h);
      ReleaseKeeps(s, h);
      ClosingKeepsSessions(s.connections, c, s.registry, s.acks);
      if k.phase.generation.None? {
        SessionsReplaced(r, CloseConnection(s.connections, c), s.registry, s.acks);
      } else if StillHandshaking(s, c) {
        var cs := s.connections[c := Connection(Ready, false, Some(k.device))];
        var closed := CloseConnection(cs, c);
        var a := Ack(c, k.device, k.phase.generation.value, ActiveGeneration(s.credentials, k.device), k.struck);
        ReadyAddsSession(s.connections, c, k.device, s.registry, s.acks);
        if !ackSent {
          ClosingKeepsSessions(cs, c, s.registry, s.acks);
          SessionsReplaced(r, closed, s.registry, s.acks);
        } else {
          AckAdded(cs, s.acks, a);
          if !bound {
            ClosingKeepsSessions(cs, c, s.registry, s.acks + [a]);
            SessionsReplaced(r, closed, s.registry, s.acks + [a]);
          } else {
            var reg := s.registry[k.device := Registration(k.phase.generation.value, c, k.struck)];
            BoundKeeps(s, h, cs, reg, s.acks + [a]);
          }
        }
      }
    }
  }

  lemma BoundKeeps(s: State, h: HandshakeId, cs: Connections, reg: Registry, acks: seq<Ack>)
    requires Inv(s) && h in s.handshakes && s.handshakes[h].phase.Validated?
    requires s.handshakes[h].phase.generation.Some?
    requires RegistryOpen(cs, s.registry) && AcksSound(cs, acks)
    requires cs == s.connections[s.handshakes[h].connection := Connection(Ready, false, Some(s.handshakes[h].device))]
    requires reg == s.registry[s.handshakes[h].device :=
               Registration(s.handshakes[h].phase.generation.value, s.handshakes[h].connection, s.handshakes[h].struck)]
    ensures
      var d := s.handshakes[h].device;
      var cs' := if d in s.registry then CloseConnection(cs, s.registry[d].connection) else cs;
      Inv(Released(s, h).(connections := cs', registry := reg, acks := acks))
  {
    var d := s.handshakes[h].device;
    assert RegistryOpen(cs, reg);
    if d in s.registry {
      ClosingKeepsSessions(cs, s.registry[d].connection, reg, acks);
    }
    assert HandshakeCurrent(s.credentials, s.handshakes[h]);
    assert RegistryCurrent(s.credentials, s.mutations, s.strays, reg);
    ReleaseKeeps(s, h);
    var cs' := if d in s.registry then CloseConnection(cs, s.registry[d].connection) else cs;
    SessionsReplaced(Released(s, h), cs', reg, acks);
  }

  lemma BeginMutationKeeps(s: State, t: Ticket, d: DeviceId)
    requires Inv(s)
    ensures Inv(BeginMutationStep(s, t, d))
  {
    if t in s.mutations || s.gate.stopping {
    } else {
      var m := Mutation(d, InLine);
      MutationCounted(s.gate, s.mutations, s.handshakes, t, m);
      LineJoined(s.lines, s.mutations, t, d);
      DrainsFollowPhase(s.gate, s.mutations, s.handshakes, t, m);
      DrainsUndisturbed(s.gate, BeginMutation(s.gate, d), s.mutations[t := m], s.handshakes, s.handshakes);
      RegistryKept(s.credentials, s.mutations, s.mutations[t := m], s.strays, s.registry, s.registry);
    }
  }

  lemma AcquireKeeps(s: State, t: Ticket)
    requires Inv(s)
    ensures Inv(AcquireStep(s, t))
  {
    if Heads(s.lines, s.mutations, t) && s.mutations[t].phase.InLine? {
      var g' := AwaitLeases(s.gate, s.mutations[t].device, t);
      var ms' := s.mutations[t := s.mutations[t].(phase := AwaitingLeases)];
      MutationPhaseUncounted(s.gate, g', s.mutations, s.handshakes, t, AwaitingLeases);
      LineKeptByPhase(s.lines, s.mutations, t, AwaitingLeases);
      DrainsFollowLeaseWait(s.gate, s.mutations, s.handshakes, t);
      RegistryKept(s.credentials, s.mutations, ms', s.strays, s.registry, s.registry);
    }
  }

  /** The operation ends, or never starts: the mutation waits for running authentications. */
  lemma LeaveOperationKeeps(s: State, t: Ticket)
    requires Inv(s) && t in s.mutations
    requires s.mutations[t].phase == Operating(None)
      || (s.mutations[t].phase.AwaitingLeases? && t !in WaitersOf(s.gate.readyWaiters, s.mutations[t].device))
    ensures Inv(LeaveOperationOf(s, t))
  {
    var g' := AwaitAuthentications(s.gate, s.mutations[t].device, t);
    var ms' := s.mutations[t := s.mutations[t].(phase := AwaitingAuthentications)];
    HolderHeads(s.lines, s.mutations, t);
    MutationPhaseUncounted(s.gate, g', s.mutations, s.handshakes, t, AwaitingAuthentications);
    LineKeptByPhase(s.lines, s.mutations, t, AwaitingAuthentications);
    DrainsFollowAuthenticationWait(s.gate, s.mutations, s.handshakes, t);
    RegistryKept(s.credentials, s.mutations, ms', s.strays, s.registry, s.registry);
  }

  lemma EnterOperationKeeps(s: State, t: Ticket)
    requires Inv(s)
    ensures Inv(EnterOperationStep(s, t))
  {
    if t !in s.mutations || !s.mutations[t].phase.AwaitingLeases?
      || t in WaitersOf(s.gate.readyWaiters, s.mutations[t].device) {
    } else if s.gate.stopping {
      LeaveOperationKeeps(s, t);
    } else {
      var m := s.mutations[t].(phase := Operating(None));
      HolderHeads(s.lines, s.mutations, t);
      MutationPhaseUncounted(s.gate, s.gate, s.mutations, s.handshakes, t, Operating(None));
      LineKeptByPhase(s.lines, s.mutations, t, Operating(None));
      assert DrainSound(s.gate, s.handshakes, t, s.mutations[t]);
      DrainsFollowPhase(s.gate, s.mutations, s.handshakes, t, m);
      RegistryKept(s.credentials, s.mutations, s.mutations[t := m], s.strays, s.registry, s.registry);
    }
  }

  lemma CommitKeeps(s: State, t: Ticket, op: Op)
    requires Inv(s)
    ensures Inv(CommitStep(s, t, op))
  {
    if t !in s.mutations || s.mutations[t].phase != Operating(None) || op.device != s.mutations[t].device {
    } else {
      var (store, r) := Apply(s.credentials, op);
      var p := Operating(if r.Issued? && !op.Issue? then ActiveGeneration(s.credentials, op.device) else None);
      ApplyKeepsValid(s.credentials, op);
      HolderHeads(s.lines, s.mutations, t);
      MutationPhaseUncounted(s.gate, s.gate, s.mutations, s.handshakes, t, p);
      LineKeptByPhase(s.lines, s.mutations, t, p);
      assert DrainSound(s.gate, s.handshakes, t, s.mutations[t]);
      DrainsFollowPhase(s.gate, s.mutations, s.handshakes, t, s.mutations[t].(phase := p));
      ValidatedKeptByCommit(s.credentials, s.gate, s.mutations, s.handshakes, t, op);
      RegistryKeptByCommit(s.credentials, s.lines, s.mutations, s.strays, s.registry, t, op);
      assert s.mutations[t].(phase := p) == Mutation(op.device, p);
    }
  }

  lemma EvictKeeps(s: State, d: DeviceId, g: Generation)
    requires Inv(s)
    ensures Inv(EvictGeneration(s, d, g))
  {
    if d in s.registry && s.registry[d].generation == g {
      ClosingKeepsSessions(s.connections, s.registry[d].connection, s.registry, s.acks);
      RegistryKept(s.credentials, s.mutations, s.mutations, s.strays, s.registry, s.registry - {d});
    }
  }

  lemma EvictCommittedKeeps(s: State, t: Ticket)
    requires Inv(s)
    ensures Inv(EvictCommittedStep(s, t))
  {
    if t in s.mutations && s.mutations[t].phase.Operating? && s.mutations[t].phase.evict.Some? {
      var d := s.mutations[t].device;
      var m := Mutation(d, Operating(None));
      EvictKeeps(s, d, s.mutations[t].phase.evict.value);
      HolderHeads(s.lines, s.mutations, t);
      MutationPhaseUncounted(s.gate, s.gate, s.mutations, s.handshakes, t, Operating(None));
      LineKeptByPhase(s.lines, s.mutations, t, Operating(None));
      assert DrainSound(s.gate, s.handshakes, t, s.mutations[t]);
      DrainsFollowPhase(s.gate, s.mutations, s.handshakes, t, m);
      RegistryKeptByEviction(s.credentials, s.lines, s.mutations, s.strays, s.registry, t);
      assert s.mutations[t].(phase := Operating(None)) == m;
    }
  }

  lemma UnlockKeeps(s: State, t: Ticket)
    requires Inv(s)
    ensures Inv(UnlockStep(s, t))
  {
    if t in s.mutations && s.mutations[t].phase.AwaitingAuthentications?
      && t !in WaitersOf(s.gate.authWaiters, s.mutations[t].device) {
      var m := s.mutations[t].(phase := Unlocked);
      HolderHeads(s.lines, s.mutations, t);
      MutationPhaseUncounted(s.gate, s.gate, s.mutations, s.handshakes, t, Unlocked);
      LineLeft(s.lines, s.mutations, t);
      assert DrainSound(s.gate, s.handshakes, t, s.mutations[t]);
      DrainsFollowPhase(s.gate, s.mutations, s.handshakes, t, m);
      RegistryKept(s.credentials, s.mutations, s.mutations[t := m], s.strays, s.registry, s.registry);
    }
  }

  lemma EndMutationKeeps(s: State, t: Ticket)
    requires Inv(s)
    ensures Inv(EndMutationStep(s, t))
  {
    if t in s.mutations && s.mutations[t].phase.Unlocked? {
      var g' := EndMutation(s.gate, s.mutations[t].device);
      MutationUncounted(s.gate, s.mutations, s.handshakes, t);
      LineForgets(s.lines, s.mutations, t);
      DrainsUndisturbed(s.gate, g', s.mutations, s.handshakes, s.handshakes);
      assert DrainsSound(g', s.mutations - {t}, s.handshakes);
      RegistryKept(s.credentials, s.mutations, s.mutations - {t}, s.strays, s.registry, s.registry);
    }
  }

  lemma FinalizeKeeps(s: State, c: ConnectionId)
    requires Inv(s)
    ensures Inv(EvictSessionStep(s, c)) && Inv(FinalizeStep(s, c))
  {
    var reg := EvictSessionStep(s, c).registry;
    RegistryKept(s.credentials, s.mutations, s.mutations, s.strays, s.registry, reg);
    assert RegistryOpen(s.connections, reg);
    if c in s.connections {
      FinalizeKeepsSessions(s.connections, c, s.registry, s.acks);
    }
  }

  lemma BeginStopKeeps(s: State)
    requires Inv(s)
    ensures Inv(s.(gate := StopGate(s.gate)))
  {
    var g' := StopGate(s.gate);
    assert DrainsSound(g', s.mutations, s.handshakes) by {
      forall t <- s.mutations
        ensures DrainSound(g', s.handshakes, t, s.mutations[t])
      {
        assert DrainSound(s.gate, s.handshakes, t, s.mutations[t]);
      }
    }
  }

  lemma EndStopKeeps(s: State)
    requires Inv(s) && s.gate.stopping
    ensures Inv(s.(gate := ClearGate(s.gate), registry := map[]))
  {
    DrainsUndisturbed(s.gate, ClearGate(s.gate), s.mutations, s.handshakes, s.handshakes);
    RegistryKept(s.credentials, s.mutations, s.mutations, s.strays, s.registry, map[]);
  }

  lemma OpenKeeps(s: State, c: ConnectionId)
    requires Inv(s) && c !in s.connections
    ensures Inv(s.(connections := s.connections[c := Connection(Handshaking, false, None)]))
  {
    var cs := s.connections[c := Connection(Handshaking, false, None)];
    assert RegistryOpen(cs, s.registry) && AcksSound(cs, s.acks);
    SessionsReplaced(s, cs, s.registry, s.acks);
  }

  /** Striking a handshake changes nothing but its mark. */
  lemma StruckHolders(hs: Handshakes, d: DeviceId, e: DeviceId)
    ensures AuthenticationsOn(Struck(hs, d), e) == AuthenticationsOn(hs, e)
    ensures LeasesOn(Struck(hs, d), e) == LeasesOn(hs, e)
  {
  }

  lemma StrikingKeepsCounts(g: Gate, ms: Mutations, hs: Handshakes, d: DeviceId)
    requires CountsExact(g, ms, hs) && DrainsSound(g, ms, hs)
    ensures CountsExact(g, ms, Struck(hs, d)) && DrainsSound(g, ms, Struck(hs, d))
  {
    var hs' := Struck(hs, d);
    forall e: DeviceId | !g.stopping
      ensures CountsExactOn(g, ms, hs', e)
    {
      assert CountsExactOn(g, ms, hs, e);
      StruckHolders(hs, d, e);
    }
    forall t <- ms
      ensures AuthenticationsOn(hs', ms[t].device) == AuthenticationsOn(hs, ms[t].device)
      ensures LeasesOn(hs', ms[t].device) == LeasesOn(hs, ms[t].device)
    {
      StruckHolders(hs, d, ms[t].device);
    }
    DrainsUndisturbed(g, g, ms, hs, hs');
  }

  lemma StrikingKeepsValidated(store: Store, hs: Handshakes, op: Op)
    requires Valid(store) && ValidatedCurrent(store, hs) && Apply(store, op).1.Issued? && !op.Issue?
    ensures ValidatedCurrent(Apply(store, op).0, Struck(hs, op.device))
  {
    var hs' := Struck(hs, op.device);
    OnlyDeviceCommitted(store, op);
    CommitSupersedes(store, op);
    forall h <- hs'
      ensures HandshakeCurrent(Apply(store, op).0, hs'[h])
    {
      assert HandshakeCurrent(store, hs[h]);
      if hs[h].struck {
        SupersededStays(store, op, hs[h].device, hs[h].phase.generation.value);
      }
    }
  }

  /** A first credential, and a call that fails, leave every handshake as current as it was. */
  lemma HarmlessKeepsValidated(store: Store, hs: Handshakes, op: Op)
    requires ValidatedCurrent(store, hs) && (!Apply(store, op).1.Issued? || op.Issue?)
    ensures ValidatedCurrent(Apply(store, op).0, hs)
  {
    OnlyDeviceCommitted(store, op);
    forall h <- hs
      ensures HandshakeCurrent(Apply(store, op).0, hs[h])
    {
      assert HandshakeCurrent(store, hs[h]);
      if hs[h].struck {
        SupersededStays(store, op, hs[h].device, hs[h].phase.generation.value);
      }
    }
  }

  lemma OutsideCommitKeeps(s: State, op: Op)
    requires Inv(s)
    ensures Inv(OutsideCommitStep(s, op))
  {
    var (store, r) := Apply(s.credentials, op);
    ApplyKeepsValid(s.credentials, op);
    RegistryKeptOutside(s.credentials, s.mutations, s.strays, s.registry, op);
    if !r.Issued? || op.Issue? {
      HarmlessKeepsValidated(s.credentials, s.handshakes, op);
    } else {
      StrikingKeepsCounts(s.gate, s.mutations, s.handshakes, op.device);
      StrikingKeepsValidated(s.credentials, s.handshakes, op);
    }
  }

  lemma OutsideEvictKeeps(s: State, d: DeviceId, g: Generation)
    requires Inv(s)
    ensures Inv(OutsideEvictStep(s, d, g))
  {
    if Stray(d, g) in s.strays {
      EvictKeeps(s, d, g);
      var s1 := EvictGeneration(s, d, g);
      forall e <- s1.registry
        ensures RegistrationCurrent(s.credentials, s.mutations, s.strays - {Stray(d, g)}, e, s1.registry[e])
      {
        assert RegistrationCurrent(s.credentials, s.mutations, s.strays, e, s.registry[e]);
      }
    }
  }

  lemma HandshakeStepKeeps(s: State, e: Event)
    requires Inv(s)
    requires e.Hello? || e.VerifyCredential? || e.FinishAuthentication? || e.BeginReady? || e.ValidateReady?
      || e.CommitReady?
    ensures Inv(Step(s, e))
  {
    match e
    case Hello(h, c, d, digest) => HelloKeeps(s, h, c, d, digest);
    case VerifyCredential(h) => VerifyCredentialKeeps(s, h);
    case FinishAuthentication(h) => FinishAuthenticationKeeps(s, h);
    case BeginReady(h) => BeginReadyKeeps(s, h);
    case ValidateReady(h) => ValidateReadyKeeps(s, h);
    case CommitReady(h, ackSent, bound) => CommitReadyKeeps(s, h, ackSent, bound);
  }

  lemma MutationStepKeeps(s: State, e: Event)
    requires Inv(s)
    requires e.BeginsMutation? || e.Acquire? || e.EnterOperation? || e.Commit? || e.EvictCommitted?
      || e.LeaveOperation? || e.Unlock? || e.EndsMutation?
    ensures Inv(Step(s, e))
  {
    match e
    case BeginsMutation(t, d) => BeginMutationKeeps(s, t, d);
    case Acquire(t) => AcquireKeeps(s, t);
    case EnterOperation(t) => EnterOperationKeeps(s, t);
    case Commit(t, op) => CommitKeeps(s, t, op);
    case EvictCommitted(t) => EvictCommittedKeeps(s, t);
    case LeaveOperation(t) =>
      if t in s.mutations && s.mutations[t].phase == Operating(None) { LeaveOperationKeeps(s, t); }
    case Unlock(t) => UnlockKeeps(s, t);
    case EndsMutation(t) => EndMutationKeeps(s, t);
  }

  lemma StepKeeps(s: State, e: Event)
    requires Inv(s)
    ensures Inv(Step(s, e))
  {
    match e
    case Open(c) => if c !in s.connections { OpenKeeps(s, c); }
    case OutsideCommit(op) => OutsideCommitKeeps(s, op);
    case OutsideEvict(d, g) => OutsideEvictKeeps(s, d, g);
    case Invalidate(d, g) => EvictKeeps(s, d, g);
    case EvictSession(c) => FinalizeKeeps(s, c);
    case Close(c) =>
      ClosingKeepsSessions(s.connections, c, s.registry, s.acks);
      SessionsReplaced(s, CloseConnection(s.connections, c), s.registry, s.acks);
    case Finalize(c) => FinalizeKeeps(s, c);
    case BeginStop => BeginStopKeeps(s);
    case EndStop => if s.gate.stopping { EndStopKeeps(s); }
    case _ =>
      if e.Hello? || e.VerifyCredential? || e.FinishAuthentication? || e.BeginReady? || e.ValidateReady?
        || e.CommitReady? {
        HandshakeStepKeeps(s, e);
      } else {
        MutationStepKeeps(s, e);
      }
  }

  lemma {:induction false} RunKeeps(s: State, es: seq<Event>)
    requires Inv(s)
    ensures Inv(Run(s, es))
    decreases |es|
  {
    if es != [] {
      StepKeeps(s, es[0]);
      RunKeeps(Step(s, es[0]), es[1..]);
    }
  }

  lemma InitialInv()
    ensures Inv(INITIAL)
  {
    forall d: DeviceId
      ensures CountsExactOn(OPEN_GATE, map[], map[], d)
    {
      assert MutationsOn(map[], d) == {} && AuthenticationsOn(map[], d) == {} && LeasesOn(map[], d) == {};
    }
  }
}
