/**
 * The pairing completion store as both repositories present it: one entry per pairing
 * session, either a reservation or a completion record, each with an expiry.
 */
module CompletionStore {
  import opened Wrappers
  import opened DeviceCredential

  type SessionId = nat

  datatype RecordState = Pending | Recovering | Delivered

  /** `target` is the pre-reserved credential id of a recovery, present only while recovering. */
  datatype Record = Record(
    device: DeviceId,
    credentialId: CredentialId,
    version: nat,
    state: RecordState,
    target: Option<CredentialId>)

  datatype Entry = Reserved(expiresAt: int) | Held(record: Record, expiresAt: int)

  type Entries = map<SessionId, Entry>

  datatype Limits = Limits(maxRecords: nat, retentionMs: nat)

  datatype StoreOp =
    | Reserve(id: SessionId)
    | Transfer(source: SessionId, destination: SessionId)
    | Get(id: SessionId)
    | SetPending(id: SessionId, device: DeviceId, credentialId: CredentialId, version: nat)
    | BeginRecovery(id: SessionId, device: DeviceId, credentialId: CredentialId, version: nat,
                    target: CredentialId)
    | AdvanceRecovery(id: SessionId, device: DeviceId, expected: Generation, next: Generation,
                      target: CredentialId)
    | FinishRecovery(id: SessionId, device: DeviceId, expected: Generation, next: Generation)
    | Acknowledge(id: SessionId, device: DeviceId, expected: Generation)
    | Delete(id: SessionId)

  datatype StoreResponse = Flag(value: bool) | Found(record: Option<Record>) | Done

  function SourceOf(r: Record): Generation {
    Generation(r.credentialId, r.version)
  }

  /** The one generation that a recovery may have committed beyond its source. */
  predicate IsReservedTarget(r: Record, g: Generation) {
    r.state.Recovering? && r.target == Some(g.credentialId) && g.version == r.version + 1
  }

  function RecordAt(e: Entries, id: SessionId): Option<Record> {
    if id in e && e[id].Held? then Some(e[id].record) else None
  }

  /** The entries that have not expired at a time. */
  function Live(e: Entries, now: int): Entries {
    map id | id in e && e[id].expiresAt > now :: e[id]
  }

  function Put(e: Entries, id: SessionId, r: Record, now: int, lim: Limits): (Entries, StoreResponse) {
    (e[id := Held(r, now + lim.retentionMs)], Found(Some(r)))
  }

  predicate RecoveryMatches(r: Option<Record>, device: DeviceId, expected: Generation, next: Generation) {
    r.Some? && r.value.state.Recovering? && r.value.device == device && SourceOf(r.value) == expected
    && IsReservedTarget(r.value, next)
  }

  /** One operation on unexpired entries. */
  function Apply(e: Entries, op: StoreOp, now: int, lim: Limits): (Entries, StoreResponse) {
    match op
    case Reserve(id) =>
      if id in e then (e, Flag(true))
      else if |e| >= lim.maxRecords then (e, Flag(false))
      else (e[id := Reserved(now + lim.retentionMs)], Flag(true))
    case Transfer(source, destination) =>
      if source !in e || !e[source].Reserved? || destination in e then (e, Flag(false))
      else ((e - {source})[destination := e[source]], Flag(true))
    case Get(id) => (e, Found(RecordAt(e, id)))
    case SetPending(id, device, credentialId, version) =>
      var r := Record(device, credentialId, version, Pending, None);
      if RecordAt(e, id).Some? then
        var prior := e[id].record;
        (e, Found(if prior.state.Pending? && prior.device == device && SourceOf(prior) == SourceOf(r)
                  then Some(prior) else None))
      else if id !in e && |e| >= lim.maxRecords then (e, Found(None))
      else Put(e, id, r, now, lim)
    case BeginRecovery(id, device, credentialId, version, target) =>
      var prior := RecordAt(e, id);
      if prior.Some? && (prior.value.state.Delivered? || prior.value.device != device) then (e, Found(None))
      else if prior.Some? && prior.value.state.Recovering? then (e, Found(prior))
      else if id !in e && |e| >= lim.maxRecords then (e, Found(None))
      else
        var source := if prior.Some? then SourceOf(prior.value) else Generation(credentialId, version);
        Put(e, id, Record(device, source.credentialId, source.version, Recovering, Some(target)), now, lim)
    case AdvanceRecovery(id, device, expected, next, target) =>
      if !RecoveryMatches(RecordAt(e, id), device, expected, next) then (e, Found(None))
      else Put(e, id, Record(device, next.credentialId, next.version, Recovering, Some(target)), now, lim)
    case FinishRecovery(id, device, expected, next) =>
      if !RecoveryMatches(RecordAt(e, id), device, expected, next) then (e, Found(None))
      else Put(e, id, Record(device, next.credentialId, next.version, Pending, None), now, lim)
    case Acknowledge(id, device, expected) =>
      var prior := RecordAt(e, id);
      if prior.None? || prior.value.device != device || SourceOf(prior.value) != expected then (e, Found(None))
      else if prior.value.state.Delivered? then (e, Found(prior))
      else if !prior.value.state.Pending? then (e, Found(None))
      else Put(e, id, prior.value.(state := Delivered), now, lim)
    case Delete(id) => (e - {id}, Done)
  }

  /** The in-memory repository prunes before every operation but `delete`. */
  function MemoryApply(e: Entries, op: StoreOp, now: int, lim: Limits): (Entries, StoreResponse) {
    if op.Delete? then (e - {op.id}, Done) else Apply(Live(e, now), op, now, lim)
  }

  /** The SQLite repository prunes in every transaction. */
  function TableApply(e: Entries, op: StoreOp, now: int, lim: Limits): (Entries, StoreResponse) {
    Apply(Live(e, now), op, now, lim)
  }

  // --- The two repositories agree --------------------------------------------------------------

  datatype TimedOp = TimedOp(op: StoreOp, at: int)

  function RunMemory(e: Entries, ops: seq<TimedOp>, lim: Limits): (Entries, seq<StoreResponse>)
    decreases |ops|
  {
    if ops == [] then (e, [])
    else
      var (e1, r) := MemoryApply(e, ops[0].op, ops[0].at, lim);
      var (e2, rs) := RunMemory(e1, ops[1..], lim);
      (e2, [r] + rs)
  }

  function RunTable(e: Entries, ops: seq<TimedOp>, lim: Limits): (Entries, seq<StoreResponse>)
    decreases |ops|
  {
    if ops == [] then (e, [])
    else
      var (e1, r) := TableApply(e, ops[0].op, ops[0].at, lim);
      var (e2, rs) := RunTable(e1, ops[1..], lim);
      (e2, [r] + rs)
  }

  predicate Ascending(ops: seq<TimedOp>, from: int)
    decreases |ops|
  {
    ops == [] || (from <= ops[0].at && Ascending(ops[1..], ops[0].at))
  }

  lemma LiveTwice(e: Entries, now: int, later: int)
    requires now <= later
    ensures Live(Live(e, now), later) == Live(e, later)
  {
  }

  lemma DeleteCommutes(e: Entries, id: SessionId, now: int)
    ensures Live(e - {id}, now) == Live(e, now) - {id}
  {
  }

  /**
   * Refinement: stores that agree on their unexpired entries give the same answers to every
   * sequence of operations under a clock that does not go back, and agree again at its end.
   */
  lemma {:induction false} RepositoriesAgree(m: Entries, t: Entries, ops: seq<TimedOp>, now: int, lim: Limits)
    requires Live(m, now) == Live(t, now) && Ascending(ops, now)
    ensures RunMemory(m, ops, lim).1 == RunTable(t, ops, lim).1
    ensures
      var last := if ops == [] then now else ops[|ops| - 1].at;
      Live(RunMemory(m, ops, lim).0, last) == Live(RunTable(t, ops, lim).0, last)
    decreases |ops|
  {
    if ops != [] {
      var op := ops[0].op;
      var at := ops[0].at;
      LiveTwice(m, now, at);
      LiveTwice(t, now, at);
      var m1 := MemoryApply(m, op, at, lim).0;
      var t1 := TableApply(t, op, at, lim).0;
      if op.Delete? {
        DeleteCommutes(m, op.id, at);
        LiveTwice(t, at, at);
        DeleteCommutes(Live(t, at), op.id, at);
      }
      RepositoriesAgree(m1, t1, ops[1..], at, lim);
      assert ops[1..] != [] ==> ops[1..][|ops[1..]| - 1] == ops[|ops| - 1];
    }
  }

  // --- Bounds and stability -----------------------------------------------------------------------

  /** Well-formed records: only a recovering one has a target, and it always has one. */
  ghost predicate WellFormed(e: Entries) {
    forall id <- e | e[id].Held? :: e[id].record.state.Recovering? <==> e[id].record.target.Some?
  }

  lemma ApplyKeepsWellFormed(e: Entries, op: StoreOp, now: int, lim: Limits)
    requires WellFormed(e)
    ensures WellFormed(MemoryApply(e, op, now, lim).0) && WellFormed(TableApply(e, op, now, lim).0)
  {
  }

  lemma LiveIsSmaller(e: Entries, now: int)
    ensures |Live(e, now)| <= |e|
  {
    SubsetSize(Live(e, now).Keys, e.Keys);
  }

  lemma SizeAfterPut(e: Entries, id: SessionId, x: Entry)
    ensures |e[id := x]| == if id in e then |e| else |e| + 1
  {
    assert e[id := x].Keys == e.Keys + {id};
  }

  lemma SizeAfterDelete(e: Entries, id: SessionId)
    ensures |e - {id}| == if id in e then |e| - 1 else |e|
  {
    assert (e - {id}).Keys == e.Keys - {id};
  }

  lemma ApplyWithinCapacity(e: Entries, op: StoreOp, now: int, lim: Limits)
    requires |e| <= lim.maxRecords
    ensures |Apply(e, op, now, lim).0| <= lim.maxRecords
  {
    match op
    case Transfer(_, _) => TransferWithinCapacity(e, op, now, lim);
    case Delete(id) => SizeAfterDelete(e, id);
    case Reserve(id) => SizeAfterPut(e, id, Reserved(now + lim.retentionMs));
    case Get(id) =>
    case _ => PutWithinCapacity(e, op, now, lim);
  }

  lemma TransferWithinCapacity(e: Entries, op: StoreOp, now: int, lim: Limits)
    requires |e| <= lim.maxRecords && op.Transfer?
    ensures |Apply(e, op, now, lim).0| <= lim.maxRecords
  {
    if op.source in e && op.destination !in e {
      SizeAfterDelete(e, op.source);
      SizeAfterPut(e - {op.source}, op.destination, e[op.source]);
    }
  }

  lemma PutWithinCapacity(e: Entries, op: StoreOp, now: int, lim: Limits)
    requires |e| <= lim.maxRecords
    requires !op.Reserve? && !op.Transfer? && !op.Get? && !op.Delete?
    ensures |Apply(e, op, now, lim).0| <= lim.maxRecords
  {
    var after := Apply(e, op, now, lim).0;
    if after != e {
      SizeAfterPut(e, op.id, after[op.id]);
    }
  }

  /** A store never holds more entries than its limit. */
  lemma CapacityHolds(e: Entries, op: StoreOp, now: int, lim: Limits)
    requires |e| <= lim.maxRecords
    ensures |MemoryApply(e, op, now, lim).0| <= lim.maxRecords
    ensures |TableApply(e, op, now, lim).0| <= lim.maxRecords
  {
    LiveIsSmaller(e, now);
    ApplyWithinCapacity(Live(e, now), op, now, lim);
    if op.Delete? {
      SizeAfterDelete(e, op.id);
    }
  }

  /** A delivered record never changes: it stays as it is until it expires or is deleted. */
  lemma DeliveredIsFinal(e: Entries, op: StoreOp, now: int, lim: Limits, id: SessionId)
    requires id in e && e[id].Held? && e[id].record.state.Delivered?
    ensures forall e' | e' == MemoryApply(e, op, now, lim).0 || e' == TableApply(e, op, now, lim).0 ::
      e[id].expiresAt > now && op != Delete(id) ==> id in e' && e'[id] == e[id]
  {
  }

  /** A record becomes delivered only by an acknowledgement of exactly its pending generation. */
  lemma DeliveredOnlyByAcknowledgement(e: Entries, op: StoreOp, now: int, lim: Limits, id: SessionId)
    requires
      var after := RecordAt(TableApply(e, op, now, lim).0, id);
      after.Some? && after.value.state.Delivered? && RecordAt(e, id) != after
    ensures
      && op.Acknowledge? && op.id == id && RecordAt(e, id).Some?
      && RecordAt(e, id).value.state.Pending?
      && RecordAt(e, id).value.device == op.device && SourceOf(RecordAt(e, id).value) == op.expected
  {
  }

  // --- What every operation answers -----------------------------------------------------------------

  predicate Lives(e: Entries, id: SessionId, now: int) {
    id in e && now < e[id].expiresAt
  }

  predicate HoldsRecord(e: Entries, id: SessionId, now: int) {
    Lives(e, id, now) && e[id].Held?
  }

  /** Of the other entries exactly the unexpired ones are left, as they were. */
  ghost predicate OthersStay(e: Entries, e': Entries, id: SessionId, now: int) {
    forall x | x != id :: (x in e' <==> Lives(e, x, now)) && (x in e' ==> e'[x] == e[x])
  }

  ghost predicate AllStay(e: Entries, e': Entries, now: int) {
    forall x :: (x in e' <==> Lives(e, x, now)) && (x in e' ==> e'[x] == e[x])
  }

  /** There is no room for one more entry. */
  predicate Full(e: Entries, now: int, lim: Limits) {
    |set id | id in e && now < e[id].expiresAt| >= lim.maxRecords
  }

  lemma LiveCount(e: Entries, now: int)
    ensures |Live(e, now)| == |set id | id in e && now < e[id].expiresAt|
  {
    assert Live(e, now).Keys == set id | id in e && now < e[id].expiresAt;
  }

  /** The record is handed out and stored, to be kept for the whole retention from now on. */
  ghost predicate Stores(e: Entries, e': Entries, r: StoreResponse, id: SessionId, record: Record, now: int, lim: Limits) {
    && r == Found(Some(record)) && id in e' && e'[id] == Held(record, now + lim.retentionMs)
    && OthersStay(e, e', id, now)
  }

  ghost predicate Refuses(e: Entries, e': Entries, r: StoreResponse, now: int) {
    r == Found(None) && AllStay(e, e', now)
  }

  /** Reserving succeeds for a session with an entry, which stays as it is, and while there is room. */
  lemma ReserveAnswersExactly(e: Entries, id: SessionId, now: int, lim: Limits)
    ensures
      var (e', r) := TableApply(e, Reserve(id), now, lim);
      && (r == Flag(true) <==> Lives(e, id, now) || !Full(e, now, lim))
      && (r == Flag(false) <==> !Lives(e, id, now) && Full(e, now, lim))
      && (Lives(e, id, now) || r == Flag(false) ==> AllStay(e, e', now))
      && (!Lives(e, id, now) && r == Flag(true) ==>
            id in e' && e'[id] == Reserved(now + lim.retentionMs) && OthersStay(e, e', id, now))
  {
    LiveCount(e, now);
  }

  /**
   * A transfer moves an unexpired reservation, with the expiry it has, to a session without an
   * entry; it creates and prolongs nothing, and in any other case changes nothing.
   */
  lemma TransferAnswersExactly(e: Entries, source: SessionId, destination: SessionId, now: int, lim: Limits)
    ensures
      var (e', r) := TableApply(e, Transfer(source, destination), now, lim);
      && (r == Flag(true) <==>
            Lives(e, source, now) && e[source].Reserved? && !Lives(e, destination, now))
      && (r != Flag(true) ==> r == Flag(false) && AllStay(e, e', now))
      && (r == Flag(true) ==>
            && source !in e' && destination in e' && e'[destination] == e[source]
            && (forall x | x != source && x != destination ::
                  (x in e' <==> Lives(e, x, now)) && (x in e' ==> e'[x] == e[x])))
  {
  }

  /** A record is found exactly while it is held and unexpired. */
  lemma GetAnswersExactly(e: Entries, id: SessionId, now: int, lim: Limits)
    ensures
      var (e', r) := TableApply(e, Get(id), now, lim);
      && r == Found(if HoldsRecord(e, id, now) then Some(e[id].record) else None) && AllStay(e, e', now)
  {
  }

  /** Setting pending stores a first record, finds its own again, and refuses to replace any other. */
  lemma SetPendingAnswersExactly(e: Entries, id: SessionId, device: DeviceId, credentialId: CredentialId, version: nat,
                                 now: int, lim: Limits)
    ensures
      var (e', r) := TableApply(e, SetPending(id, device, credentialId, version), now, lim);
      var record := Record(device, credentialId, version, Pending, None);
      if HoldsRecord(e, id, now) then
        var prior := e[id].record;
        var same := prior.state.Pending? && prior.device == device
                    && prior.credentialId == credentialId && prior.version == version;
        r == Found(if same then Some(prior) else None) && AllStay(e, e', now)
      else if !Lives(e, id, now) && Full(e, now, lim) then Refuses(e, e', r, now)
      else Stores(e, e', r, id, record, now, lim)
  {
    LiveCount(e, now);
  }

  /**
   * A recovery begins from the pending record, or from the generation given if there is none;
   * one under way is found again, with the target it has, and a delivered one is refused.
   */
  lemma BeginRecoveryAnswersExactly(e: Entries, id: SessionId, device: DeviceId, credentialId: CredentialId,
                                    version: nat, target: CredentialId, now: int, lim: Limits)
    ensures
      var (e', r) := TableApply(e, BeginRecovery(id, device, credentialId, version, target), now, lim);
      if HoldsRecord(e, id, now) then
        var prior := e[id].record;
        if prior.device != device || prior.state.Delivered? then Refuses(e, e', r, now)
        else if prior.state.Recovering? then r == Found(Some(prior)) && AllStay(e, e', now)
        else
          Stores(e, e', r, id, Record(device, prior.credentialId, prior.version, Recovering, Some(target)), now, lim)
      else if !Lives(e, id, now) && Full(e, now, lim) then Refuses(e, e', r, now)
      else Stores(e, e', r, id, Record(device, credentialId, version, Recovering, Some(target)), now, lim)
  {
    LiveCount(e, now);
  }

  /** The record recovers from `expected`, and `next` is the generation it has reserved. */
  predicate RecoversTo(e: Entries, id: SessionId, device: DeviceId, expected: Generation, next: Generation, now: int) {
    && HoldsRecord(e, id, now)
    && var prior := e[id].record;
       && prior.state.Recovering? && prior.device == device
       && prior.credentialId == expected.credentialId && prior.version == expected.version
       && prior.target == Some(next.credentialId) && next.version == expected.version + 1
  }

  /** A recovery moves on, or finishes, exactly from its recorded source to its reserved target. */
  lemma RecoveriesAnswerExactly(e: Entries, id: SessionId, device: DeviceId, expected: Generation, next: Generation,
                                target: CredentialId, now: int, lim: Limits)
    ensures
      var (e', r) := TableApply(e, AdvanceRecovery(id, device, expected, next, target), now, lim);
      if RecoversTo(e, id, device, expected, next, now)
      then Stores(e, e', r, id, Record(device, next.credentialId, next.version, Recovering, Some(target)), now, lim)
      else Refuses(e, e', r, now)
    ensures
      var (e', r) := TableApply(e, FinishRecovery(id, device, expected, next), now, lim);
      if RecoversTo(e, id, device, expected, next, now)
      then Stores(e, e', r, id, Record(device, next.credentialId, next.version, Pending, None), now, lim)
      else Refuses(e, e', r, now)
  {
  }

  /** An acknowledgement delivers exactly the pending generation, and may be repeated once it has. */
  lemma AcknowledgeAnswersExactly(e: Entries, id: SessionId, device: DeviceId, expected: Generation, now: int, lim: Limits)
    ensures
      var (e', r) := TableApply(e, Acknowledge(id, device, expected), now, lim);
      if HoldsRecord(e, id, now) && e[id].record.device == device && !e[id].record.state.Recovering?
         && e[id].record.credentialId == expected.credentialId && e[id].record.version == expected.version
      then
        if e[id].record.state.Delivered? then r == Found(Some(e[id].record)) && AllStay(e, e', now)
        else Stores(e, e', r, id, e[id].record.(state := Delivered), now, lim)
      else Refuses(e, e', r, now)
  {
  }

  /** A delete removes its own entry and no other. */
  lemma DeleteAnswersExactly(e: Entries, id: SessionId, now: int, lim: Limits)
    ensures
      var (e', r) := TableApply(e, Delete(id), now, lim);
      r == Done && id !in e' && OthersStay(e, e', id, now)
    ensures
      var (e', r) := MemoryApply(e, Delete(id), now, lim);
      r == Done && id !in e' && forall x | x != id :: (x in e' <==> x in e) && (x in e' ==> e'[x] == e[x])
  {
  }

  /** What the in-memory repository answers and keeps unexpired is what the table does, at every operation. */
  lemma MemoryAnswersLikeTable(e: Entries, op: StoreOp, now: int, lim: Limits)
    ensures MemoryApply(e, op, now, lim).1 == TableApply(e, op, now, lim).1
    ensures Live(MemoryApply(e, op, now, lim).0, now) == Live(TableApply(e, op, now, lim).0, now)
  {
    if op.Delete? {
      DeleteCommutes(e, op.id, now);
      LiveTwice(e, now, now);
      DeleteCommutes(Live(e, now), op.id, now);
    }
  }
}
