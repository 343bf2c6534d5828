/**
 * Completion and recovery of one pairing session, one step per await. The durable state is
 * the credential repository and the completion store; the service's progress is lost by a
 * crash. Outside rotations, revocations and issues, deletions and expiries may happen
 * between any two steps. Generated ids come from a supply of fresh names.
 */
module CompletionRecovery {
  import opened Wrappers
  import opened DeviceCredential
  import opened CompletionStore

  const MAX_RECOVERY_STEPS := 16

  /** The session being completed, its device, and the limits of the store. */
  datatype Pairing = Pairing(session: SessionId, device: DeviceId, limits: Limits)

  /** A generation together with the only copy of its secret. */
  datatype Completed = Completed(generation: Generation, secret: Secret)

  /** Where `#complete` and `#recover` stand. `pass` counts turns of the recovery loop. */
  datatype Progress =
    | Idle
    | ReadingPersisted
    | Reserving
    | Issuing
    | StoringPending(issued: Completed)
    | Discarding
    | ReadingSource
    | Beginning(source: Generation)
    | ReadingRecord(pass: nat)
    | ReadingActive(pass: nat, recovery: Record)
    | Advancing(pass: nat, recovery: Record, active: Generation)
    | Rotating(pass: nat, recovery: Record)
    | Finishing(pass: nat, recovery: Record, issued: Completed)
    | Confirming(pass: nat, issued: Completed)
    | Returned(pass: nat, issued: Completed)
    | Failed

  /** `mine` is history: every id this session has recorded, minted or issued. */
  datatype World = World(
    credentials: Store,
    entries: Entries,
    nextId: nat,
    progress: Progress,
    mine: set<CredentialId>)

  const INITIAL := World(EMPTY_STORE, map[], 0, Idle, {})

  function At(w: World, progress: Progress): World {
    w.(progress := progress)
  }

  function StoreCall(p: Pairing, w: World, op: StoreOp, now: int): (World, StoreResponse) {
    var (entries, r) := TableApply(w.entries, op, now, p.limits);
    (w.(entries := entries), r)
  }

  // --- The steps of the service -------------------------------------------------------------------

  function ReadPersisted(p: Pairing, w: World, now: int): World {
    var (w1, r) := StoreCall(p, w, Get(p.session), now);
    match r
    case Found(Some(record)) =>
      if record.state.Delivered? then At(w1, Failed)
      else if record.state.Recovering? then At(w1, ReadingRecord(0))
      else At(w1, Beginning(SourceOf(record)))
    case _ => At(w1, Reserving)
  }

  function ReserveStep(p: Pairing, w: World, now: int): World {
    var (w1, r) := StoreCall(p, w, Reserve(p.session), now);
    At(w1, if r == Flag(true) then Issuing else Failed)
  }

  function IssueStep(p: Pairing, w: World, now: int): World {
    var (store, r) := DeviceCredential.Apply(w.credentials, Issue(p.device, w.nextId, DigestOf(w.nextId), now));
    var w1 := w.(credentials := store, nextId := w.nextId + 1);
    match r
    case Issued(c) =>
      At(w1, StoringPending(Completed(GenerationOf(c), w.nextId))).(mine := w.mine + {c.credentialId})
    case Error(CredentialAlreadyExists) => At(w1, ReadingSource)
    case _ => At(w1, Discarding)
  }

  function StorePendingStep(p: Pairing, w: World, issued: Completed, now: int): World {
    var g := issued.generation;
    var (w1, r) := StoreCall(p, w, SetPending(p.session, p.device, g.credentialId, g.version), now);
    At(w1, if r.Found? && r.record.Some? then Returned(0, issued) else Failed)
  }

  function ReadSourceStep(p: Pairing, w: World): World {
    match ActiveGeneration(w.credentials, p.device)
    case None => At(w, Failed)
    case Some(g) => At(w, Beginning(g)).(mine := w.mine + {g.credentialId})
  }

  /** beginRecovery reserves a freshly generated target before anything is rotated. */
  function BeginStep(p: Pairing, w: World, source: Generation, now: int): World {
    var (w1, r) := StoreCall(p, w,
      BeginRecovery(p.session, p.device, source.credentialId, source.version, w.nextId), now);
    At(w1, if r.Found? && r.record.Some? && r.record.value.state.Recovering? then ReadingRecord(0) else Failed)
      .(nextId := w.nextId + 1, mine := w.mine + {w.nextId})
  }

  function ReadRecordStep(p: Pairing, w: World, pass: nat, now: int): World {
    if pass >= MAX_RECOVERY_STEPS then At(w, Failed)
    else
      var (w1, r) := StoreCall(p, w, Get(p.session), now);
      match r
      case Found(Some(record)) =>
        At(w1, if record.state.Recovering? && record.target.Some? then ReadingActive(pass, record) else Failed)
      case _ => At(w1, Failed)
  }

  function ReadActiveStep(p: Pairing, w: World, pass: nat, recovery: Record): World {
    match ActiveGeneration(w.credentials, p.device)
    case None => At(w, Failed)
    case Some(g) =>
      At(w, if g == SourceOf(recovery) then Rotating(pass, recovery)
            else if IsReservedTarget(recovery, g) then Advancing(pass, recovery, g)
            else Failed)
  }

  function AdvanceStep(p: Pairing, w: World, pass: nat, recovery: Record, active: Generation, now: int): World {
    var (w1, r) := StoreCall(p, w,
      AdvanceRecovery(p.session, p.device, SourceOf(recovery), active, w.nextId), now);
    At(w1, ReadingRecord(pass + 1)).(nextId := w.nextId + 1, mine := w.mine + {w.nextId})
  }

  function RotateStep(p: Pairing, w: World, pass: nat, recovery: Record, now: int): World {
    if recovery.target.None? then At(w, Failed)
    else
      var (store, r) := DeviceCredential.Apply(w.credentials,
        Rotate(p.device, recovery.credentialId, recovery.version, recovery.target.value, DigestOf(w.nextId), now));
      var w1 := w.(credentials := store, nextId := w.nextId + 1);
      match r
      case Issued(c) =>
        At(w1, if IsReservedTarget(recovery, GenerationOf(c))
               then Finishing(pass, recovery, Completed(GenerationOf(c), w.nextId)) else Failed)
      case Error(CredentialUnavailable) => At(w1, ReadingRecord(pass + 1))
      case _ => At(w1, Failed)
  }

  function FinishStep(p: Pairing, w: World, pass: nat, recovery: Record, issued: Completed, now: int): World {
    var (w1, r) := StoreCall(p, w,
      FinishRecovery(p.session, p.device, SourceOf(recovery), issued.generation), now);
    At(w1, if r.Found? && r.record.Some? && r.record.value.state.Pending?
           then Confirming(pass, issued) else ReadingRecord(pass + 1))
  }

  function ConfirmStep(p: Pairing, w: World, pass: nat, issued: Completed): World {
    At(w, if ActiveGeneration(w.credentials, p.device) == Some(issued.generation)
          then Returned(pass, issued) else Failed)
  }

  /** The service runs to its next await. */
  function Proceed(p: Pairing, w: World, now: int): World {
    match w.progress
    case ReadingPersisted => ReadPersisted(p, w, now)
    case Reserving => ReserveStep(p, w, now)
    case Issuing => IssueStep(p, w, now)
    case StoringPending(issued) => StorePendingStep(p, w, issued, now)
    case Discarding => At(StoreCall(p, w, Delete(p.session), now).0, Failed)
    case ReadingSource => ReadSourceStep(p, w)
    case Beginning(source) => BeginStep(p, w, source, now)
    case ReadingRecord(pass) => ReadRecordStep(p, w, pass, now)
    case ReadingActive(pass, recovery) => ReadActiveStep(p, w, pass, recovery)
    case Advancing(pass, recovery, active) => AdvanceStep(p, w, pass, recovery, active, now)
    case Rotating(pass, recovery) => RotateStep(p, w, pass, recovery, now)
    case Finishing(pass, recovery, issued) => FinishStep(p, w, pass, recovery, issued, now)
    case Confirming(pass, issued) => ConfirmStep(p, w, pass, issued)
    case _ => w
  }

  // --- Everything that may happen ------------------------------------------------------------------

  datatype Event =
    | Start
    | Crash
    | Service(now: int)
    | Outside(op: Op)
    | Elsewhere(call: StoreOp, now: int)

  /** Outside mutations use fresh ids, as every caller generates its own. */
  predicate OutsideOp(w: World, op: Op) {
    op.Revoke? || op.credentialId == w.nextId
  }

  /** Store calls of other parties: they never write a record of this session, but may acknowledge it. */
  predicate ForeignOp(p: Pairing, op: StoreOp) {
    match op
    case SetPending(id, _, _, _) => id != p.session
    case BeginRecovery(id, _, _, _, _) => id != p.session
    case AdvanceRecovery(id, _, _, _, _) => id != p.session
    case FinishRecovery(id, _, _, _) => id != p.session
    case _ => true
  }

  function Step(p: Pairing, w: World, e: Event): World {
    match e
    case Start => if w.progress.Idle? || w.progress.Failed? || w.progress.Returned? then At(w, ReadingPersisted) else w
    case Crash => At(w, Idle)
    case Service(now) => Proceed(p, w, now)
    case Outside(op) =>
      if !OutsideOp(w, op) then w
      else w.(credentials := DeviceCredential.Apply(w.credentials, op).0, nextId := w.nextId + 1)
    case Elsewhere(op, now) =>
      if !ForeignOp(p, op) then w else StoreCall(p, w, op, now).0
  }

  function Run(p: Pairing, w: World, es: seq<Event>): World
    decreases |es|
  {
    if es == [] then w else Run(p, Step(p, w, es[0]), es[1..])
  }

  function RecordOf(p: Pairing, w: World): Option<Record> {
    RecordAt(w.entries, p.session)
  }

  // --- Invariant ---------------------------------------------------------------------------------------

  /** A recovery record of this session: its ids are the session's own, and its target is unspent. */
  ghost predicate RecordSound(p: Pairing, credentials: Store, mine: set<CredentialId>, r: Record) {
    && r.device == p.device && r.version >= 1
    && r.credentialId in mine
    && (r.state.Recovering? <==> r.target.Some?)
    && (r.target.Some? ==> r.target.value in mine)
    && (r.target.Some? && r.target.value in credentials.used ==>
          p.device in credentials.byDevice && credentials.byDevice[p.device].credentialId != r.credentialId)
  }

  /** A completed value is the truth about its generation for as long as that is current. */
  ghost predicate CompletedSound(p: Pairing, credentials: Store, mine: set<CredentialId>, c: Completed) {
    && c.generation.credentialId in mine && c.generation.credentialId in credentials.used
    && (p.device in credentials.byDevice
        && credentials.byDevice[p.device].credentialId == c.generation.credentialId ==>
          && GenerationOf(credentials.byDevice[p.device]) == c.generation
          && credentials.byDevice[p.device].digest == DigestOf(c.secret))
  }

  ghost predicate ProgressSound(p: Pairing, w: World) {
    match w.progress
    case Reserving => RecordOf(p, w).None?
    case Issuing => RecordOf(p, w).None?
    case ReadingSource => RecordOf(p, w).None?
    case StoringPending(issued) =>
      RecordOf(p, w).None? && issued.generation.version >= 1
      && CompletedSound(p, w.credentials, w.mine, issued)
    case Beginning(source) =>
      source.credentialId in w.mine && source.version >= 1
      && (RecordOf(p, w).Some? ==> !RecordOf(p, w).value.state.Recovering?)
    case ReadingActive(_, recovery) => RecoverySound(p, w, recovery)
    case Advancing(_, recovery, _) => RecoverySound(p, w, recovery)
    case Rotating(_, recovery) => RecoverySound(p, w, recovery)
    case Finishing(_, recovery, issued) =>
      RecoverySound(p, w, recovery) && CompletedSound(p, w.credentials, w.mine, issued)
    case Confirming(_, issued) => CompletedSound(p, w.credentials, w.mine, issued)
    case Returned(_, issued) => CompletedSound(p, w.credentials, w.mine, issued)
    case _ => true
  }

  /** The snapshot that the loop works on is the stored record, unless that has gone. */
  ghost predicate RecoverySound(p: Pairing, w: World, recovery: Record) {
    && RecordSound(p, w.credentials, w.mine, recovery) && recovery.state.Recovering?
    && (RecordOf(p, w).Some? ==> RecordOf(p, w) == Some(recovery))
  }

  ghost predicate Inv(p: Pairing, w: World) {
    && Valid(w.credentials)
    && (forall id <- w.credentials.used :: id < w.nextId)
    && (forall id <- w.mine :: id < w.nextId)
    && (RecordOf(p, w).Some? ==> RecordSound(p, w.credentials, w.mine, RecordOf(p, w).value))
    && ProgressSound(p, w)
  }

  /** What a foreign store call may do to the record of this session: nothing, remove it, deliver it. */
  lemma ForeignOpEffect(p: Pairing, e: Entries, op: StoreOp, now: int)
    requires ForeignOp(p, op)
    ensures
      var before := RecordAt(e, p.session);
      var after := RecordAt(TableApply(e, op, now, p.limits).0, p.session);
      after == None || after == before
      || (before.Some? && before.value.state.Pending? && after == Some(before.value.(state := Delivered)))
  {
  }

  lemma ForeignStepKeeps(p: Pairing, w: World, op: StoreOp, now: int)
    requires Inv(p, w) && ForeignOp(p, op)
    ensures Inv(p, StoreCall(p, w, op, now).0)
  {
    ForeignOpEffect(p, w.entries, op, now);
  }

  /** Credential changes that mint no id of this session keep what is known about its records. */
  lemma OutsideKeepsRecord(p: Pairing, s: Store, op: Op, mine: set<CredentialId>, r: Record)
    requires Valid(s) && RecordSound(p, s, mine, r)
    requires op.Revoke? || op.credentialId !in mine
    ensures RecordSound(p, DeviceCredential.Apply(s, op).0, mine, r)
  {
  }

  lemma CredentialChangeKeepsCompleted(p: Pairing, s: Store, op: Op, mine: set<CredentialId>, c: Completed)
    requires Valid(s) && CompletedSound(p, s, mine, c)
    ensures CompletedSound(p, DeviceCredential.Apply(s, op).0, mine, c)
  {
  }

  lemma OutsideStepKeeps(p: Pairing, w: World, op: Op)
    requires Inv(p, w) && OutsideOp(w, op)
    ensures Inv(p, Step(p, w, Outside(op)))
  {
    ApplyKeepsValid(w.credentials, op);
    if RecordOf(p, w).Some? {
      OutsideKeepsRecord(p, w.credentials, op, w.mine, RecordOf(p, w).value);
    }
    match w.progress
    case ReadingActive(_, recovery) => OutsideKeepsRecord(p, w.credentials, op, w.mine, recovery);
    case Advancing(_, recovery, _) => OutsideKeepsRecord(p, w.credentials, op, w.mine, recovery);
    case Rotating(_, recovery) => OutsideKeepsRecord(p, w.credentials, op, w.mine, recovery);
    case Finishing(_, recovery, issued) =>
      OutsideKeepsRecord(p, w.credentials, op, w.mine, recovery);
      CredentialChangeKeepsCompleted(p, w.credentials, op, w.mine, issued);
    case StoringPending(issued) => CredentialChangeKeepsCompleted(p, w.credentials, op, w.mine, issued);
    case Confirming(_, issued) => CredentialChangeKeepsCompleted(p, w.credentials, op, w.mine, issued);
    case Returned(_, issued) => CredentialChangeKeepsCompleted(p, w.credentials, op, w.mine, issued);
    case _ =>
  }

  // --- The service keeps the invariant -----------------------------------------------------------------

  lemma StoreOpEffect(p: Pairing, e: Entries, op: StoreOp, now: int)
    requires op.SetPending? || op.BeginRecovery? || op.AdvanceRecovery? || op.FinishRecovery?
    requires op.id == p.session
    ensures
      var (e', r) := TableApply(e, op, now, p.limits);
      var before := RecordAt(e, p.session);
      var after := RecordAt(e', p.session);
      && r.Found?
      && (after == before || after == None || after == r.record)
      && (r.record.Some? ==> after == r.record)
  {
  }

  /** Reading, reserving and deleting leave the session's record or remove it. */
  lemma QuietCallEffect(p: Pairing, e: Entries, op: StoreOp, now: int)
    requires op == Get(p.session) || op == Reserve(p.session) || op == StoreOp.Delete(p.session)
    ensures
      var (e', r) := TableApply(e, op, now, p.limits);
      && (RecordAt(e', p.session) == None || RecordAt(e', p.session) == RecordAt(e, p.session))
      && (op.Get? ==> r == Found(RecordAt(e', p.session)))
  {
  }

  lemma ReadPersistedKeeps(p: Pairing, w: World, now: int)
    requires Inv(p, w)
    ensures Inv(p, ReadPersisted(p, w, now))
  {
    QuietCallEffect(p, w.entries, Get(p.session), now);
  }

  lemma ReadRecordKeeps(p: Pairing, w: World, pass: nat, now: int)
    requires Inv(p, w)
    ensures Inv(p, ReadRecordStep(p, w, pass, now))
  {
    QuietCallEffect(p, w.entries, Get(p.session), now);
  }

  lemma ReservingKeeps(p: Pairing, w: World, now: int)
    requires Inv(p, w) && RecordOf(p, w).None?
    ensures Inv(p, ReserveStep(p, w, now))
  {
    QuietCallEffect(p, w.entries, Reserve(p.session), now);
  }

  lemma ReadsKeep(p: Pairing, w: World, now: int)
    requires Inv(p, w) && (w.progress.ReadingPersisted? || w.progress.Reserving? || w.progress.Discarding?
                           || w.progress.ReadingRecord?)
    ensures Inv(p, Proceed(p, w, now))
  {
    match w.progress
    case ReadingPersisted => ReadPersistedKeeps(p, w, now);
    case ReadingRecord(pass) => ReadRecordKeeps(p, w, pass, now);
    case Reserving => ReservingKeeps(p, w, now);
    case Discarding => QuietCallEffect(p, w.entries, StoreOp.Delete(p.session), now);
  }

  lemma LocalStepsKeep(p: Pairing, w: World, now: int)
    requires Inv(p, w) && (w.progress.ReadingSource? || w.progress.ReadingActive? || w.progress.Confirming?)
    ensures Inv(p, Proceed(p, w, now))
  {
  }

  lemma IssueKeeps(p: Pairing, w: World, now: int)
    requires Inv(p, w) && w.progress.Issuing?
    ensures Inv(p, IssueStep(p, w, now))
  {
    ApplyKeepsValid(w.credentials, Issue(p.device, w.nextId, DigestOf(w.nextId), now));
  }

  lemma StorePendingKeeps(p: Pairing, w: World, now: int)
    requires Inv(p, w) && w.progress.StoringPending?
    ensures Inv(p, StorePendingStep(p, w, w.progress.issued, now))
  {
    var g := w.progress.issued.generation;
    StoreOpEffect(p, w.entries, SetPending(p.session, p.device, g.credentialId, g.version), now);
  }

  lemma BeginKeeps(p: Pairing, w: World, now: int)
    requires Inv(p, w) && w.progress.Beginning?
    ensures Inv(p, BeginStep(p, w, w.progress.source, now))
  {
    var g := w.progress.source;
    StoreOpEffect(p, w.entries, BeginRecovery(p.session, p.device, g.credentialId, g.version, w.nextId), now);
    assert w.nextId !in w.credentials.used;
  }

  lemma AdvanceKeeps(p: Pairing, w: World, now: int)
    requires Inv(p, w) && w.progress.Advancing?
    ensures Inv(p, AdvanceStep(p, w, w.progress.pass, w.progress.recovery, w.progress.active, now))
  {
    var r := w.progress.recovery;
    StoreOpEffect(p, w.entries, AdvanceRecovery(p.session, p.device, SourceOf(r), w.progress.active, w.nextId), now);
    assert w.nextId !in w.credentials.used;
  }

  /** The credential change of a rotation to the reserved target, whether it goes through or not. */
  lemma RotationEffect(p: Pairing, s: Store, mine: set<CredentialId>, r: Record, secret: Secret, now: int)
    requires Valid(s) && RecordSound(p, s, mine, r) && r.target.Some?
    ensures
      var (s', response) := DeviceCredential.Apply(s,
        Rotate(p.device, r.credentialId, r.version, r.target.value, DigestOf(secret), now));
      && Valid(s') && RecordSound(p, s', mine, r)
      && s'.used <= s.used + {r.target.value}
      && (response.Issued? ==> CompletedSound(p, s', mine, Completed(GenerationOf(response.credential), secret)))
  {
    ApplyKeepsValid(s, Rotate(p.device, r.credentialId, r.version, r.target.value, DigestOf(secret), now));
  }

  lemma RotateKeeps(p: Pairing, w: World, now: int)
    requires Inv(p, w) && w.progress.Rotating?
    ensures Inv(p, RotateStep(p, w, w.progress.pass, w.progress.recovery, now))
  {
    RotationEffect(p, w.credentials, w.mine, w.progress.recovery, w.nextId, now);
  }

  lemma FinishKeeps(p: Pairing, w: World, now: int)
    requires Inv(p, w) && w.progress.Finishing?
    ensures Inv(p, FinishStep(p, w, w.progress.pass, w.progress.recovery, w.progress.issued, now))
  {
    var r := w.progress.recovery;
    StoreOpEffect(p, w.entries,
      FinishRecovery(p.session, p.device, SourceOf(r), w.progress.issued.generation), now);
  }

  lemma ServiceKeeps(p: Pairing, w: World, now: int)
    requires Inv(p, w)
    ensures Inv(p, Proceed(p, w, now))
  {
    match w.progress
    case Issuing => IssueKeeps(p, w, now);
    case StoringPending(_) => StorePendingKeeps(p, w, now);
    case Beginning(_) => BeginKeeps(p, w, now);
    case Advancing(_, _, _) => AdvanceKeeps(p, w, now);
    case Rotating(_, _) => RotateKeeps(p, w, now);
    case Finishing(_, _, _) => FinishKeeps(p, w, now);
    case ReadingPersisted => ReadsKeep(p, w, now);
    case Reserving => ReadsKeep(p, w, now);
    case Discarding => ReadsKeep(p, w, now);
    case ReadingRecord(_) => ReadsKeep(p, w, now);
    case ReadingSource => LocalStepsKeep(p, w, now);
    case ReadingActive(_, _) => LocalStepsKeep(p, w, now);
    case Confirming(_, _) => LocalStepsKeep(p, w, now);
    case _ =>
  }

  lemma StepKeeps(p: Pairing, w: World, e: Event)
    requires Inv(p, w)
    ensures Inv(p, Step(p, w, e))
  {
    match e
    case Service(now) => ServiceKeeps(p, w, now);
    case Outside(op) => if OutsideOp(w, op) { OutsideStepKeeps(p, w, op); }
    case Elsewhere(call, now) => if ForeignOp(p, call) { ForeignStepKeeps(p, w, call, now); }
    case _ =>
  }

  lemma {:induction false} RunKeeps(p: Pairing, w: World, es: seq<Event>)
    requires Inv(p, w)
    ensures Inv(p, Run(p, w, es))
    decreases |es|
  {
    if es != [] {
      StepKeeps(p, w, es[0]);
      RunKeeps(p, Step(p, w, es[0]), es[1..]);
    }
  }

  // --- Recovery against outside mutations ----------------------------------------------------------------

  /**
   * The service changes a credential in two ways only: it issues one where none is active and
   * no record exists, or it swaps the recorded source for the reserved target.
   */
  lemma ServiceChangesCredentialOnlyBySwap(p: Pairing, w: World, now: int)
    requires Inv(p, w) && Proceed(p, w, now).credentials != w.credentials
    ensures forall d: DeviceId | d != p.device ::
      GetActive(Proceed(p, w, now).credentials, d) == GetActive(w.credentials, d)
    ensures
      var w' := Proceed(p, w, now);
      || (w.progress.Issuing? && RecordOf(p, w).None? && ActiveGeneration(w.credentials, p.device).None?)
      || (w.progress.Rotating?
          && (RecordOf(p, w).Some? ==> RecordOf(p, w) == Some(w.progress.recovery))
          && ActiveGeneration(w.credentials, p.device) == Some(SourceOf(w.progress.recovery))
          && ActiveGeneration(w'.credentials, p.device).Some?
          && IsReservedTarget(w.progress.recovery, ActiveGeneration(w'.credentials, p.device).value))
  {
  }

  /** A live record whose device is revoked, or carries a generation this session knows nothing of. */
  predicate Lost(p: Pairing, w: World) {
    RecordOf(p, w).Some?
    && match ActiveGeneration(w.credentials, p.device)
       case None => true
       case Some(g) => g.credentialId !in w.mine
  }

  /** Any outside change of the active generation makes a live recovery lose. */
  lemma OutsideMutationWins(p: Pairing, w: World, op: Op)
    requires Inv(p, w) && RecordOf(p, w).Some? && OutsideOp(w, op)
    requires
      ActiveGeneration(DeviceCredential.Apply(w.credentials, op).0, p.device)
      != ActiveGeneration(w.credentials, p.device)
    ensures Lost(p, Step(p, w, Outside(op)))
  {
  }

  /** Lost is for good while the record lives, and a lost service changes no credential. */
  lemma LostStaysLost(p: Pairing, w: World, e: Event)
    requires Inv(p, w) && Lost(p, w) && RecordOf(p, Step(p, w, e)).Some?
    ensures Lost(p, Step(p, w, e))
    ensures e.Service? ==> Step(p, w, e).credentials == w.credentials
  {
    match e
    case Service(now) =>
      match w.progress {
        case Rotating(pass, recovery) =>
        case Beginning(source) =>
          StoreOpEffect(p, w.entries,
            BeginRecovery(p.session, p.device, source.credentialId, source.version, w.nextId), now);
        case Advancing(pass, recovery, active) =>
          StoreOpEffect(p, w.entries,
            AdvanceRecovery(p.session, p.device, SourceOf(recovery), active, w.nextId), now);
        case _ =>
      }
    case _ =>
  }

  predicate RecordLivesThroughout(p: Pairing, w: World, es: seq<Event>)
    decreases |es|
  {
    RecordOf(p, w).Some? && (es != [] ==> RecordLivesThroughout(p, Step(p, w, es[0]), es[1..]))
  }

  /** No service step of the run changed any credential. */
  predicate ServiceLeavesCredentials(p: Pairing, w: World, es: seq<Event>)
    decreases |es|
  {
    es != [] ==>
      && (es[0].Service? ==> Step(p, w, es[0]).credentials == w.credentials)
      && ServiceLeavesCredentials(p, Step(p, w, es[0]), es[1..])
  }

  /**
   * After an outside rotation or revocation, for as long as the record lives, no step of any
   * resume, before or after any number of crashes, changes or re-activates the credential.
   */
  lemma {:induction false} RecoveryNeverOverridesOutsideMutation(p: Pairing, w: World, es: seq<Event>)
    requires Inv(p, w) && Lost(p, w) && RecordLivesThroughout(p, w, es)
    ensures ServiceLeavesCredentials(p, w, es) && Lost(p, Run(p, w, es))
    decreases |es|
  {
    if es != [] {
      LostStaysLost(p, w, es[0]);
      StepKeeps(p, w, es[0]);
      RecoveryNeverOverridesOutsideMutation(p, Step(p, w, es[0]), es[1..]);
    }
  }

  /** At the step that hands a recovered secret out, it verifies against the active credential. */
  lemma ReturnedSecretIsActive(p: Pairing, es: seq<Event>, now: int)
    requires
      var w := Run(p, INITIAL, es);
      w.progress.Confirming? && Proceed(p, w, now).progress.Returned?
    ensures
      var w := Run(p, INITIAL, es);
      var issued := Proceed(p, w, now).progress.issued;
      && ActiveGeneration(w.credentials, p.device) == Some(issued.generation)
      && Verify(w.credentials, p.device, DigestOf(issued.secret)).Some?
  {
    RunKeeps(p, INITIAL, es);
  }

  /** The record waits for the acknowledgement of a generation. */
  predicate RecordsPending(p: Pairing, w: World, g: Generation) {
    RecordOf(p, w) == Some(Record(p.device, g.credentialId, g.version, CompletionStore.Pending, None))
  }

  /**
   * No value is returned that is not recorded: a first one exactly if the store took it, and a
   * rotated one only after its record, and then exactly if it is still active.
   */
  lemma ReturnedValueIsRecorded(p: Pairing, w: World, now: int)
    requires Inv(p, w)
    ensures
      var w' := Proceed(p, w, now);
      && (w.progress.StoringPending? ==>
            if Lives(w.entries, p.session, now) || !Full(w.entries, now, p.limits)
            then w'.progress == Returned(0, w.progress.issued) && RecordsPending(p, w', w.progress.issued.generation)
            else w'.progress.Failed?)
      && (w.progress.Finishing? && w'.progress.Confirming? ==>
            w'.progress.issued == w.progress.issued && RecordsPending(p, w', w.progress.issued.generation))
      && (w.progress.Confirming? ==>
            w'.progress == if ActiveGeneration(w.credentials, p.device) == Some(w.progress.issued.generation)
                           then Returned(w.progress.pass, w.progress.issued) else Failed)
      && (!w.progress.StoringPending? && !w.progress.Confirming? && w'.progress.Returned? ==> w' == w)
  {
    LiveCount(w.entries, now);
    if w.progress.StoringPending? && p.session in w.entries {
      assert w.entries[p.session].Held? ==> RecordOf(p, w).Some?;
    }
  }

  /**
   * A turn of the loop works on the stored record as long as it recovers, for at most sixteen
   * turns; one whose rotation comes too late, or whose advance is taken, begins the next.
   */
  lemma TurnsAreExact(p: Pairing, w: World, now: int)
    requires Inv(p, w)
    ensures
      var w' := Proceed(p, w, now);
      && (w.progress.ReadingRecord? ==>
            w'.progress == if w.progress.pass < 16 && HoldsRecord(w.entries, p.session, now)
                              && w.entries[p.session].record.state.Recovering?
                           then ReadingActive(w.progress.pass, w.entries[p.session].record) else Failed)
      && (w.progress.Rotating? && ActiveGeneration(w.credentials, p.device) != Some(SourceOf(w.progress.recovery)) ==>
            w'.progress == ReadingRecord(w.progress.pass + 1) && w'.credentials == w.credentials)
      && (w.progress.Advancing? ==> w'.progress == ReadingRecord(w.progress.pass + 1))
      && (w.progress.Finishing? && !w'.progress.Confirming? ==> w'.progress == ReadingRecord(w.progress.pass + 1))
  {
  }

  /**
   * On the way to the loop: a device without a credential is issued one, whose secret is handed
   * on to be recorded; one that has a credential is recovered from the generation found, unless
   * the store refuses or that credential has gone.
   */
  lemma FirstStepsAreExact(p: Pairing, w: World, now: int)
    requires Inv(p, w)
    ensures
      var w', active := Proceed(p, w, now), ActiveGeneration(w.credentials, p.device);
      && (w.progress.Issuing? && active.Some? ==> w' == w.(progress := ReadingSource, nextId := w'.nextId))
      && (w.progress.Issuing? && active.None? ==>
            && w'.progress.StoringPending?
            && ActiveGeneration(w'.credentials, p.device) == Some(w'.progress.issued.generation)
            && Verify(w'.credentials, p.device, DigestOf(w'.progress.issued.secret)).Some?)
      && (w.progress.ReadingSource? ==>
            w'.progress == (match active case None => Failed case Some(g) => Beginning(g)) && w'.entries == w.entries)
      && (w.progress.Beginning? ==>
            && (w'.progress == ReadingRecord(0) || w'.progress.Failed?) && w'.credentials == w.credentials
            && (w'.progress.Failed? <==>
                  if HoldsRecord(w.entries, p.session, now) then w.entries[p.session].record.state.Delivered?
                  else !Lives(w.entries, p.session, now) && Full(w.entries, now, p.limits)))
  {
    if w.progress.Issuing? {
      assert w.nextId !in w.credentials.used;
    }
    if w.progress.Beginning? {
      LiveCount(w.entries, now);
      assert RecordOf(p, w).Some? ==> RecordOf(p, w).value.device == p.device;
    }
  }

  predicate Discards(w: World) {
    w.progress.Discarding?
  }

  lemma {:induction false} NothingDiscardedFrom(p: Pairing, w: World, es: seq<Event>)
    requires Inv(p, w) && !Discards(w)
    ensures !Discards(Run(p, w, es))
    decreases |es|
  {
    if es != [] {
      StepKeeps(p, w, es[0]);
      NothingDiscardedFrom(p, Step(p, w, es[0]), es[1..]);
    }
  }

  /** Generated ids never conflict, so the branch that discards a reservation is dead. */
  lemma NothingIsDiscarded(p: Pairing, es: seq<Event>)
    ensures !Discards(Run(p, INITIAL, es))
  {
    NothingDiscardedFrom(p, INITIAL, es);
  }

  // --- The first completion of a session -----------------------------------------------------------------

  /** A completion of a session that has no record yet, for a device that has no credential yet. */
  predicate FirstTime(p: Pairing, w: World) {
    match w.progress
    case ReadingPersisted => RecordOf(p, w).None? && ActiveGeneration(w.credentials, p.device).None?
    case Reserving => RecordOf(p, w).None? && ActiveGeneration(w.credentials, p.device).None?
    case Issuing => RecordOf(p, w).None? && ActiveGeneration(w.credentials, p.device).None?
    case StoringPending(_) => true
    case Discarding => true
    case Returned(_, _) => true
    case Failed => true
    case _ => false
  }

  /** No further completion, no restart, and nobody else issues for the device that the claim created. */
  predicate DuringFirst(p: Pairing, e: Event) {
    && !e.Start? && !e.Crash?
    && (e.Outside? && e.op.Issue? ==> e.op.device != p.device)
  }

  lemma FirstTimeKept(p: Pairing, w: World, e: Event)
    requires FirstTime(p, w) && DuringFirst(p, e)
    ensures FirstTime(p, Step(p, w, e))
  {
    match e
    case Elsewhere(op, now) => if ForeignOp(p, op) { ForeignOpEffect(p, w.entries, op, now); }
    case Service(now) =>
      if w.progress.ReadingPersisted? { QuietCallEffect(p, w.entries, Get(p.session), now); }
      if w.progress.Reserving? { QuietCallEffect(p, w.entries, Reserve(p.session), now); }
    case _ =>
  }

  /**
   * The first completion of a session never comes to a rotation, whatever happens around it.
   * A rotation therefore needs a second one, which starts only when the first is no longer cached.
   */
  lemma {:induction false} FirstCompletionNeverRotates(p: Pairing, w: World, es: seq<Event>)
    requires FirstTime(p, w) && forall i | 0 <= i < |es| :: DuringFirst(p, es[i])
    ensures !Run(p, w, es).progress.Rotating?
    decreases |es|
  {
    if es != [] {
      assert DuringFirst(p, es[0]);
      FirstTimeKept(p, w, es[0]);
      FirstCompletionNeverRotates(p, Step(p, w, es[0]), es[1..]);
    }
  }
}
