/**
 * Crash tolerance: from every durable state that a crash can leave, a resume that nobody
 * disturbs either completes within two turns of the recovery loop or fails without touching
 * the credential, and which of the two happens is read off the durable state and the clock.
 * Entries of other sessions may have expired, or expire meanwhile.
 */
module CompletionCrash {
  import opened Wrappers
  import opened DeviceCredential
  import opened CompletionStore
  import opened CompletionRecovery

  /** The service alone, reading the clock once per step. */
  function RunAlone(p: Pairing, w: World, times: seq<int>): World
    decreases |times|
  {
    if times == [] then w else RunAlone(p, Proceed(p, w, times[0]), times[1..])
  }

  predicate Within(times: seq<int>, first: int, last: int) {
    forall i | 0 <= i < |times| :: first <= times[i] <= last
  }

  /** What is stored of this session, or will be from now on, outlives `last`. */
  predicate Lasts(p: Pairing, w: World, first: int, last: int) {
    && first <= last < first + p.limits.retentionMs
    && (p.session in w.entries ==> w.entries[p.session].expiresAt > last)
  }

  /** The entry of this session has expired before the resume, or outlives it. */
  predicate Settled(p: Pairing, w: World, first: int, last: int) {
    && first <= last < first + p.limits.retentionMs
    && (p.session in w.entries ==>
          w.entries[p.session].expiresAt <= first || w.entries[p.session].expiresAt > last)
  }

  /** The session's record as the first read at a time finds it. */
  function RecordRead(p: Pairing, w: World, now: int): Option<Record> {
    RecordAt(Live(w.entries, now), p.session)
  }

  /** The store takes the session's reservation after the reads at two times. */
  predicate Admits(p: Pairing, w: World, now: int, later: int) {
    var e := Live(Live(w.entries, now), later);
    p.session in e || |e| < p.limits.maxRecords
  }

  /** The durable states from which a resume finds a generation it may hand out or swap. */
  predicate Resumable(p: Pairing, w: World, times: seq<int>)
    requires |times| >= 2
  {
    match RecordRead(p, w, times[0])
    case None => Admits(p, w, times[0], times[1])
    case Some(r) =>
      !r.state.Delivered?
      && match ActiveGeneration(w.credentials, p.device)
         case None => false
         case Some(g) => g == SourceOf(r) || IsReservedTarget(r, g)
  }

  /** The clock is not behind the credential that a rotation replaces. */
  predicate ClockAllows(p: Pairing, w: World, now: int) {
    p.device in w.credentials.byDevice ==> w.credentials.byDevice[p.device].createdAtMs <= now
  }

  /** Which reading of the clock the rotation of a resume uses, if it comes to one. */
  function RotationReading(p: Pairing, w: World, now: int): Option<nat> {
    match ActiveGeneration(w.credentials, p.device)
    case None => None
    case Some(g) =>
      match RecordRead(p, w, now)
      case None => Some(7)
      case Some(r) => Some(if r.state.Pending? then 4 else if g == SourceOf(r) then 3 else 6)
  }

  predicate RotatesInTime(p: Pairing, w: World, times: seq<int>)
    requires |times| >= 8
  {
    match RotationReading(p, w, times[0])
    case None => true
    case Some(i) => ClockAllows(p, w, times[i])
  }

  /** The secret of the active generation was returned within two turns of the loop, and awaits its acknowledgement. */
  ghost predicate Completes(p: Pairing, w: World) {
    && w.progress.Returned? && w.progress.pass <= 1
    && RecordsPending(p, w, w.progress.issued.generation)
    && ActiveGeneration(w.credentials, p.device) == Some(w.progress.issued.generation)
    && Verify(w.credentials, p.device, DigestOf(w.progress.issued.secret)).Some?
  }

  /** The service alone completes, or it fails and leaves every credential as it was. */
  ghost predicate Ends(p: Pairing, w: World, times: seq<int>, completes: bool) {
    var w' := RunAlone(p, w, times);
    if completes then Completes(p, w') else w'.progress.Failed? && w'.credentials == w.credentials
  }

  lemma SessionKept(p: Pairing, w: World, now: int, first: int, last: int)
    requires Lasts(p, w, first, last) && first <= now <= last
    ensures RecordAt(Live(w.entries, now), p.session) == RecordOf(p, w)
    ensures p.session in Live(w.entries, now) <==> p.session in w.entries
    ensures p.session in w.entries ==> Live(w.entries, now)[p.session] == w.entries[p.session]
  {
  }

  /** One more step in front. */
  lemma EndsAfter(p: Pairing, w: World, times: seq<int>, completes: bool)
    requires |times| >= 1 && Ends(p, Proceed(p, w, times[0]), times[1..], completes)
    requires !completes ==> Proceed(p, w, times[0]).credentials == w.credentials
    ensures Ends(p, w, times, completes)
  {
  }

  lemma {:induction false} TerminalStays(p: Pairing, w: World, times: seq<int>)
    requires w.progress.Returned? || w.progress.Failed?
    ensures RunAlone(p, w, times) == w
    decreases |times|
  {
    if times != [] {
      TerminalStays(p, w, times[1..]);
    }
  }

  lemma FailingEnds(p: Pairing, w: World, times: seq<int>)
    requires |times| >= 1 && Proceed(p, w, times[0]).progress.Failed?
    requires Proceed(p, w, times[0]).credentials == w.credentials
    ensures Ends(p, w, times, false)
  {
    TerminalStays(p, Proceed(p, w, times[0]), times[1..]);
  }

  lemma ConfirmingCompletes(p: Pairing, w: World, times: seq<int>)
    requires Inv(p, w) && w.progress.Confirming? && w.progress.pass <= 1 && |times| >= 1
    requires RecordsPending(p, w, w.progress.issued.generation)
    requires ActiveGeneration(w.credentials, p.device) == Some(w.progress.issued.generation)
    ensures Ends(p, w, times, true)
  {
    TerminalStays(p, Proceed(p, w, times[0]), times[1..]);
  }

  lemma FinishingCompletes(p: Pairing, w: World, times: seq<int>, first: int, last: int)
    requires Inv(p, w) && Lasts(p, w, first, last) && Within(times, first, last) && |times| >= 2
    requires w.progress.Finishing? && w.progress.pass <= 1
    requires RecordOf(p, w) == Some(w.progress.recovery)
    requires IsReservedTarget(w.progress.recovery, w.progress.issued.generation)
    requires ActiveGeneration(w.credentials, p.device) == Some(w.progress.issued.generation)
    ensures Ends(p, w, times, true)
  {
    SessionKept(p, w, times[0], first, last);
    FinishKeeps(p, w, times[0]);
    ConfirmingCompletes(p, Proceed(p, w, times[0]), times[1..]);
    EndsAfter(p, w, times, true);
  }

  /** The rotation is refused exactly when the clock is behind the credential. */
  lemma RotatingOutcome(p: Pairing, w: World, times: seq<int>, first: int, last: int)
    requires Inv(p, w) && Lasts(p, w, first, last) && Within(times, first, last) && |times| >= 3
    requires w.progress.Rotating? && w.progress.pass <= 1
    requires RecordOf(p, w) == Some(w.progress.recovery)
    requires ActiveGeneration(w.credentials, p.device) == Some(SourceOf(w.progress.recovery))
    ensures Ends(p, w, times, ClockAllows(p, w, times[0]))
  {
    if ClockAllows(p, w, times[0]) {
      RotateKeeps(p, w, times[0]);
      FinishingCompletes(p, Proceed(p, w, times[0]), times[1..], first, last);
      EndsAfter(p, w, times, true);
    } else {
      FailingEnds(p, w, times);
    }
  }

  /** A turn of the loop that finds the recorded source active comes to the rotation. */
  lemma SourceTurnOutcome(p: Pairing, w: World, times: seq<int>, first: int, last: int)
    requires Inv(p, w) && Lasts(p, w, first, last) && Within(times, first, last) && |times| >= 5
    requires w.progress.ReadingRecord? && w.progress.pass <= 1
    requires RecordOf(p, w).Some? && RecordOf(p, w).value.state.Recovering?
    requires ActiveGeneration(w.credentials, p.device) == Some(SourceOf(RecordOf(p, w).value))
    ensures Ends(p, w, times, ClockAllows(p, w, times[2]))
  {
    SessionKept(p, w, times[0], first, last);
    var w1 := Proceed(p, w, times[0]);
    ReadsKeep(p, w, times[0]);
    var later := times[1..];
    var w2 := Proceed(p, w1, later[0]);
    LocalStepsKeep(p, w1, later[0]);
    RotatingOutcome(p, w2, later[1..], first, last);
    EndsAfter(p, w1, later, ClockAllows(p, w, times[2]));
    EndsAfter(p, w, times, ClockAllows(p, w, times[2]));
  }

  /** Recording an active target makes it the source of the next turn. */
  lemma AdvancingOutcome(p: Pairing, w: World, times: seq<int>, first: int, last: int)
    requires Inv(p, w) && Lasts(p, w, first, last) && Within(times, first, last) && |times| >= 6
    requires w.progress.Advancing? && w.progress.pass == 0
    requires RecordOf(p, w) == Some(w.progress.recovery)
    requires IsReservedTarget(w.progress.recovery, w.progress.active)
    requires ActiveGeneration(w.credentials, p.device) == Some(w.progress.active)
    ensures Ends(p, w, times, ClockAllows(p, w, times[3]))
  {
    SessionKept(p, w, times[0], first, last);
    var w1 := Proceed(p, w, times[0]);
    AdvanceKeeps(p, w, times[0]);
    assert RecordOf(p, w1).Some? && SourceOf(RecordOf(p, w1).value) == w.progress.active;
    SourceTurnOutcome(p, w1, times[1..], first, last);
    EndsAfter(p, w, times, ClockAllows(p, w, times[3]));
  }

  /** A turn that finds the reserved target active records it as the new source, for the next turn. */
  lemma TargetTurnOutcome(p: Pairing, w: World, times: seq<int>, first: int, last: int)
    requires Inv(p, w) && Lasts(p, w, first, last) && Within(times, first, last) && |times| >= 8
    requires w.progress == ReadingRecord(0)
    requires RecordOf(p, w).Some? && RecordOf(p, w).value.state.Recovering?
    requires ActiveGeneration(w.credentials, p.device).Some?
    requires IsReservedTarget(RecordOf(p, w).value, ActiveGeneration(w.credentials, p.device).value)
    ensures Ends(p, w, times, ClockAllows(p, w, times[5]))
  {
    SessionKept(p, w, times[0], first, last);
    var w1 := Proceed(p, w, times[0]);
    ReadsKeep(p, w, times[0]);
    TargetIsNotSource(p, w, RecordOf(p, w).value);
    var later := times[1..];
    var w2 := Proceed(p, w1, later[0]);
    LocalStepsKeep(p, w1, later[0]);
    AdvancingOutcome(p, w2, later[1..], first, last);
    EndsAfter(p, w1, later, ClockAllows(p, w, times[5]));
    EndsAfter(p, w, times, ClockAllows(p, w, times[5]));
  }

  lemma TargetIsNotSource(p: Pairing, w: World, r: Record)
    requires Inv(p, w) && RecordOf(p, w) == Some(r) && ActiveGeneration(w.credentials, p.device).Some?
    requires IsReservedTarget(r, ActiveGeneration(w.credentials, p.device).value)
    ensures ActiveGeneration(w.credentials, p.device) != Some(SourceOf(r))
  {
  }

  /** A turn that finds neither fails and leaves the credential alone. */
  lemma ForeignTurnFails(p: Pairing, w: World, times: seq<int>, first: int, last: int)
    requires Lasts(p, w, first, last) && Within(times, first, last) && |times| >= 2
    requires w.progress == ReadingRecord(0)
    requires RecordOf(p, w).Some? && RecordOf(p, w).value.state.Recovering?
    requires
      var active := ActiveGeneration(w.credentials, p.device);
      active.Some? ==> active.value != SourceOf(RecordOf(p, w).value)
                       && !IsReservedTarget(RecordOf(p, w).value, active.value)
    ensures Ends(p, w, times, false)
  {
    SessionKept(p, w, times[0], first, last);
    var w1 := Proceed(p, w, times[0]);
    if w1.progress.Failed? {
      FailingEnds(p, w, times);
    } else {
      FailingEnds(p, w1, times[1..]);
      EndsAfter(p, w, times, false);
    }
  }

  /** The loop completes when the active generation is its source or its reserved target, in time. */
  predicate LoopSucceeds(p: Pairing, w: World, times: seq<int>)
    requires |times| >= 8
  {
    && RecordOf(p, w).Some? && RecordOf(p, w).value.state.Recovering?
    && match ActiveGeneration(w.credentials, p.device)
       case None => false
       case Some(g) =>
         if g == SourceOf(RecordOf(p, w).value) then ClockAllows(p, w, times[2])
         else IsReservedTarget(RecordOf(p, w).value, g) && ClockAllows(p, w, times[5])
  }

  lemma LoopOutcome(p: Pairing, w: World, times: seq<int>, first: int, last: int)
    requires Inv(p, w) && Lasts(p, w, first, last) && Within(times, first, last) && |times| >= 8
    requires w.progress == ReadingRecord(0)
    requires RecordOf(p, w).Some? && RecordOf(p, w).value.state.Recovering?
    ensures Ends(p, w, times, LoopSucceeds(p, w, times))
  {
    match ActiveGeneration(w.credentials, p.device)
    case None => ForeignTurnFails(p, w, times, first, last);
    case Some(g) =>
      if g == SourceOf(RecordOf(p, w).value) {
        SourceTurnOutcome(p, w, times, first, last);
      } else if IsReservedTarget(RecordOf(p, w).value, g) {
        TargetTurnOutcome(p, w, times, first, last);
      } else {
        ForeignTurnFails(p, w, times, first, last);
      }
  }

  /** Beginning recovery from a pending record, or from the active generation when there is none. */
  lemma BeginningOutcome(p: Pairing, w: World, times: seq<int>, first: int, last: int)
    requires Inv(p, w) && Lasts(p, w, first, last) && Within(times, first, last) && |times| >= 9
    requires w.progress.Beginning? && p.session in w.entries
    requires RecordOf(p, w).Some? ==>
               RecordOf(p, w).value.state.Pending? && SourceOf(RecordOf(p, w).value) == w.progress.source
    ensures Ends(p, w, times,
                 ActiveGeneration(w.credentials, p.device) == Some(w.progress.source) && ClockAllows(p, w, times[3]))
  {
    SessionKept(p, w, times[0], first, last);
    var w1 := Proceed(p, w, times[0]);
    BeginKeeps(p, w, times[0]);
    assert RecordOf(p, w1)
        == Some(Record(p.device, w.progress.source.credentialId, w.progress.source.version, Recovering, Some(w.nextId)));
    assert w.nextId !in w.credentials.used;
    LoopOutcome(p, w1, times[1..], first, last);
    var ok := ActiveGeneration(w.credentials, p.device) == Some(w.progress.source) && ClockAllows(p, w, times[3]);
    assert LoopSucceeds(p, w1, times[1..]) == ok;
    EndsAfter(p, w, times, ok);
  }

  /** A first credential needs no rotation; one that exists is recovered. */
  lemma IssuingOutcome(p: Pairing, w: World, times: seq<int>, first: int, last: int)
    requires Inv(p, w) && Lasts(p, w, first, last) && Within(times, first, last) && |times| >= 11
    requires w.progress.Issuing? && p.session in w.entries
    ensures Ends(p, w, times,
                 ActiveGeneration(w.credentials, p.device).Some? ==> ClockAllows(p, w, times[5]))
  {
    var w1 := Proceed(p, w, times[0]);
    IssueKeeps(p, w, times[0]);
    assert w.nextId !in w.credentials.used;
    var later := times[1..];
    if ActiveGeneration(w.credentials, p.device).None? {
      IssuedCompletes(p, w1, later, first, last);
      EndsAfter(p, w, times, true);
    } else {
      var ok := ClockAllows(p, w, times[5]);
      LocalStepsKeep(p, w1, later[0]);
      BeginningOutcome(p, Proceed(p, w1, later[0]), later[1..], first, last);
      EndsAfter(p, w1, later, ok);
      EndsAfter(p, w, times, ok);
    }
  }

  lemma IssuedCompletes(p: Pairing, w: World, times: seq<int>, first: int, last: int)
    requires Inv(p, w) && Lasts(p, w, first, last) && Within(times, first, last) && |times| >= 1
    requires w.progress.StoringPending? && p.session in w.entries
    requires ActiveGeneration(w.credentials, p.device) == Some(w.progress.issued.generation)
    ensures Ends(p, w, times, true)
  {
    SessionKept(p, w, times[0], first, last);
    TerminalStays(p, Proceed(p, w, times[0]), times[1..]);
  }

  /** With no record, the service needs room for its reservation. */
  lemma ReservingOutcome(p: Pairing, w: World, times: seq<int>, first: int, last: int)
    requires Inv(p, w) && Lasts(p, w, first, last) && Within(times, first, last) && |times| >= 12
    requires w.progress.Reserving? && RecordOf(p, w).None?
    ensures
      var e := Live(w.entries, times[0]);
      Ends(p, w, times, (p.session in e || |e| < p.limits.maxRecords)
                        && (ActiveGeneration(w.credentials, p.device).Some? ==> ClockAllows(p, w, times[6])))
  {
    SessionKept(p, w, times[0], first, last);
    var e := Live(w.entries, times[0]);
    var w1 := Proceed(p, w, times[0]);
    ReservingKeeps(p, w, times[0]);
    if p.session in e || |e| < p.limits.maxRecords {
      IssuingOutcome(p, w1, times[1..], first, last);
      EndsAfter(p, w, times, ActiveGeneration(w.credentials, p.device).Some? ==> ClockAllows(p, w, times[6]));
    } else {
      FailingEnds(p, w, times);
    }
  }

  /** The first read of a resume decides where it enters the machine. */
  lemma ResumeOutcome(p: Pairing, w: World, times: seq<int>, first: int, last: int)
    requires Inv(p, w) && Settled(p, w, first, last) && Within(times, first, last) && |times| >= 13
    requires w.progress.ReadingPersisted?
    ensures Ends(p, w, times, Resumable(p, w, times) && RotatesInTime(p, w, times))
  {
    var w1 := Proceed(p, w, times[0]);
    ReadsKeep(p, w, times[0]);
    assert w1.entries == Live(w.entries, times[0]) && w1.credentials == w.credentials;
    assert Lasts(p, w1, first, last);
    var ok := Resumable(p, w, times) && RotatesInTime(p, w, times);
    match RecordRead(p, w, times[0])
    case None =>
      ReservingOutcome(p, w1, times[1..], first, last);
      EndsAfter(p, w, times, ok);
    case Some(r) =>
      if r.state.Delivered? {
        FailingEnds(p, w, times);
      } else if r.state.Recovering? {
        LoopOutcome(p, w1, times[1..], first, last);
        RecoveringSucceeds(p, w, w1, times, r);
        EndsAfter(p, w, times, ok);
      } else {
        BeginningOutcome(p, w1, times[1..], first, last);
        EndsAfter(p, w, times, ok);
      }
  }

  lemma RecoveringSucceeds(p: Pairing, w: World, w1: World, times: seq<int>, r: Record)
    requires |times| >= 13 && RecordRead(p, w, times[0]) == Some(r) && r.state.Recovering?
    requires RecordOf(p, w1) == Some(r) && w1.credentials == w.credentials
    ensures LoopSucceeds(p, w1, times[1..]) == (Resumable(p, w, times) && RotatesInTime(p, w, times))
  {
  }

  /**
   * After any run and a crash at any await, as long as the session's own entry does not expire
   * during the resume, it succeeds within two turns of the recovery loop exactly when the
   * durable state is resumable and the clock is not behind the credential to be rotated, and
   * otherwise fails with every credential as it was.
   */
  lemma CrashedPairingResumes(p: Pairing, es: seq<Event>, times: seq<int>, first: int, last: int)
    requires Settled(p, Run(p, INITIAL, es), first, last) && Within(times, first, last) && |times| >= 13
    ensures
      var crashed := Step(p, Run(p, INITIAL, es), Crash);
      Ends(p, Step(p, crashed, Start), times, Resumable(p, crashed, times) && RotatesInTime(p, crashed, times))
  {
    RunKeeps(p, INITIAL, es);
    ResumeOutcome(p, Step(p, Step(p, Run(p, INITIAL, es), Crash), Start), times, first, last);
  }
}
