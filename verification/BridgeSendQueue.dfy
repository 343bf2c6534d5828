/**
 * The bounded send queue of the agent's bridge transport. A frame is settled when its promise
 * resolves or rejects. What the socket reports (open or not, bytes buffered, a throwing send)
 * is an input of each step.
 */
module BridgeSendQueue {
  import opened Wrappers

  const MAX_MESSAGE_BYTES := 1_048_576
  const MAX_QUEUED_MESSAGES := 256
  const MAX_QUEUED_BYTES := 4_194_304

  datatype Phase = Idle | Connecting | Handshaking | Ready | Closing | Closed | Broken

  /** `id` is the position of the frame in the order of acceptance. */
  datatype Frame = Frame(id: nat, bytes: nat)

  datatype Settlement = Settlement(id: nat, delivered: bool)

  /** `accepted`, `sent` and `settled` are history, in order. */
  datatype Transport = Transport(
    phase: Phase,
    queue: seq<Frame>,
    queuedBytes: int,
    currentSend: Option<Frame>,
    drainBaseline: nat,
    drainScheduled: bool,
    drainTimer: bool,
    accepted: seq<Frame>,
    sent: seq<Frame>,
    settled: seq<Settlement>)

  const INITIAL := Transport(Idle, [], 0, None, 0, false, false, [], [], [])

  datatype Refusal = HandshakeRequired | SessionClosed | MessageTooLarge | Backpressure

  /**
   * One look at the socket: whether it is open, whether it is closed for good, its buffer
   * around a send, and whether that send threw.
   */
  datatype Reading = Reading(open: bool, gone: bool, before: nat, throws: bool, after: nat)

  function Bytes(queue: seq<Frame>): nat {
    if queue == [] then 0 else queue[0].bytes + Bytes(queue[1..])
  }

  function Rejected(queue: seq<Frame>): seq<Settlement> {
    seq(|queue|, i requires 0 <= i < |queue| => Settlement(queue[i].id, false))
  }

  /** Every waiting frame is rejected. */
  function AfterReject(t: Transport): Transport {
    t.(queue := [], queuedBytes := 0, settled := t.settled + Rejected(t.queue))
  }

  function AfterFinalizeClose(t: Transport): Transport {
    if t.phase.Closed? then t else AfterReject(t.(drainTimer := false)).(phase := Closed)
  }

  /** `socketClosed` tells whether there is no socket left to wait for. */
  function AfterFail(t: Transport, socketClosed: bool): Transport {
    if t.phase.Closed? || t.phase.Closing? then t
    else
      var failed := AfterReject(t.(phase := Broken, drainTimer := false));
      if socketClosed then AfterFinalizeClose(failed) else failed
  }

  function AfterClose(t: Transport, socketClosed: bool): Transport {
    if t.phase.Closed? || t.phase.Closing? then t
    else
      var closing := AfterReject(t.(phase := Closing, drainTimer := false));
      if socketClosed then AfterFinalizeClose(closing) else closing
  }

  /** The peer's close frame. */
  function PeerCloses(t: Transport): Transport {
    if t.phase.Ready? then AfterReject(t.(phase := Closing))
    else if t.phase.Handshaking? then t.(phase := Closing)
    else t
  }

  function AfterSend(t: Transport, bytes: nat, buffered: nat): (Transport, Option<Refusal>) {
    if !t.phase.Ready? then
      (t, Some(if t.phase.Idle? || t.phase.Connecting? || t.phase.Handshaking? then HandshakeRequired else SessionClosed))
    else if bytes > MAX_MESSAGE_BYTES then (t, Some(MessageTooLarge))
    else
      var currentBytes := if t.currentSend.Some? then t.currentSend.value.bytes else 0;
      if |t.queue| >= MAX_QUEUED_MESSAGES
         || t.queuedBytes - currentBytes + Max(buffered, currentBytes) + bytes > MAX_QUEUED_BYTES
      then (t, Some(Backpressure))
      else
        var frame := Frame(|t.accepted|, bytes);
        (t.(queue := t.queue + [frame], queuedBytes := t.queuedBytes + bytes,
            accepted := t.accepted + [frame], drainScheduled := true), None)
  }

  function ShiftAndResolve(t: Transport): Transport
    requires t.queue != []
  {
    t.(queue := t.queue[1..], queuedBytes := t.queuedBytes - t.queue[0].bytes,
       settled := t.settled + [Settlement(t.queue[0].id, true)])
  }

  /** One turn of the drain loop; it tells whether there may be another. */
  function DrainTurn(t: Transport, r: Reading): (Transport, bool)
    requires t.queue != []
  {
    var item := t.queue[0];
    if !r.open then (AfterFail(t, r.gone), false)
    else if r.before + item.bytes > MAX_QUEUED_BYTES then (t.(drainTimer := true), false)
    else if r.throws then (AfterFail(AfterReject(t), r.gone), false)
    else
      var t1 := t.(sent := t.sent + [item]);
      if r.after > r.before then
        (t1.(currentSend := Some(item), drainBaseline := r.before, drainTimer := true), false)
      else (ShiftAndResolve(t1), true)
  }

  /** The drain loop; each turn looks at the socket once. */
  function DrainLoop(t: Transport, readings: seq<Reading>): Transport
    requires |readings| >= |t.queue|
    decreases |t.queue|
  {
    if !t.phase.Ready? || t.queue == [] then t
    else
      var (t1, again) := DrainTurn(t, readings[0]);
      if again then DrainLoop(t1, readings[1..]) else t1
  }

  function AfterDrain(t: Transport, readings: seq<Reading>): Transport
    requires |readings| >= |t.queue|
  {
    var t1 := t.(drainScheduled := false);
    if t.currentSend.Some? then t1 else DrainLoop(t1, readings)
  }

  /** The poll of a native buffer that had not drained. */
  function AfterPoll(t: Transport, open: bool, buffered: nat): Transport {
    var t1 := t.(drainTimer := false);
    if !t.phase.Ready? || t.currentSend.None? || !open then t1
    else if buffered > t.drainBaseline then t1.(drainTimer := true)
    else
      var t2 := t1.(currentSend := None, drainBaseline := 0, drainScheduled := true);
      if t.queue != [] && t.queue[0] == t.currentSend.value then ShiftAndResolve(t2)
      else t2.(settled := t2.settled + [Settlement(t.currentSend.value.id, true)])
  }

  datatype Event =
    | Starts
    | Opens(helloBytes: nat)
    | HelloAcknowledged
    | Sends(bytes: nat, buffered: nat)
    | Drains(readings: seq<Reading>)
    | Polls(open: bool, buffered: nat)
    | Fails(socketClosed: bool)
    | Closes(socketClosed: bool)
    | PeerClose
    | SocketCloses

  function Step(t: Transport, e: Event): Transport {
    match e
    case Starts => if t.phase.Idle? then t.(phase := Connecting) else t
    case Opens(helloBytes) =>
      if !t.phase.Connecting? then t
      else if helloBytes > MAX_MESSAGE_BYTES then AfterFail(t.(phase := Handshaking), false)
      else t.(phase := Handshaking)
    case HelloAcknowledged => if t.phase.Handshaking? then t.(phase := Ready, drainScheduled := true) else t
    case Sends(bytes, buffered) => AfterSend(t, bytes, buffered).0
    case Drains(readings) => if t.drainScheduled && |readings| >= |t.queue| then AfterDrain(t, readings) else t
    case Polls(open, buffered) => if t.drainTimer then AfterPoll(t, open, buffered) else t
    case Fails(socketClosed) => AfterFail(t, socketClosed)
    case Closes(socketClosed) => AfterClose(t, socketClosed)
    case PeerClose => PeerCloses(t)
    case SocketCloses => AfterFinalizeClose(t)
  }

  function Run(t: Transport, es: seq<Event>): Transport
    decreases |es|
  {
    if es == [] then t else Run(Step(t, es[0]), es[1..])
  }

  // --- Invariant ---------------------------------------------------------------------------------------

  /** How many accepted frames have been settled. */
  function Done(t: Transport): int {
    |t.accepted| - |t.queue|
  }

  /** Frames are of legal size and numbered in the order of acceptance; the queue is the end of that order. */
  predicate InOrder(accepted: seq<Frame>, queue: seq<Frame>) {
    && |queue| <= |accepted|
    && (forall i | 0 <= i < |accepted| :: accepted[i].id == i && accepted[i].bytes <= MAX_MESSAGE_BYTES)
    && (forall i | 0 <= i < |queue| :: queue[i] == accepted[|accepted| - |queue| + i])
  }

  predicate Bounded(queue: seq<Frame>, queuedBytes: int) {
    queuedBytes == Bytes(queue) && queuedBytes <= MAX_QUEUED_BYTES && |queue| <= MAX_QUEUED_MESSAGES
  }

  /** Settlement follows acceptance: each frame once, and only frames that were sent are delivered. */
  predicate SettledInOrder(settled: seq<Settlement>, count: int, sentCount: nat) {
    && |settled| == count
    && (forall i | 0 <= i < |settled| :: settled[i].id == i && (settled[i].delivered ==> i < sentCount))
  }

  predicate Inv(t: Transport) {
    && InOrder(t.accepted, t.queue)
    && Bounded(t.queue, t.queuedBytes)
    && SettledInOrder(t.settled, Done(t), |t.sent|)
    && t.sent <= t.accepted
    && (!t.phase.Ready? ==> t.queue == [])
    && (t.phase.Idle? || t.phase.Connecting? || t.phase.Handshaking? ==> t.currentSend.None? && t.accepted == [])
    && (t.phase.Ready? ==>
          && |t.sent| == Done(t) + (if t.currentSend.Some? then 1 else 0)
          && (t.currentSend.Some? ==> t.queue != [] && t.queue[0] == t.currentSend.value))
  }

  lemma {:induction false} BytesOfSnoc(queue: seq<Frame>, f: Frame)
    ensures Bytes(queue + [f]) == Bytes(queue) + f.bytes
    decreases |queue|
  {
    if queue == [] {
      assert queue + [f] == [f];
    } else {
      assert (queue + [f])[1..] == queue[1..] + [f];
      BytesOfSnoc(queue[1..], f);
    }
  }

  lemma RejectKeeps(t: Transport, phase: Phase, timer: bool)
    requires Inv(t) && (phase.Closing? || phase.Closed? || phase.Broken?)
    ensures Inv(AfterReject(t.(phase := phase, drainTimer := timer)))
  {
  }

  lemma FinalizeKeeps(t: Transport)
    requires Inv(t)
    ensures Inv(AfterFinalizeClose(t))
  {
    RejectKeeps(t, Closed, false);
    if !t.phase.Closed? {
      assert AfterFinalizeClose(t) == AfterReject(t.(phase := Closed, drainTimer := false));
    }
  }

  lemma FailKeeps(t: Transport, socketClosed: bool)
    requires Inv(t)
    ensures Inv(AfterFail(t, socketClosed)) && Inv(AfterClose(t, socketClosed))
  {
    RejectKeeps(t, Broken, false);
    RejectKeeps(t, Closing, false);
    FinalizeKeeps(AfterReject(t.(phase := Broken, drainTimer := false)));
    FinalizeKeeps(AfterReject(t.(phase := Closing, drainTimer := false)));
  }

  lemma InOrderOfSnoc(accepted: seq<Frame>, queue: seq<Frame>, bytes: nat)
    requires InOrder(accepted, queue) && bytes <= MAX_MESSAGE_BYTES
    ensures InOrder(accepted + [Frame(|accepted|, bytes)], queue + [Frame(|accepted|, bytes)])
  {
  }

  lemma SendKeeps(t: Transport, bytes: nat, buffered: nat)
    requires Inv(t)
    ensures Inv(AfterSend(t, bytes, buffered).0)
  {
    BytesOfSnoc(t.queue, Frame(|t.accepted|, bytes));
    if bytes <= MAX_MESSAGE_BYTES {
      InOrderOfSnoc(t.accepted, t.queue, bytes);
    }
  }

  /** The head frame is the next one to be sent. */
  lemma HeadIsNext(t: Transport)
    requires Inv(t) && t.phase.Ready? && t.queue != [] && t.currentSend.None?
    ensures t.sent + [t.queue[0]] <= t.accepted
  {
    assert t.queue[0] == t.accepted[|t.sent|];
  }

  lemma HeadSentKeeps(t: Transport, baseline: nat)
    requires Inv(t) && t.phase.Ready? && t.queue != [] && t.currentSend.None?
    ensures Inv(t.(sent := t.sent + [t.queue[0]], currentSend := Some(t.queue[0]), drainBaseline := baseline,
                   drainTimer := true))
    ensures Inv(ShiftAndResolve(t.(sent := t.sent + [t.queue[0]])))
  {
    HeadIsNext(t);
  }

  /** Rejecting the queue before failing changes nothing: failing finds it empty. */
  lemma RejectTwice(t: Transport, socketClosed: bool)
    requires t.phase.Ready?
    ensures AfterFail(AfterReject(t), socketClosed) == AfterFail(t, socketClosed)
  {
    assert AfterReject(AfterReject(t).(phase := Broken, drainTimer := false))
        == AfterReject(t.(phase := Broken, drainTimer := false));
  }

  lemma DrainTurnKeeps(t: Transport, r: Reading)
    requires Inv(t) && t.phase.Ready? && t.queue != [] && t.currentSend.None?
    ensures
      var (t', again) := DrainTurn(t, r);
      Inv(t') && (again ==> t'.currentSend.None?)
  {
    FailKeeps(t, r.gone);
    RejectTwice(t, r.gone);
    HeadSentKeeps(t, r.before);
  }

  lemma {:induction false} DrainLoopKeeps(t: Transport, readings: seq<Reading>)
    requires Inv(t) && t.currentSend.None? && |readings| >= |t.queue|
    ensures Inv(DrainLoop(t, readings))
    decreases |t.queue|
  {
    if t.phase.Ready? && t.queue != [] {
      DrainTurnKeeps(t, readings[0]);
      var (t1, again) := DrainTurn(t, readings[0]);
      if again {
        DrainLoopKeeps(t1, readings[1..]);
      }
    }
  }

  lemma PollKeeps(t: Transport, open: bool, buffered: nat)
    requires Inv(t)
    ensures Inv(AfterPoll(t, open, buffered))
  {
  }

  lemma OpeningKeeps(t: Transport, helloBytes: nat)
    requires Inv(t)
    ensures Inv(Step(t, Opens(helloBytes)))
  {
    if t.phase.Connecting? {
      FailKeeps(t.(phase := Handshaking), false);
    }
  }

  lemma {:induction false} DrainKeeps(t: Transport, readings: seq<Reading>)
    requires Inv(t)
    ensures Inv(Step(t, Drains(readings)))
  {
    if t.drainScheduled && |readings| >= |t.queue| && t.currentSend.None? {
      DrainLoopKeeps(t.(drainScheduled := false), readings);
    }
  }

  lemma StepKeeps(t: Transport, e: Event)
    requires Inv(t)
    ensures Inv(Step(t, e))
  {
    match e
    case Sends(bytes, buffered) => SendKeeps(t, bytes, buffered);
    case Drains(readings) => DrainKeeps(t, readings);
    case Polls(open, buffered) => PollKeeps(t, open, buffered);
    case Fails(socketClosed) => FailKeeps(t, socketClosed);
    case Closes(socketClosed) => FailKeeps(t, socketClosed);
    case Opens(helloBytes) => OpeningKeeps(t, helloBytes);
    case PeerClose => RejectKeeps(t, Closing, t.drainTimer);
    case SocketCloses => FinalizeKeeps(t);
    case _ =>
  }

  lemma {:induction false} RunKeeps(t: Transport, es: seq<Event>)
    requires Inv(t)
    ensures Inv(Run(t, es))
    decreases |es|
  {
    if es != [] {
      StepKeeps(t, es[0]);
      RunKeeps(Step(t, es[0]), es[1..]);
    }
  }

  // --- Results -----------------------------------------------------------------------------------------

  /** The queue never holds more than 256 frames or 4 MiB, and its byte count is exact. */
  lemma QueueIsBounded(es: seq<Event>)
    ensures Bounded(Run(INITIAL, es).queue, Run(INITIAL, es).queuedBytes)
  {
    RunKeeps(INITIAL, es);
  }

  /** Frames reach the socket in the order they were accepted, each at most once. */
  lemma FramesAreSentInOrder(es: seq<Event>)
    ensures
      var t := Run(INITIAL, es);
      && t.sent <= t.accepted
      && (forall i, j | 0 <= i < j < |t.sent| :: t.sent[i].id < t.sent[j].id)
  {
    RunKeeps(INITIAL, es);
    var t := Run(INITIAL, es);
    forall i | 0 <= i < |t.sent| ensures t.sent[i].id == i {
      assert t.sent[i] == t.accepted[i];
    }
  }

  /**
   * Every accepted frame is settled at most once and in order, it is delivered only if it was
   * sent, and it is still unsettled exactly while it waits in the queue of a ready transport.
   */
  lemma FramesAreSettledOnce(es: seq<Event>)
    ensures
      var t := Run(INITIAL, es);
      && (forall i, j | 0 <= i < j < |t.settled| :: t.settled[i].id < t.settled[j].id)
      && (forall i | 0 <= i < |t.settled| && t.settled[i].delivered :: t.settled[i].id < |t.sent|)
      && |t.accepted| == |t.settled| + |t.queue|
      && (forall i | 0 <= i < |t.queue| :: t.queue[i].id == |t.settled| + i)
      && (!t.phase.Ready? ==> |t.accepted| == |t.settled|)
  {
    RunKeeps(INITIAL, es);
  }

  /** While ready, a frame in flight is the head of the queue, and every frame before it has gone out. */
  lemma InFlightIsHead(es: seq<Event>)
    ensures
      var t := Run(INITIAL, es);
      t.phase.Ready? && t.currentSend.Some? ==>
        && t.queue != [] && t.queue[0] == t.currentSend.value
        && |t.sent| == t.currentSend.value.id + 1
  {
    RunKeeps(INITIAL, es);
  }

  lemma {:induction false} DrainLoopGrows(t: Transport, readings: seq<Reading>)
    requires |readings| >= |t.queue|
    ensures
      var t' := DrainLoop(t, readings);
      t'.accepted == t.accepted && t.sent <= t'.sent && t.settled <= t'.settled
    decreases |t.queue|
  {
    if t.phase.Ready? && t.queue != [] {
      var (t1, again) := DrainTurn(t, readings[0]);
      if again {
        DrainLoopGrows(t1, readings[1..]);
      }
    }
  }

  /** What was accepted, sent or settled stays so. */
  lemma HistoryGrows(t: Transport, e: Event)
    ensures t.accepted <= Step(t, e).accepted && t.sent <= Step(t, e).sent && t.settled <= Step(t, e).settled
  {
    match e
    case Drains(readings) =>
      if |readings| >= |t.queue| { DrainLoopGrows(t.(drainScheduled := false), readings); }
    case _ =>
  }

  // --- Where the queue stops ---------------------------------------------------------------------------

  /** Something is scheduled that will look at a waiting frame again. */
  predicate Moving(t: Transport) {
    t.phase.Ready? && t.queue != [] ==> if t.currentSend.Some? then t.drainTimer else t.drainScheduled
  }

  predicate Clears(f: Frame, r: Reading) {
    r.open && r.before + f.bytes <= MAX_QUEUED_BYTES && !r.throws && r.after <= r.before
  }

  predicate FindsFull(f: Frame, r: Reading) {
    r.open && r.before + f.bytes > MAX_QUEUED_BYTES
  }

  /** After some frames that go straight through, one finds the native buffer full. */
  predicate HitsFullBuffer(queue: seq<Frame>, readings: seq<Reading>)
    requires |readings| >= |queue|
  {
    exists k | 0 <= k < |queue| :: FindsFull(queue[k], readings[k]) && forall i | 0 <= i < k :: Clears(queue[i], readings[i])
  }

  lemma {:induction false} HitsAtHeadOrLater(queue: seq<Frame>, readings: seq<Reading>)
    requires |readings| >= |queue| && queue != []
    ensures HitsFullBuffer(queue, readings) <==>
              || FindsFull(queue[0], readings[0])
              || (Clears(queue[0], readings[0]) && HitsFullBuffer(queue[1..], readings[1..]))
  {
    var later, laterReadings := queue[1..], readings[1..];
    if HitsFullBuffer(queue, readings) {
      var k :| 0 <= k < |queue| && FindsFull(queue[k], readings[k])
               && forall i | 0 <= i < k :: Clears(queue[i], readings[i]);
      if k > 0 {
        assert Clears(queue[0], readings[0]);
        assert FindsFull(later[k - 1], laterReadings[k - 1]);
        assert forall i | 0 <= i < k - 1 :: Clears(later[i], laterReadings[i]) by {
          forall i | 0 <= i < k - 1 ensures Clears(later[i], laterReadings[i]) {
            assert Clears(queue[i + 1], readings[i + 1]);
          }
        }
      }
    }
    if Clears(queue[0], readings[0]) && HitsFullBuffer(later, laterReadings) {
      var k :| 0 <= k < |later| && FindsFull(later[k], laterReadings[k])
               && forall i | 0 <= i < k :: Clears(later[i], laterReadings[i]);
      assert FindsFull(queue[k + 1], readings[k + 1]);
      forall i | 0 <= i < k + 1 ensures Clears(queue[i], readings[i]) {
        if i > 0 {
          assert Clears(later[i - 1], laterReadings[i - 1]);
        }
      }
    }
  }

  lemma {:induction false} DrainLoopStops(t: Transport, readings: seq<Reading>)
    requires |readings| >= |t.queue| && t.phase.Ready? && t.currentSend.None? && !t.drainScheduled
    ensures Moving(DrainLoop(t, readings)) <==> !HitsFullBuffer(t.queue, readings)
    decreases |t.queue|
  {
    if t.queue != [] {
      HitsAtHeadOrLater(t.queue, readings);
      if Clears(t.queue[0], readings[0]) {
        DrainLoopStops(ShiftAndResolve(t.(sent := t.sent + [t.queue[0]])), readings[1..]);
      }
    }
  }

  /**
   * Whatever the socket reports, the queue stops moving at exactly two kinds of steps: a drain
   * that finds the native buffer full before any frame is in flight, and a poll for a frame in
   * flight on a socket that is no longer open.
   */
  lemma QueueStopsExactly(t: Transport, e: Event)
    requires Inv(t) && Moving(t)
    ensures !Moving(Step(t, e)) <==>
      || (e.Drains? && t.drainScheduled && |e.readings| >= |t.queue| && t.phase.Ready? && t.currentSend.None?
          && HitsFullBuffer(t.queue, e.readings))
      || PollFindsClosed(t, e)
  {
    match e
    case Drains(readings) =>
      if t.drainScheduled && |readings| >= |t.queue| && t.phase.Ready? && t.currentSend.None? {
        DrainLoopStops(t.(drainScheduled := false), readings);
      }
    case _ =>
  }

  predicate PollFindsClosed(t: Transport, e: Event) {
    e.Polls? && t.drainTimer && t.phase.Ready? && t.currentSend.Some? && !e.open
  }

  predicate NeedsNoCaller(e: Event) {
    e.Drains? || e.Polls?
  }

  /** A stopped queue stays as it is, whatever timers fire. */
  lemma {:induction false} StoppedStays(t: Transport, es: seq<Event>)
    requires !Moving(t)
    requires forall i | 0 <= i < |es| :: NeedsNoCaller(es[i])
    ensures
      var t' := Run(t, es);
      !Moving(t') && t'.queue == t.queue && t'.sent == t.sent && t'.settled == t.settled
    decreases |es|
  {
    if es != [] {
      assert NeedsNoCaller(es[0]);
      StoppedStays(Step(t, es[0]), es[1..]);
    }
  }

  // --- The socket is the transport's own ---------------------------------------------------------------

  /*
   * `level` is what the native buffer holds at most: it grows only by the bytes of a send, and
   * every look at it may find less. The socket starts empty and first carries the hello.
   */

  predicate ReadingsPossible(t: Transport, level: nat, readings: seq<Reading>)
    requires |readings| >= |t.queue|
    decreases |t.queue|
  {
    t.phase.Ready? && t.queue != [] ==>
      var r := readings[0];
      && r.before <= level && r.after <= r.before + t.queue[0].bytes
      && var (t1, again) := DrainTurn(t, r);
         again ==> ReadingsPossible(t1, r.after, readings[1..])
  }

  function LevelAfterLoop(t: Transport, level: nat, readings: seq<Reading>): nat
    requires |readings| >= |t.queue|
    decreases |t.queue|
  {
    if !t.phase.Ready? || t.queue == [] then level
    else
      var r := readings[0];
      var (t1, again) := DrainTurn(t, r);
      if again then LevelAfterLoop(t1, r.after, readings[1..])
      else if |t1.sent| > |t.sent| then r.after
      else r.before
  }

  predicate Drainable(t: Transport, readings: seq<Reading>) {
    t.drainScheduled && |readings| >= |t.queue| && t.currentSend.None?
  }

  predicate Possible(t: Transport, level: nat, e: Event) {
    match e
    case Sends(_, buffered) => buffered <= level
    case Polls(_, buffered) => buffered <= level
    case Drains(readings) =>
      Drainable(t, readings) ==> ReadingsPossible(t.(drainScheduled := false), level, readings)
    case _ => true
  }

  function LevelAfter(t: Transport, level: nat, e: Event): nat {
    match e
    case Opens(helloBytes) => if t.phase.Connecting? then helloBytes else level
    case Sends(_, buffered) => buffered
    case Polls(_, buffered) => buffered
    case Drains(readings) =>
      if Drainable(t, readings) then LevelAfterLoop(t.(drainScheduled := false), level, readings) else level
    case _ => level
  }

  /** The socket's reports over a run are those of a buffer that only the transport fills. */
  predicate PossibleRun(t: Transport, level: nat, es: seq<Event>)
    decreases |es|
  {
    es != [] ==> Possible(t, level, es[0]) && PossibleRun(Step(t, es[0]), LevelAfter(t, level, es[0]), es[1..])
  }

  /** Without a frame in flight the buffer holds a hello at most; with one, that and the frame. */
  predicate LevelSmall(t: Transport, level: nat) {
    && (t.phase.Handshaking? ==> level <= MAX_MESSAGE_BYTES)
    && (t.phase.Ready? ==>
          if t.currentSend.None? then level <= MAX_MESSAGE_BYTES
          else t.drainBaseline <= MAX_MESSAGE_BYTES && level <= t.drainBaseline + t.currentSend.value.bytes)
  }

  lemma DrainTurnLevel(t: Transport, level: nat, r: Reading)
    requires Inv(t) && t.phase.Ready? && t.queue != [] && t.currentSend.None? && LevelSmall(t, level)
    requires r.before <= level && r.after <= r.before + t.queue[0].bytes
    ensures
      var (t1, again) := DrainTurn(t, r);
      && !FindsFull(t.queue[0], r)
      && LevelSmall(t1, if |t1.sent| > |t.sent| then r.after else r.before)
      && (again ==> |t1.sent| > |t.sent|)
      && (!again && !t.drainScheduled ==> Moving(t1))
      && t1.drainScheduled == t.drainScheduled
  {
    assert t.queue[0] == t.accepted[|t.sent|];
  }

  lemma {:induction false} DrainLoopLevel(t: Transport, level: nat, readings: seq<Reading>)
    requires Inv(t) && t.currentSend.None? && LevelSmall(t, level) && !t.drainScheduled
    requires |readings| >= |t.queue| && ReadingsPossible(t, level, readings)
    ensures Moving(DrainLoop(t, readings))
    ensures LevelSmall(DrainLoop(t, readings), LevelAfterLoop(t, level, readings))
    decreases |t.queue|
  {
    if t.phase.Ready? && t.queue != [] {
      var (t1, again) := DrainTurn(t, readings[0]);
      DrainTurnKeeps(t, readings[0]);
      DrainTurnLevel(t, level, readings[0]);
      if again {
        DrainLoopLevel(t1, readings[0].after, readings[1..]);
      }
    }
  }

  lemma StepLevel(t: Transport, level: nat, e: Event)
    requires Inv(t) && LevelSmall(t, level) && Possible(t, level, e)
    ensures LevelSmall(Step(t, e), LevelAfter(t, level, e))
  {
    match e
    case Drains(readings) =>
      if Drainable(t, readings) { DrainLoopLevel(t.(drainScheduled := false), level, readings); }
    case _ =>
  }

  /** On its own socket a moving queue stops exactly when a poll finds that socket no longer open. */
  lemma StopsOnlyWithTheSocket(t: Transport, level: nat, e: Event)
    requires Inv(t) && Moving(t) && LevelSmall(t, level) && Possible(t, level, e)
    ensures !Moving(Step(t, e)) <==> PollFindsClosed(t, e)
  {
    match e
    case Drains(readings) =>
      if Drainable(t, readings) { DrainLoopLevel(t.(drainScheduled := false), level, readings); }
    case _ => QueueStopsExactly(t, e);
  }

  lemma {:induction false} MovesWhileOpen(t: Transport, level: nat, es: seq<Event>)
    requires Inv(t) && Moving(t) && LevelSmall(t, level) && PossibleRun(t, level, es)
    requires forall i | 0 <= i < |es| :: es[i].Polls? ==> es[i].open
    ensures Moving(Run(t, es))
    decreases |es|
  {
    if es != [] {
      StepKeeps(t, es[0]);
      StepLevel(t, level, es[0]);
      StopsOnlyWithTheSocket(t, level, es[0]);
      MovesWhileOpen(Step(t, es[0]), LevelAfter(t, level, es[0]), es[1..]);
    }
  }

  /**
   * While the socket is open, a ready transport with waiting frames always has something
   * scheduled that will look at them again: its queue never stops.
   */
  lemma OpenQueueNeverStops(es: seq<Event>)
    requires PossibleRun(INITIAL, 0, es) && forall i | 0 <= i < |es| :: es[i].Polls? ==> es[i].open
    ensures Moving(Run(INITIAL, es))
  {
    MovesWhileOpen(INITIAL, 0, es);
  }

  function LevelOf(t: Transport, level: nat, es: seq<Event>): nat
    decreases |es|
  {
    if es == [] then level else LevelOf(Step(t, es[0]), LevelAfter(t, level, es[0]), es[1..])
  }

  lemma {:induction false} RunLevel(t: Transport, level: nat, es: seq<Event>)
    requires Inv(t) && LevelSmall(t, level) && PossibleRun(t, level, es)
    ensures Inv(Run(t, es)) && LevelSmall(Run(t, es), LevelOf(t, level, es))
    decreases |es|
  {
    if es != [] {
      StepKeeps(t, es[0]);
      StepLevel(t, level, es[0]);
      RunLevel(Step(t, es[0]), LevelAfter(t, level, es[0]), es[1..]);
    }
  }

  /** The branch for a full native buffer is dead: on its own socket no drain ever finds it full. */
  lemma {:induction false} NativeBufferIsNeverFull(es: seq<Event>, readings: seq<Reading>)
    requires PossibleRun(INITIAL, 0, es)
    ensures
      var t := Run(INITIAL, es).(drainScheduled := false);
      && |readings| >= |t.queue| && t.phase.Ready? && t.currentSend.None?
      && ReadingsPossible(t, LevelOf(INITIAL, 0, es), readings)
      ==> !HitsFullBuffer(t.queue, readings)
  {
    RunLevel(INITIAL, 0, es);
    var t := Run(INITIAL, es).(drainScheduled := false);
    var level := LevelOf(INITIAL, 0, es);
    if |readings| >= |t.queue| && t.phase.Ready? && t.currentSend.None? && ReadingsPossible(t, level, readings) {
      DrainLoopLevel(t, level, readings);
      DrainLoopStops(t, readings);
    }
  }

  // --- What every step does ----------------------------------------------------------------------------

  /** The phases that lead up to a ready transport, and being ready. */
  predicate Upwards(phase: Phase) {
    phase.Idle? || phase.Connecting? || phase.Handshaking? || phase.Ready?
  }

  lemma {:induction false} DrainLoopPhase(t: Transport, readings: seq<Reading>)
    requires |readings| >= |t.queue|
    ensures
      var phase := DrainLoop(t, readings).phase;
      phase == t.phase || (t.phase.Ready? && (phase.Broken? || phase.Closed?))
    decreases |t.queue|
  {
    if t.phase.Ready? && t.queue != [] {
      var (t1, again) := DrainTurn(t, readings[0]);
      if again {
        DrainLoopPhase(t1, readings[1..]);
      }
    }
  }

  /** A transport becomes ready in three steps, and a finished one never again; closed is final. */
  lemma PhasesMove(t: Transport, e: Event)
    ensures
      var t' := Step(t, e);
      && (t'.phase.Ready? && !t.phase.Ready? <==> t.phase.Handshaking? && e.HelloAcknowledged?)
      && (t'.phase.Handshaking? && !t.phase.Handshaking? <==>
            t.phase.Connecting? && e.Opens? && e.helloBytes <= MAX_MESSAGE_BYTES)
      && (t'.phase.Connecting? && !t.phase.Connecting? <==> t.phase.Idle? && e.Starts?)
      && (t.phase.Connecting? && e.Opens? && e.helloBytes > MAX_MESSAGE_BYTES ==> t'.phase.Broken?)
      && (e.Sends? || e.Polls? ==> t'.phase == t.phase)
      && (t'.phase.Idle? ==> t.phase.Idle?)
      && (!Upwards(t.phase) ==> !Upwards(t'.phase))
      && (t.phase.Closed? ==> t' == t || e.Drains? || e.Polls?)
      && (t.phase.Closed? ==> t'.phase.Closed?)
  {
    match e
    case Drains(readings) =>
      if |readings| >= |t.queue| { DrainLoopPhase(t.(drainScheduled := false), readings); }
    case _ =>
  }

  /** Failing, closing and a lost socket end a transport, each in its own phase. */
  lemma EndingsMove(t: Transport, gone: bool)
    ensures
      Step(t, Fails(gone)).phase == if t.phase.Closing? || t.phase.Closed? then t.phase
                                    else if gone then Closed else Broken
    ensures
      Step(t, Closes(gone)).phase == if t.phase.Closing? || t.phase.Closed? then t.phase
                                     else if gone then Closed else Closing
    ensures Step(t, PeerClose).phase == if t.phase.Ready? || t.phase.Handshaking? then Closing else t.phase
    ensures Step(t, SocketCloses).phase == Closed
    ensures t.phase.Ready? ==>
      && !Step(t, Fails(gone)).drainTimer && !Step(t, Closes(gone)).drainTimer && !Step(t, SocketCloses).drainTimer
  {
  }

  /** The frames that are still in the hands of the transport alone. */
  function Unsent(t: Transport): seq<Frame> {
    if t.currentSend.Some? && t.queue != [] then t.queue[1..] else t.queue
  }

  /** A send is accepted exactly when it fits, together with all that waits and what the socket still holds. */
  lemma SendIsAcceptedExactly(t: Transport, bytes: nat, buffered: nat)
    requires Inv(t)
    ensures
      var (t', refusal) := AfterSend(t, bytes, buffered);
      var held := match t.currentSend case Some(f) => Max(buffered, f.bytes) case None => buffered;
      var fits := |t.queue| < MAX_QUEUED_MESSAGES && Bytes(Unsent(t)) + held + bytes <= MAX_QUEUED_BYTES;
      && (refusal.None? <==> t.phase.Ready? && bytes <= MAX_MESSAGE_BYTES && fits)
      && (refusal == Some(HandshakeRequired) <==> Upwards(t.phase) && !t.phase.Ready?)
      && (refusal == Some(SessionClosed) <==> !Upwards(t.phase))
      && (refusal == Some(MessageTooLarge) <==> t.phase.Ready? && bytes > MAX_MESSAGE_BYTES)
      && (refusal.Some? ==> t' == t)
      && (refusal.None? ==>
            && t'.queue == t.queue + [Frame(|t.accepted|, bytes)] && t'.accepted == t.accepted + [Frame(|t.accepted|, bytes)]
            && t'.sent == t.sent && t'.settled == t.settled && t'.currentSend == t.currentSend && t'.drainScheduled)
  {
  }

  /**
   * What a drain does whose first `k` frames go straight through while the next does not: they
   * are sent and delivered; the next one goes into flight, waits for room, or ends the transport.
   */
  predicate DrainedTo(t: Transport, readings: seq<Reading>, k: nat, t': Transport)
    requires k <= |t.queue| <= |readings|
  {
    && t'.accepted == t.accepted && t'.drainScheduled == t.drainScheduled
    && SettledOf(t, k, t')
    && if k == |t.queue| then
         && t'.phase.Ready? && t'.queue == [] && t'.currentSend.None? && t'.drainTimer == t.drainTimer
         && t'.sent == t.sent + t.queue && |t'.settled| == |t.settled| + k
       else StopsAt(t, t.queue[k], readings[k], k, t')
  }

  predicate StopsAt(t: Transport, item: Frame, r: Reading, k: nat, t': Transport)
    requires k < |t.queue|
  {
    if FindsFull(item, r) then
      && t'.phase.Ready? && t'.queue == t.queue[k..] && t'.currentSend.None? && t'.drainTimer
      && t'.sent == t.sent + t.queue[..k] && |t'.settled| == |t.settled| + k
    else if !r.open || r.throws then
      && t'.phase == (if r.gone then Closed else Broken) && t'.queue == [] && !t'.drainTimer
      && t'.sent == t.sent + t.queue[..k] && |t'.settled| == |t.settled| + |t.queue|
    else
      && t'.phase.Ready? && t'.queue == t.queue[k..] && t'.currentSend == Some(item) && t'.drainTimer
      && t'.drainBaseline == r.before
      && t'.sent == t.sent + t.queue[..k + 1] && |t'.settled| == |t.settled| + k
  }

  /** Of the frames that waited some are settled, in order, and the first `k` of them as delivered. */
  predicate SettledOf(t: Transport, k: nat, t': Transport) {
    && |t.settled| <= |t'.settled| <= |t.settled| + |t.queue| && t.settled <= t'.settled
    && forall i | |t.settled| <= i < |t'.settled| ::
         t'.settled[i] == Settlement(t.queue[i - |t.settled|].id, i - |t.settled| < k)
  }

  predicate StraightThrough(queue: seq<Frame>, readings: seq<Reading>, k: nat)
    requires k <= |queue| <= |readings|
  {
    && (forall i | 0 <= i < k :: Clears(queue[i], readings[i]))
    && (k < |queue| ==> !Clears(queue[k], readings[k]))
  }

  function HeadCleared(t: Transport): Transport
    requires t.queue != []
  {
    ShiftAndResolve(t.(sent := t.sent + [t.queue[0]]))
  }

  lemma StopsOneLater(t: Transport, item: Frame, r: Reading, k: nat, t': Transport)
    requires t.queue != [] && k + 1 < |t.queue| && StopsAt(HeadCleared(t), item, r, k, t')
    ensures StopsAt(t, item, r, k + 1, t')
  {
    var rest := t.queue[1..];
    assert [t.queue[0]] + rest[..k] == t.queue[..k + 1];
    assert [t.queue[0]] + rest[..k + 1] == t.queue[..k + 2];
    assert rest[k..] == t.queue[k + 1..];
    assert t.sent + [t.queue[0]] + rest[..k] == t.sent + ([t.queue[0]] + rest[..k]);
    assert t.sent + [t.queue[0]] + rest[..k + 1] == t.sent + ([t.queue[0]] + rest[..k + 1]);
  }

  lemma SettledOneMore(t: Transport, k: nat, t': Transport)
    requires t.queue != [] && SettledOf(HeadCleared(t), k, t')
    ensures SettledOf(t, k + 1, t')
  {
    assert HeadCleared(t).settled[|t.settled|] == Settlement(t.queue[0].id, true);
    assert HeadCleared(t).settled[..|t.settled|] == t.settled;
  }

  lemma {:induction false} DrainedOneMore(t: Transport, readings: seq<Reading>, k: nat, t': Transport)
    requires t.queue != [] && k < |t.queue| <= |readings|
    requires DrainedTo(HeadCleared(t), readings[1..], k, t')
    ensures DrainedTo(t, readings, k + 1, t')
  {
    SettledOneMore(t, k, t');
    if k + 1 < |t.queue| {
      StopsOneLater(t, t.queue[k + 1], readings[k + 1], k, t');
    } else {
      assert t.queue == [t.queue[0]] + t.queue[1..];
      assert t.sent + [t.queue[0]] + t.queue[1..] == t.sent + t.queue;
    }
  }

  lemma {:induction false} DrainStopsAtHead(t: Transport, readings: seq<Reading>)
    requires t.phase.Ready? && t.currentSend.None? && 0 < |t.queue| <= |readings|
    requires !Clears(t.queue[0], readings[0])
    ensures
      var t' := DrainLoop(t, readings);
      && t'.accepted == t.accepted && t'.drainScheduled == t.drainScheduled
      && SettledOf(t, 0, t') && StopsAt(t, t.queue[0], readings[0], 0, t')
  {
    RejectTwice(t, readings[0].gone);
  }

  lemma {:induction false} DrainLoopIs(t: Transport, readings: seq<Reading>, k: nat)
    requires t.phase.Ready? && t.currentSend.None? && k <= |t.queue| <= |readings|
    requires StraightThrough(t.queue, readings, k)
    ensures DrainedTo(t, readings, k, DrainLoop(t, readings))
    decreases |t.queue|
  {
    if k > 0 {
      var t1 := HeadCleared(t);
      assert Clears(t.queue[0], readings[0]);
      assert DrainLoop(t, readings) == DrainLoop(t1, readings[1..]);
      forall i | 0 <= i < k - 1 ensures Clears(t1.queue[i], readings[1..][i]) {
        assert Clears(t.queue[i + 1], readings[i + 1]);
      }
      DrainLoopIs(t1, readings[1..], k - 1);
      DrainedOneMore(t, readings, k - 1, DrainLoop(t1, readings[1..]));
    } else if t.queue != [] {
      DrainStopsAtHead(t, readings);
    }
  }

  /** Every drain of a ready transport delivers exactly the frames that go straight through. */
  lemma {:induction false} DrainAnswersExactly(t: Transport, readings: seq<Reading>, k: nat)
    requires t.phase.Ready? && Drainable(t, readings) && k <= |t.queue|
    requires StraightThrough(t.queue, readings, k)
    ensures DrainedTo(t.(drainScheduled := false), readings, k, Step(t, Drains(readings)))
  {
    DrainLoopIs(t.(drainScheduled := false), readings, k);
  }

  /** A poll delivers the frame in flight exactly when the socket is open and its buffer back at the baseline. */
  lemma PollAnswersExactly(t: Transport, open: bool, buffered: nat)
    requires Inv(t) && t.phase.Ready? && t.drainTimer && t.currentSend.Some?
    ensures
      var t' := Step(t, Polls(open, buffered));
      && t'.phase.Ready? && t'.sent == t.sent && t'.accepted == t.accepted
      && (if open && buffered <= t.drainBaseline then
            && t'.settled == t.settled + [Settlement(t.queue[0].id, true)]
            && t'.queue == t.queue[1..] && t'.currentSend.None? && t'.drainScheduled && !t'.drainTimer
          else
            && t'.settled == t.settled && t'.queue == t.queue && t'.currentSend == t.currentSend
            && t'.drainTimer == open && t'.drainScheduled == t.drainScheduled && t'.drainBaseline == t.drainBaseline)
  {
  }

  /** How many frames go straight through. */
  function Straight(queue: seq<Frame>, readings: seq<Reading>): (k: nat)
    requires |readings| >= |queue|
    ensures k <= |queue| && StraightThrough(queue, readings, k)
  {
    if queue == [] || !Clears(queue[0], readings[0]) then 0
    else
      var later := Straight(queue[1..], readings[1..]);
      assert forall i | 0 < i < later + 1 :: Clears(queue[i], readings[i]) by {
        forall i | 0 < i < later + 1 ensures Clears(queue[i], readings[i]) {
          assert Clears(queue[1..][i - 1], readings[1..][i - 1]);
        }
      }
      later + 1
  }

  /** Until the transport ends, every settled frame is settled as delivered. */
  predicate AllDelivered(t: Transport) {
    Upwards(t.phase) ==> forall i | 0 <= i < |t.settled| :: t.settled[i].delivered
  }

  /**
   * What a step settles: frames are rejected only by the step that leaves ready, and then all
   * that waited are settled, as rejected but for those which that step itself has sent.
   */
  predicate SettlesRightly(t: Transport, t': Transport) {
    && |t.settled| <= |t'.settled|
    && (forall i | |t.settled| <= i < |t'.settled| ::
          !t'.settled[i].delivered <==>
            t.phase.Ready? && !t'.phase.Ready? && i - |t.settled| >= |t'.sent| - |t.sent|)
    && (t.phase.Ready? && !t'.phase.Ready? ==> |t'.settled| == |t.settled| + |t.queue|)
  }

  lemma {:induction false} DrainSettlesRightly(t: Transport, readings: seq<Reading>)
    requires Inv(t) && t.phase.Ready? && Drainable(t, readings)
    ensures SettlesRightly(t, Step(t, Drains(readings)))
  {
    var k, t' := Straight(t.queue, readings), Step(t, Drains(readings));
    DrainAnswersExactly(t, readings, k);
  }

  predicate Ends(e: Event) {
    e.Fails? || e.Closes? || e.PeerClose? || e.SocketCloses?
  }

  /** Nothing is sent, and what waits, if anything does, is rejected. */
  predicate OnlyRejects(t: Transport, t': Transport) {
    t'.sent == t.sent && !t'.phase.Ready? && t'.settled == t.settled + Rejected(t.queue)
  }

  lemma RejectsNothingMore(t: Transport)
    ensures AfterReject(AfterReject(t)) == AfterReject(t)
  {
    assert Rejected([]) == [];
  }

  lemma FinalizeOnlyRejects(t: Transport)
    requires t.phase.Closed? ==> t.queue == []
    ensures OnlyRejects(t, AfterFinalizeClose(t))
  {
    assert t.queue == [] ==> Rejected(t.queue) == [];
  }

  lemma FailOnlyRejects(t: Transport, gone: bool)
    requires !t.phase.Ready? ==> t.queue == []
    ensures OnlyRejects(t, AfterFail(t, gone)) && OnlyRejects(t, AfterClose(t, gone))
  {
    assert t.queue == [] ==> Rejected(t.queue) == [];
    RejectsNothingMore(t);
  }

  lemma EndingRejects(t: Transport, e: Event)
    requires Inv(t) && Ends(e)
    ensures
      var t' := Step(t, e);
      t'.sent == t.sent && !t'.phase.Ready? && t'.settled == t.settled + Rejected(t.queue)
  {
    match e
    case Fails(gone) => FailOnlyRejects(t, gone);
    case Closes(gone) => FailOnlyRejects(t, gone);
    case PeerClose => assert t.queue == [] ==> Rejected(t.queue) == [];
    case SocketCloses => FinalizeOnlyRejects(t);
  }

  lemma EndingSettlesRightly(t: Transport, e: Event)
    requires Inv(t) && Ends(e)
    ensures SettlesRightly(t, Step(t, e))
  {
    EndingRejects(t, e);
  }

  lemma PollSettlesRightly(t: Transport, open: bool, buffered: nat)
    requires Inv(t)
    ensures SettlesRightly(t, Step(t, Polls(open, buffered)))
  {
  }

  lemma StepSettlesRightly(t: Transport, e: Event)
    requires Inv(t)
    ensures SettlesRightly(t, Step(t, e))
  {
    if Ends(e) {
      EndingSettlesRightly(t, e);
    } else if e.Polls? {
      PollSettlesRightly(t, e.open, e.buffered);
    } else if e.Drains? && t.phase.Ready? && Drainable(t, e.readings) {
      DrainSettlesRightly(t, e.readings);
    }
  }

  lemma StepKeepsDelivered(t: Transport, e: Event)
    requires Inv(t) && AllDelivered(t)
    ensures AllDelivered(Step(t, e))
  {
    StepSettlesRightly(t, e);
    HistoryGrows(t, e);
    PhasesMove(t, e);
    var t' := Step(t, e);
    if Upwards(t'.phase) {
      forall i | 0 <= i < |t'.settled| ensures t'.settled[i].delivered {
        if i < |t.settled| {
          assert t'.settled[i] == t.settled[i];
        }
      }
    }
  }

  lemma {:induction false} RunKeepsDelivered(t: Transport, es: seq<Event>)
    requires Inv(t) && AllDelivered(t)
    ensures AllDelivered(Run(t, es))
    decreases |es|
  {
    if es != [] {
      StepKeeps(t, es[0]);
      StepKeepsDelivered(t, es[0]);
      RunKeepsDelivered(Step(t, es[0]), es[1..]);
    }
  }

  /**
   * Over every run: while the transport is ready all that is settled was delivered, and a frame
   * is rejected exactly if it waits, and is not sent, at the one step that leaves ready.
   */
  lemma FramesAreRejectedOnlyAtTheEnd(es: seq<Event>, e: Event)
    ensures
      var t := Run(INITIAL, es);
      && (t.phase.Ready? ==> forall i | 0 <= i < |t.settled| :: t.settled[i].delivered)
      && SettlesRightly(t, Step(t, e))
  {
    RunKeeps(INITIAL, es);
    RunKeepsDelivered(INITIAL, es);
    StepSettlesRightly(Run(INITIAL, es), e);
  }

  /** A transport that starts well delivers what is sent over a socket that takes it. */
  lemma DeliveryIsPossible(helloBytes: nat, bytes: nat)
    requires helloBytes <= MAX_MESSAGE_BYTES && bytes <= MAX_MESSAGE_BYTES
    ensures
      var ready := Run(INITIAL, [Starts, Opens(helloBytes), HelloAcknowledged]);
      var t := Run(Step(ready, Sends(bytes, 0)), [Drains([Reading(true, false, 0, false, 0)])]);
      ready.phase.Ready? && ready.drainScheduled && t.phase.Ready? && t.settled == [Settlement(0, true)]
  {
    var ready := INITIAL.(phase := Ready, drainScheduled := true);
    assert Run(INITIAL, [Starts, Opens(helloBytes), HelloAcknowledged]) == ready by {
      var es := [Starts, Opens(helloBytes), HelloAcknowledged];
      assert es[1..] == [Opens(helloBytes), HelloAcknowledged] && es[1..][1..] == [HelloAcknowledged];
      assert Run(INITIAL.(phase := Handshaking), [HelloAcknowledged]) == ready;
    }
    var t, readings := Step(ready, Sends(bytes, 0)), [Reading(true, false, 0, false, 0)];
    DrainAnswersExactly(t, readings, 1);
    assert Run(t, [Drains(readings)]) == Step(t, Drains(readings));
    assert Step(t, Drains(readings)).settled[0] == Settlement(0, true);
  }

  // --- The transport -----------------------------------------------------------------------------------

  class BridgeServerTransport {
    var phase: Phase
    var queue: seq<Frame>
    var queuedBytes: int
    var currentSend: Option<Frame>
    var nativeDrainBaseline: nat
    var drainScheduled: bool
    var nativeDrainTimer: bool
    ghost var accepted: seq<Frame>
    ghost var sent: seq<Frame>
    ghost var settled: seq<Settlement>
    var acceptedCount: nat

    ghost function Contents(): Transport
      reads this
    {
      Transport(phase, queue, queuedBytes, currentSend, nativeDrainBaseline, drainScheduled, nativeDrainTimer,
                accepted, sent, settled)
    }

    ghost predicate Valid()
      reads this
    {
      acceptedCount == |accepted|
    }

    constructor ()
      ensures Valid() && Contents() == INITIAL
    {
      phase, queue, queuedBytes, currentSend := Idle, [], 0, None;
      nativeDrainBaseline, drainScheduled, nativeDrainTimer := 0, false, false;
      accepted, sent, settled, acceptedCount := [], [], [], 0;
    }

    method RejectQueued()
      modifies this`queue, this`queuedBytes, this`settled
      ensures Contents() == AfterReject(old(Contents()))
    {
      var queued := queue;
      queue, queuedBytes := [], 0;
      ghost var before := settled;
      var i := 0;
      while i < |queued|
        invariant 0 <= i <= |queued|
        invariant settled == before + Rejected(queued[..i])
        invariant queue == [] && queuedBytes == 0
      {
        assert Rejected(queued[..i + 1]) == Rejected(queued[..i]) + [Settlement(queued[i].id, false)];
        settled := settled + [Settlement(queued[i].id, false)];
        i := i + 1;
      }
      assert queued[..i] == queued;
    }

    method FinalizeClose()
      modifies this`phase, this`nativeDrainTimer, this`queue, this`queuedBytes, this`settled
      ensures Contents() == AfterFinalizeClose(old(Contents()))
    {
      if phase.Closed? {
        return;
      }
      nativeDrainTimer := false;
      RejectQueued();
      phase := Closed;
    }

    method Fail(socketClosed: bool)
      modifies this`phase, this`nativeDrainTimer, this`queue, this`queuedBytes, this`settled
      ensures Contents() == AfterFail(old(Contents()), socketClosed)
    {
      if phase.Closed? || phase.Closing? {
        return;
      }
      phase, nativeDrainTimer := Broken, false;
      RejectQueued();
      if socketClosed {
        FinalizeClose();
      }
    }

    method Close(socketClosed: bool)
      modifies this`phase, this`nativeDrainTimer, this`queue, this`queuedBytes, this`settled
      ensures Contents() == AfterClose(old(Contents()), socketClosed)
    {
      if phase.Closed? || phase.Closing? {
        return;
      }
      phase, nativeDrainTimer := Closing, false;
      RejectQueued();
      if socketClosed {
        FinalizeClose();
      }
    }

    method Send(bytes: nat, buffered: nat) returns (refusal: Option<Refusal>)
      requires Valid()
      modifies this`queue, this`queuedBytes, this`accepted, this`acceptedCount, this`drainScheduled
      ensures Valid() && (Contents(), refusal) == AfterSend(old(Contents()), bytes, buffered)
    {
      if !phase.Ready? {
        return Some(if phase.Idle? || phase.Connecting? || phase.Handshaking? then HandshakeRequired else SessionClosed);
      }
      if bytes > MAX_MESSAGE_BYTES {
        return Some(MessageTooLarge);
      }
      var currentBytes := match currentSend case None => 0 case Some(f) => f.bytes;
      var queuedWithoutCurrent := queuedBytes - currentBytes;
      var pendingNativeBytes := if buffered < currentBytes then currentBytes else buffered;
      if |queue| >= MAX_QUEUED_MESSAGES || queuedWithoutCurrent + pendingNativeBytes + bytes > MAX_QUEUED_BYTES {
        return Some(Backpressure);
      }
      var frame := Frame(acceptedCount, bytes);
      queue, queuedBytes := queue + [frame], queuedBytes + bytes;
      accepted, acceptedCount := accepted + [frame], acceptedCount + 1;
      drainScheduled := true;
      refusal := None;
    }

    method DrainOne(r: Reading) returns (again: bool)
      requires queue != []
      modifies this`phase, this`nativeDrainTimer, this`queue, this`queuedBytes, this`settled, this`sent,
               this`currentSend, this`nativeDrainBaseline
      ensures (Contents(), again) == DrainTurn(old(Contents()), r)
    {
      var item := queue[0];
      again := false;
      if !r.open {
        Fail(r.gone);
      } else if r.before + item.bytes > MAX_QUEUED_BYTES {
        nativeDrainTimer := true;
      } else if r.throws {
        RejectQueued();
        Fail(r.gone);
      } else {
        sent := sent + [item];
        if r.after > r.before {
          currentSend, nativeDrainBaseline, nativeDrainTimer := Some(item), r.before, true;
        } else {
          queue, queuedBytes := queue[1..], queuedBytes - item.bytes;
          settled := settled + [Settlement(item.id, true)];
          again := true;
        }
      }
    }

    /** One reading of the socket per turn of the loop. */
    method DrainQueue(readings: seq<Reading>)
      requires |readings| >= |queue|
      modifies this`phase, this`nativeDrainTimer, this`queue, this`queuedBytes, this`settled, this`sent,
               this`currentSend, this`nativeDrainBaseline, this`drainScheduled
      ensures Contents() == AfterDrain(old(Contents()), readings)
    {
      drainScheduled := false;
      if currentSend.Some? {
        return;
      }
      ghost var start := Contents();
      var turn, again := 0, true;
      while again && phase.Ready? && queue != []
        invariant 0 <= turn <= |readings|
        invariant again ==> |readings| - turn >= |queue|
        invariant again ==> DrainLoop(Contents(), readings[turn..]) == DrainLoop(start, readings)
        invariant !again ==> Contents() == DrainLoop(start, readings)
        decreases again, |queue|
      {
        assert readings[turn..][0] == readings[turn] && readings[turn..][1..] == readings[turn + 1..];
        again := DrainOne(readings[turn]);
        turn := turn + 1;
      }
    }

    method NativeDrainPoll(open: bool, buffered: nat)
      modifies this`nativeDrainTimer, this`currentSend, this`nativeDrainBaseline, this`queue, this`queuedBytes,
               this`settled, this`drainScheduled
      ensures Contents() == AfterPoll(old(Contents()), open, buffered)
    {
      nativeDrainTimer := false;
      if !phase.Ready? || currentSend.None? || !open {
        return;
      }
      if buffered > nativeDrainBaseline {
        nativeDrainTimer := true;
        return;
      }
      var item := currentSend.value;
      currentSend, nativeDrainBaseline := None, 0;
      if queue != [] && queue[0] == item {
        queue, queuedBytes := queue[1..], queuedBytes - item.bytes;
      }
      settled := settled + [Settlement(item.id, true)];
      drainScheduled := true;
    }
  }
}
