/**
 * The per-device promise-chain mutex. A call creates a promise (its ticket), remembers the
 * tail it must await, and becomes the new tail; the chained tail of a ticket is resolved
 * once the ticket and everything it awaited have been released.
 * The chain of promises is shown to be a FIFO lock per device.
 */
module DeviceCredentialLifecycle {
  import opened Wrappers
  import opened DeviceCredential

  type Ticket = nat

  /** Per call, in arrival order: the device it was made for and what it awaits. */
  datatype Coordinator = Coordinator(
    tails: map<DeviceId, Ticket>,
    device: seq<DeviceId>,
    previous: seq<Option<Ticket>>,
    released: set<Ticket>)

  const IDLE := Coordinator(map[], [], [], {})

  /** The promise `previous.then(() => current)` of ticket t has resolved. */
  predicate TailResolved(c: Coordinator, t: Ticket)
    decreases t
  {
    && t < |c.previous| && t in c.released
    && match c.previous[t]
       case None => true
       case Some(p) => p < t && TailResolved(c, p)
  }

  /** `await previous` of ticket t may continue: the operation of t may run. */
  predicate MayRun(c: Coordinator, t: Ticket)
    requires t < |c.previous|
  {
    match c.previous[t]
    case None => true
    case Some(p) => TailResolved(c, p)
  }

  function Enter(c: Coordinator, d: DeviceId): (Coordinator, Ticket) {
    var t := |c.previous|;
    (Coordinator(
      c.tails[d := t],
      c.device + [d],
      c.previous + [if d in c.tails then Some(c.tails[d]) else None],
      c.released), t)
  }

  /** The `finally` block: it runs whether the operation returned or threw. */
  function Finish(c: Coordinator, d: DeviceId, t: Ticket): Coordinator {
    Coordinator(
      if d in c.tails && c.tails[d] == t then c.tails - {d} else c.tails,
      c.device,
      c.previous,
      c.released + {t})
  }

  class InMemoryDeviceCredentialLifecycleCoordinator {
    var tails: map<DeviceId, Ticket>
    var device: seq<DeviceId>
    var previous: seq<Option<Ticket>>
    var released: set<Ticket>

    function Contents(): Coordinator
      reads this
    {
      Coordinator(tails, device, previous, released)
    }

    constructor ()
      ensures Contents() == IDLE
    {
      tails, device, previous, released := map[], [], [], {};
    }

    /** runExclusive up to its first await. */
    method EnterExclusive(d: DeviceId) returns (t: Ticket)
      modifies this
      ensures (Contents(), t) == Enter(old(Contents()), d)
    {
      var awaited := None;
      if d in tails {
        awaited := Some(tails[d]);
      }
      t := |previous|;
      previous := previous + [awaited];
      device := device + [d];
      tails := tails[d := t];
    }

    /** runExclusive from the end of the operation on. */
    method FinishExclusive(d: DeviceId, t: Ticket)
      modifies this
      ensures Contents() == Finish(old(Contents()), d, t)
    {
      released := released + {t};
      if d in tails && tails[d] == t {
        tails := tails - {d};
      }
    }
  }

  // --- The FIFO lock ------------------------------------------------------------------

  /** Tickets in line per device, the holder first. A device without a line is absent. */
  type Lines = map<DeviceId, seq<Ticket>>

  function LineOf(q: Lines, d: DeviceId): seq<Ticket> {
    if d in q then q[d] else []
  }

  function Join(q: Lines, d: DeviceId, t: Ticket): Lines {
    q[d := LineOf(q, d) + [t]]
  }

  function Leave(q: Lines, d: DeviceId): Lines {
    if |LineOf(q, d)| <= 1 then q - {d} else q[d := q[d][1..]]
  }

  predicate AwaitsEarlier(c: Coordinator, t: Ticket)
    requires t < |c.previous|
  {
    c.previous[t].Some? ==> c.previous[t].value < t
  }

  /** The tail of a device is the last ticket of its line. */
  ghost predicate LineStands(c: Coordinator, d: DeviceId, line: seq<Ticket>) {
    LineRepresented(c, d, line) && d in c.tails && c.tails[d] == line[|line| - 1]
  }

  ghost predicate Represents(c: Coordinator, q: Lines) {
    && c.tails.Keys == q.Keys
    && WellLinked(c)
    && (forall d <- q :: LineStands(c, d, q[d]))
  }

  ghost predicate WellLinked(c: Coordinator) {
    && |c.device| == |c.previous|
    && (forall t <- c.released :: t < |c.previous|)
    && (forall t: Ticket | t < |c.previous| :: AwaitsEarlier(c, t))
  }

  predicate AwaitsNeighbour(c: Coordinator, line: seq<Ticket>, i: int)
    requires 0 < i < |line| && line[i] < |c.previous|
  {
    c.previous[line[i]] == Some(line[i - 1])
  }

  ghost predicate LineRepresented(c: Coordinator, d: DeviceId, line: seq<Ticket>) {
    && line != []
    && |c.device| == |c.previous|
    && (forall i | 0 <= i < |line| ::
          line[i] < |c.previous| && line[i] !in c.released && c.device[line[i]] == d)
    && (forall i, j | 0 <= i < j < |line| :: line[i] < line[j])
    && MayRun(c, line[0])
    && (forall i | 0 < i < |line| :: AwaitsNeighbour(c, line, i))
  }

  /** Mutual exclusion and arrival order: of the tickets in line, exactly the first may run. */
  lemma OnlyHeadMayRun(c: Coordinator, q: Lines, d: DeviceId, i: nat)
    requires Represents(c, q) && d in q && i < |q[d]|
    ensures q[d][i] < |c.previous|
    ensures MayRun(c, q[d][i]) <==> i == 0
  {
    assert LineRepresented(c, d, q[d]);
    if i > 0 {
      assert AwaitsNeighbour(c, q[d], i);
      assert q[d][i - 1] !in c.released;
    }
  }

  lemma {:induction false} EarlierPromisesKept(c: Coordinator, c': Coordinator, t: Ticket)
    requires c.previous <= c'.previous && c.released <= c'.released
    ensures TailResolved(c, t) ==> TailResolved(c', t)
    decreases t
  {
    if TailResolved(c, t) && c.previous[t].Some? {
      EarlierPromisesKept(c, c', c.previous[t].value);
    }
  }

  lemma MayRunKept(c: Coordinator, c': Coordinator, t: Ticket)
    requires c.previous <= c'.previous && c.released <= c'.released && t < |c.previous|
    ensures MayRun(c, t) ==> MayRun(c', t)
  {
    if c.previous[t].Some? {
      EarlierPromisesKept(c, c', c.previous[t].value);
    }
  }

  /** A line is unaffected by new promises and by releases of tickets outside it. */
  lemma LineKept(c: Coordinator, c': Coordinator, d: DeviceId, line: seq<Ticket>)
    requires LineRepresented(c, d, line)
    requires c.previous <= c'.previous && c.device <= c'.device && |c'.device| == |c'.previous|
    requires c.released <= c'.released && forall i | 0 <= i < |line| :: line[i] !in c'.released
    ensures LineRepresented(c', d, line)
  {
    MayRunKept(c, c', line[0]);
    forall i | 0 < i < |line|
      ensures AwaitsNeighbour(c', line, i)
    {
      assert AwaitsNeighbour(c, line, i);
    }
  }

  lemma LineExtended(c: Coordinator, d: DeviceId, line: seq<Ticket>, t: Ticket)
    requires LineRepresented(c, d, line)
    requires t < |c.previous| && t !in c.released && c.device[t] == d && forall i | 0 <= i < |line| :: line[i] < t
    requires c.previous[t] == Some(line[|line| - 1])
    ensures LineRepresented(c, d, line + [t])
  {
    forall i | 0 < i < |line + [t]|
      ensures AwaitsNeighbour(c, line + [t], i)
    {
      assert i < |line| ==> AwaitsNeighbour(c, line, i);
    }
  }

  lemma LineShortened(c: Coordinator, c': Coordinator, d: DeviceId, line: seq<Ticket>)
    requires LineRepresented(c, d, line) && |line| > 1 && AwaitsEarlier(c, line[0])
    requires c.previous == c'.previous && c.device == c'.device
    requires c'.released == c.released + {line[0]}
    ensures LineRepresented(c', d, line[1..])
  {
    HeadResolves(c, c', line[0]);
    assert AwaitsNeighbour(c, line, 1);
    forall i | 0 < i < |line[1..]|
      ensures AwaitsNeighbour(c', line[1..], i)
    {
      assert AwaitsNeighbour(c, line, i + 1);
    }
  }

  lemma HeadResolves(c: Coordinator, c': Coordinator, t: Ticket)
    requires t < |c.previous| && MayRun(c, t) && AwaitsEarlier(c, t)
    requires c.previous == c'.previous && c'.released == c.released + {t}
    ensures TailResolved(c', t)
  {
    if c.previous[t].Some? {
      EarlierPromisesKept(c, c', c.previous[t].value);
    }
  }

  lemma EnterStaysLinked(c: Coordinator, d: DeviceId)
    requires WellLinked(c) && (d in c.tails ==> c.tails[d] < |c.previous|)
    ensures WellLinked(Enter(c, d).0)
  {
    var c' := Enter(c, d).0;
    forall s: Ticket | s < |c'.previous|
      ensures AwaitsEarlier(c', s)
    {
      assert s < |c.previous| ==> AwaitsEarlier(c, s);
    }
  }

  lemma FinishStaysLinked(c: Coordinator, d: DeviceId, t: Ticket)
    requires WellLinked(c) && t < |c.previous|
    ensures WellLinked(Finish(c, d, t))
  {
    var c' := Finish(c, d, t);
    forall s: Ticket | s < |c'.previous|
      ensures AwaitsEarlier(c', s)
    {
      assert AwaitsEarlier(c, s);
    }
  }

  lemma OtherLineEntered(c: Coordinator, d: DeviceId, e: DeviceId, line: seq<Ticket>)
    requires LineStands(c, e, line) && e != d
    ensures LineStands(Enter(c, d).0, e, line)
  {
    LineKept(c, Enter(c, d).0, e, line);
  }

  lemma OwnLineEntered(c: Coordinator, d: DeviceId, line: seq<Ticket>)
    requires LineStands(c, d, line) && WellLinked(c)
    ensures LineStands(Enter(c, d).0, d, line + [Enter(c, d).1])
  {
    var (c', t) := Enter(c, d);
    LineKept(c, c', d, line);
    LineExtended(c', d, line, t);
  }

  lemma NewLineEntered(c: Coordinator, d: DeviceId)
    requires WellLinked(c) && d !in c.tails
    ensures LineStands(Enter(c, d).0, d, [Enter(c, d).1])
  {
  }

  lemma EnteredLine(c: Coordinator, q: Lines, d: DeviceId, e: DeviceId)
    requires Represents(c, q) && e in Join(q, d, Enter(c, d).1)
    ensures
      var (c', t) := Enter(c, d);
      LineStands(c', e, Join(q, d, t)[e])
  {
    if e != d {
      assert LineStands(c, e, q[e]);
      OtherLineEntered(c, d, e, q[e]);
    } else if d in q {
      assert LineStands(c, d, q[d]);
      OwnLineEntered(c, d, q[d]);
    } else {
      NewLineEntered(c, d);
    }
  }

  lemma EnterJoinsLine(c: Coordinator, q: Lines, d: DeviceId)
    requires Represents(c, q)
    ensures var (c', t) := Enter(c, d); Represents(c', Join(q, d, t))
  {
    var (c', t) := Enter(c, d);
    var q' := Join(q, d, t);
    EnterStaysLinked(c, d);
    forall e <- q'
      ensures LineStands(c', e, q'[e])
    {
      EnteredLine(c, q, d, e);
    }
  }

  lemma OtherLineKept(c: Coordinator, d: DeviceId, t: Ticket, e: DeviceId, line: seq<Ticket>)
    requires LineRepresented(c, e, line) && t < |c.device| && c.device[t] == d && e != d
    ensures LineRepresented(Finish(c, d, t), e, line)
  {
    LineKept(c, Finish(c, d, t), e, line);
  }

  lemma HeadRemoved(c: Coordinator, d: DeviceId, line: seq<Ticket>)
    requires LineRepresented(c, d, line) && WellLinked(c) && |line| > 1
    ensures LineRepresented(Finish(c, d, line[0]), d, line[1..])
  {
    assert AwaitsEarlier(c, line[0]);
    LineShortened(c, Finish(c, d, line[0]), d, line);
  }

  lemma FinishTails(c: Coordinator, d: DeviceId, line: seq<Ticket>)
    requires LineRepresented(c, d, line) && d in c.tails && c.tails[d] == line[|line| - 1]
    ensures Finish(c, d, line[0]).tails == if |line| == 1 then c.tails - {d} else c.tails
  {
  }

  lemma FinishedLine(c: Coordinator, q: Lines, d: DeviceId, e: DeviceId)
    requires Represents(c, q) && d in q && q[d] != [] && e in Leave(q, d)
    ensures LineStands(Finish(c, d, q[d][0]), e, Leave(q, d)[e])
  {
    assert LineStands(c, d, q[d]);
    FinishTails(c, d, q[d]);
    if e == d {
      HeadRemoved(c, d, q[d]);
    } else {
      assert LineStands(c, e, q[e]);
      OtherLineKept(c, d, q[d][0], e, q[e]);
    }
  }

  lemma FinishLeavesLine(c: Coordinator, q: Lines, d: DeviceId)
    requires Represents(c, q) && d in q
    ensures q[d] != [] && Represents(Finish(c, d, q[d][0]), Leave(q, d))
  {
    assert LineStands(c, d, q[d]);
    var t := q[d][0];
    var c' := Finish(c, d, t);
    var q' := Leave(q, d);
    FinishStaysLinked(c, d, t);
    FinishTails(c, d, q[d]);
    forall e <- q'
      ensures LineStands(c', e, q'[e])
    {
      FinishedLine(c, q, d, e);
    }
  }

  datatype Call = Arrive(device: DeviceId) | Complete(device: DeviceId, ticket: Ticket)

  /** A completion is possible only for a ticket in line whose operation may run. */
  function CallStep(c: Coordinator, q: Lines, e: Call): (Coordinator, Lines) {
    match e
    case Arrive(d) =>
      var (c', t) := Enter(c, d);
      (c', Join(q, d, t))
    case Complete(d, t) =>
      if t in LineOf(q, d) && t < |c.previous| && MayRun(c, t)
      then (Finish(c, d, t), Leave(q, d)) else (c, q)
  }

  function RunCalls(c: Coordinator, q: Lines, es: seq<Call>): (Coordinator, Lines)
    decreases |es|
  {
    if es == [] then (c, q)
    else var (c', q') := CallStep(c, q, es[0]); RunCalls(c', q', es[1..])
  }

  /** Every run of promise chains is a run of FIFO lines, and idle devices leave no tail behind. */
  lemma {:induction false} RunIsFifo(c: Coordinator, q: Lines, es: seq<Call>)
    requires Represents(c, q)
    ensures var (c', q') := RunCalls(c, q, es); Represents(c', q')
    decreases |es|
  {
    if es != [] {
      match es[0] {
        case Arrive(d) => EnterJoinsLine(c, q, d);
        case Complete(d, t) =>
          if t in LineOf(q, d) && t < |c.previous| && MayRun(c, t) {
            var i :| 0 <= i < |q[d]| && q[d][i] == t;
            OnlyHeadMayRun(c, q, d, i);
            FinishLeavesLine(c, q, d);
          }
      }
      var (c', q') := CallStep(c, q, es[0]);
      RunIsFifo(c', q', es[1..]);
    }
  }

  // --- The bare tail of a repository ------------------------------------------------------------------

  /** A chained tail has resolved once its own promise has. */
  ghost predicate ReleasedResolve(c: Coordinator) {
    forall t <- c.released :: TailResolved(c, t)
  }

  lemma ReleasedResolveKept(c: Coordinator, c': Coordinator, t: Ticket)
    requires ReleasedResolve(c) && c.previous <= c'.previous
    requires c'.released == c.released || (c'.released == c.released + {t} && TailResolved(c', t))
    ensures ReleasedResolve(c')
  {
    forall u <- c'.released
      ensures TailResolved(c', u)
    {
      if u in c.released {
        EarlierPromisesKept(c, c', u);
      }
    }
  }

  lemma {:induction false} RunKeepsResolved(c: Coordinator, q: Lines, es: seq<Call>)
    requires Represents(c, q) && ReleasedResolve(c)
    ensures ReleasedResolve(RunCalls(c, q, es).0)
    decreases |es|
  {
    if es != [] {
      var (c', q') := CallStep(c, q, es[0]);
      RunIsFifo(c, q, [es[0]]);
      match es[0] {
        case Arrive(d) => ReleasedResolveKept(c, c', 0);
        case Complete(d, t) =>
          if t in LineOf(q, d) && t < |c.previous| && MayRun(c, t) {
            assert AwaitsEarlier(c, t);
            HeadResolves(c, c', t);
            ReleasedResolveKept(c, c', t);
          }
      }
      assert RunCalls(c, q, [es[0]]) == (c', q');
      RunKeepsResolved(c', q', es[1..]);
    }
  }

  /**
   * Over every run, awaiting the chained promise `previous.then(() => current)` and awaiting
   * the bare promise `current` are the same: each has resolved exactly when the other has.
   */
  lemma ChainResolvesLikePromise(es: seq<Call>, t: Ticket)
    ensures
      var c := RunCalls(IDLE, map[], es).0;
      TailResolved(c, t) <==> t in c.released
  {
    RunKeepsResolved(IDLE, map[], es);
  }

  /**
   * The repositories' own chain: every call awaits the bare promise of the call before it, and
   * the tail is never deleted. The tail is the last ticket handed out.
   */
  datatype Tail = Tail(arrived: nat, released: set<Ticket>)

  predicate MayRunBehind(c: Tail, t: Ticket) {
    t == 0 || t - 1 in c.released
  }

  class PromiseTail {
    var arrived: nat
    var released: set<Ticket>

    function Contents(): Tail
      reads this
    {
      Tail(arrived, released)
    }

    constructor ()
      ensures Contents() == Tail(0, {})
    {
      arrived, released := 0, {};
    }

    /** `#exclusive` up to its await. */
    method Enter() returns (t: Ticket)
      modifies this
      ensures t == old(arrived) && Contents() == Tail(t + 1, old(released))
    {
      t := arrived;
      arrived := arrived + 1;
    }

    /** `#exclusive` from the end of the operation on, whether it returned or threw. */
    method Finish(t: Ticket)
      modifies this
      ensures Contents() == Tail(old(arrived), old(released) + {t})
    {
      released := released + {t};
    }
  }

  datatype TailCall = Arrives | Completes(ticket: Ticket)

  function TailStep(c: Tail, e: TailCall): Tail {
    match e
    case Arrives => c.(arrived := c.arrived + 1)
    case Completes(t) =>
      if t < c.arrived && t !in c.released && MayRunBehind(c, t) then c.(released := c.released + {t}) else c
  }

  function RunTail(c: Tail, es: seq<TailCall>): Tail
    decreases |es|
  {
    if es == [] then c else RunTail(TailStep(c, es[0]), es[1..])
  }

  /** The calls before `done` have finished, and no other. */
  ghost predicate DoneUpTo(c: Tail, done: nat) {
    done <= c.arrived && forall t: Ticket :: t in c.released <==> t < done
  }

  /**
   * Over every run of the bare tail, calls finish in arrival order, and of the calls that have
   * arrived and not finished exactly the first may run.
   */
  lemma {:induction false} BareTailIsFifo(c: Tail, done: nat, es: seq<TailCall>) returns (done': nat)
    requires DoneUpTo(c, done)
    ensures
      var c' := RunTail(c, es);
      && done <= done' && DoneUpTo(c', done')
      && (forall t: Ticket | t < c'.arrived && t !in c'.released :: MayRunBehind(c', t) <==> t == done')
    decreases |es|
  {
    if es == [] {
      done' := done;
    } else {
      var next := if TailStep(c, es[0]).released == c.released then done else done + 1;
      done' := BareTailIsFifo(TailStep(c, es[0]), next, es[1..]);
    }
  }
}
