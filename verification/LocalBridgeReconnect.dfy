/**
 * The agent's reconnect controller. Every function is one stretch of code between two awaits
 * or callbacks; the environment keeps what is still outstanding: credential loads, connects,
 * closes and timers, of the current lifecycle and of earlier ones.
 */
module LocalBridgeReconnect {
  import opened Wrappers
  import opened ReconnectDelay

  type DeviceId = nat
  type Handle = nat

  datatype State =
    | Idle | Connecting | Ready | Backoff
    | PairingRequired | AuthFailedState | ProtocolFailedState | CredentialFailed | Stopped

  /** The lifecycle and the number within it identify an attempt. */
  datatype Attempt = Attempt(lifecycle: nat, generation: nat)

  datatype Reason = Failed(failure: Failure) | CredentialMissing

  datatype Controller = Controller(
    state: State,
    lifecycle: nat,
    attemptGeneration: nat,
    failures: nat,
    lastFailure: Option<Reason>,
    retryDelay: Option<real>,
    device: Option<DeviceId>,
    current: Option<Attempt>,
    observed: Option<Failure>,
    backoffTimer: Option<Handle>,
    stableTimer: Option<Handle>,
    stopping: Option<Handle>,
    nextHandle: Handle)

  const INITIAL := Controller(Idle, 0, 0, 0, None, None, None, None, None, None, None, None, 0)

  /** What a credential load ends with, and what the transport factory does with it. */
  datatype LoadResult =
    | LoadFailed(code: StorageCode)
    | NoCredential
    | Loaded(device: DeviceId)
    | FactoryFailed(device: DeviceId, failure: Failure)

  /** What a step leaves outstanding. */
  datatype Pending =
    | Loading(lifecycle: nat)
    | Connect(attempt: Attempt)
    | CloseThenFail(attempt: Attempt, failure: Failure)
    | BackoffTimer(handle: Handle, lifecycle: nat)
    | StableTimer(handle: Handle, attempt: Attempt)
    | StopCleanup(handle: Handle)

  /** `observed` is the failure noted on the current attempt; a finalised attempt is never current. */
  predicate IsCurrent(c: Controller, a: Attempt) {
    a.lifecycle == c.lifecycle && c.current == Some(a)
  }

  function StartAttempt(c: Controller, lifecycle: nat): (Controller, set<Pending>) {
    if lifecycle != c.lifecycle then (c, {})
    else (c.(retryDelay := None, state := Connecting), {Loading(lifecycle)})
  }

  function StartCalled(c: Controller): (Controller, set<Pending>) {
    if c.stopping.Some? || c.state.Connecting? || c.state.Ready? || c.state.Backoff? then (c, {})
    else
      StartAttempt(c.(backoffTimer := None, stableTimer := None, lifecycle := c.lifecycle + 1,
                      attemptGeneration := 0, failures := 0, lastFailure := None, retryDelay := None,
                      device := None), c.lifecycle + 1)
  }

  function StopCalled(c: Controller): (Controller, set<Pending>) {
    if c.stopping.Some? || c.state.Stopped? then (c, {})
    else
      (c.(lifecycle := c.lifecycle + 1, backoffTimer := None, stableTimer := None, retryDelay := None,
          current := None, observed := None, state := Stopped, stopping := Some(c.nextHandle),
          nextHandle := c.nextHandle + 1),
       {StopCleanup(c.nextHandle)})
  }

  function StopCleaned(c: Controller, handle: Handle): Controller {
    if c.stopping == Some(handle) then c.(stopping := None) else c
  }

  function TransitionAfterFailure(p: Policy, c: Controller, lifecycle: nat, f: Failure, random: Option<real>)
    : (Controller, set<Pending>)
    requires ValidPolicy(p)
  {
    if lifecycle != c.lifecycle then (c, {})
    else
      var c1 := c.(lastFailure := Some(Failed(f)), retryDelay := None);
      match ClassifyBridgeFailure(f)
      case AuthFailure => (c1.(state := AuthFailedState), {})
      case ProtocolFailure => (c1.(state := ProtocolFailedState), {})
      case Retry =>
        var failures := c.failures + 1;
        (c1.(failures := failures, retryDelay := Some(CalculateReconnectDelay(failures, p, random)),
             state := Backoff, backoffTimer := Some(c.nextHandle), nextHandle := c.nextHandle + 1),
         {BackoffTimer(c.nextHandle, lifecycle)})
  }

  function CredentialLoaded(p: Policy, c: Controller, lifecycle: nat, r: LoadResult, random: Option<real>)
    : (Controller, set<Pending>)
    requires ValidPolicy(p)
  {
    if lifecycle != c.lifecycle then (c, {})
    else
      match r
      case LoadFailed(code) =>
        (c.(lastFailure := Some(Failed(Storage(code))), state := CredentialFailed), {})
      case NoCredential => (c.(lastFailure := Some(CredentialMissing), state := PairingRequired), {})
      case FactoryFailed(device, f) =>
        TransitionAfterFailure(p, c.(device := Some(device), attemptGeneration := c.attemptGeneration + 1),
                               lifecycle, f, random)
      case Loaded(device) =>
        var attempt := Attempt(lifecycle, c.attemptGeneration + 1);
        (c.(device := Some(device), attemptGeneration := c.attemptGeneration + 1, current := Some(attempt),
            observed := None), {Connect(attempt)})
  }

  function ResetFailures(c: Controller, a: Attempt): Controller {
    if IsCurrent(c, a) && c.state.Ready? then c.(failures := 0, lastFailure := None) else c
  }

  function Connected(p: Policy, c: Controller, a: Attempt): (Controller, set<Pending>) {
    if !IsCurrent(c, a) then (c, {})
    else
      var c1 := c.(lastFailure := None, retryDelay := None, state := Ready, stableTimer := None);
      if p.stableReadyMs == 0.0 then (ResetFailures(c1, a), {})
      else (c1.(stableTimer := Some(c.nextHandle), nextHandle := c.nextHandle + 1), {StableTimer(c.nextHandle, a)})
  }

  function Finalized(c: Controller): Controller {
    c.(current := None, observed := None, stableTimer := None)
  }

  /** A failed connect closes its transport first. */
  function ConnectFailed(c: Controller, a: Attempt, f: Failure): (Controller, set<Pending>) {
    if !IsCurrent(c, a) then (c, {})
    else (Finalized(c), {CloseThenFail(a, if c.observed.Some? then c.observed.value else f)})
  }

  function ClosedAfterFailure(p: Policy, c: Controller, a: Attempt, f: Failure, random: Option<real>)
    : (Controller, set<Pending>)
    requires ValidPolicy(p)
  {
    TransitionAfterFailure(p, c, a.lifecycle, f, random)
  }

  function TransportError(c: Controller, a: Attempt, f: Failure): Controller {
    if !IsCurrent(c, a) then c else c.(observed := Some(f))
  }

  /** A transport that closed by itself needs no closing. */
  function TransportClosed(p: Policy, c: Controller, a: Attempt, random: Option<real>): (Controller, set<Pending>)
    requires ValidPolicy(p)
  {
    if !IsCurrent(c, a) then (c, {})
    else
      TransitionAfterFailure(p, Finalized(c), a.lifecycle,
        if c.observed.Some? then c.observed.value else Bridge(SessionClosed), random)
  }

  function BackoffFires(c: Controller, handle: Handle, lifecycle: nat): (Controller, set<Pending>) {
    if c.backoffTimer != Some(handle) then (c, {})
    else
      var c1 := c.(backoffTimer := None);
      if lifecycle != c.lifecycle || !c.state.Backoff? then (c1, {}) else StartAttempt(c1, lifecycle)
  }

  function StableFires(c: Controller, handle: Handle, a: Attempt): Controller {
    if c.stableTimer != Some(handle) then c else ResetFailures(c.(stableTimer := None), a)
  }

  // --- The controller in its environment -----------------------------------------------------------------

  datatype System = System(controller: Controller, pending: set<Pending>)

  /** Callers start and stop; outstanding work ends in any order; transports report at any time. */
  datatype Event =
    | StartCall
    | StopCall
    | LoadEnds(lifecycle: nat, result: LoadResult, random: Option<real>)
    | ConnectSucceeds(attempt: Attempt)
    | ConnectFails(attempt: Attempt, failure: Failure)
    | CloseEnds(attempt: Attempt, failure: Failure, random: Option<real>)
    | ReportsError(attempt: Attempt, failure: Failure)
    | ReportsClose(attempt: Attempt, random: Option<real>)
    | BackoffElapses(handle: Handle, lifecycle: nat)
    | StableElapses(handle: Handle, attempt: Attempt)
    | StopEnds(handle: Handle)

  /** The outstanding work that an event ends. */
  function Ends(e: Event): set<Pending> {
    match e
    case LoadEnds(lifecycle, _, _) => {Loading(lifecycle)}
    case ConnectSucceeds(a) => {Connect(a)}
    case ConnectFails(a, _) => {Connect(a)}
    case CloseEnds(a, f, _) => {CloseThenFail(a, f)}
    case BackoffElapses(handle, lifecycle) => {BackoffTimer(handle, lifecycle)}
    case StableElapses(handle, a) => {StableTimer(handle, a)}
    case StopEnds(handle) => {StopCleanup(handle)}
    case _ => {}
  }

  function React(p: Policy, c: Controller, e: Event): (Controller, set<Pending>)
    requires ValidPolicy(p)
  {
    match e
    case StartCall => StartCalled(c)
    case StopCall => StopCalled(c)
    case LoadEnds(lifecycle, r, random) => CredentialLoaded(p, c, lifecycle, r, random)
    case ConnectSucceeds(a) => Connected(p, c, a)
    case ConnectFails(a, f) => ConnectFailed(c, a, f)
    case CloseEnds(a, f, random) => ClosedAfterFailure(p, c, a, f, random)
    case ReportsError(a, f) => (TransportError(c, a, f), {})
    case ReportsClose(a, random) => TransportClosed(p, c, a, random)
    case BackoffElapses(handle, lifecycle) => BackoffFires(c, handle, lifecycle)
    case StableElapses(handle, a) => (StableFires(c, handle, a), {})
    case StopEnds(handle) => (StopCleaned(c, handle), {})
  }

  function Step(p: Policy, s: System, e: Event): System
    requires ValidPolicy(p)
  {
    if !(Ends(e) <= s.pending) then s
    else
      var (c, added) := React(p, s.controller, e);
      System(c, s.pending - Ends(e) + added)
  }

  function Run(p: Policy, s: System, es: seq<Event>): System
    requires ValidPolicy(p)
    decreases |es|
  {
    if es == [] then s else Run(p, Step(p, s, es[0]), es[1..])
  }

  // --- Invariant ---------------------------------------------------------------------------------------

  predicate Resting(state: State) {
    !state.Connecting? && !state.Ready? && !state.Backoff?
  }

  /** Nothing outstanding is from the future, and handles are given out once. */
  ghost predicate PastOnly(c: Controller, pending: set<Pending>) {
    && (forall l: nat :: Loading(l) in pending ==> l <= c.lifecycle)
    && (forall a :: Connect(a) in pending ==> Begun(c, a))
    && (forall a, f :: CloseThenFail(a, f) in pending ==> Begun(c, a))
    && (forall h: Handle, l: nat :: BackoffTimer(h, l) in pending ==> h < c.nextHandle)
    && (forall h: Handle, a :: StableTimer(h, a) in pending ==> h < c.nextHandle && Begun(c, a))
  }

  predicate Begun(c: Controller, a: Attempt) {
    a.lifecycle <= c.lifecycle && (a.lifecycle == c.lifecycle ==> a.generation <= c.attemptGeneration)
  }

  ghost predicate NoneClosing(pending: set<Pending>, lifecycle: nat) {
    forall a, f :: CloseThenFail(a, f) in pending ==> a.lifecycle != lifecycle
  }

  ghost predicate OneClosing(pending: set<Pending>, lifecycle: nat) {
    exists a, f :: IsOnlyClosing(pending, lifecycle, a, f)
  }

  ghost predicate IsOnlyClosing(pending: set<Pending>, lifecycle: nat, a: Attempt, f: Failure) {
    && CloseThenFail(a, f) in pending && a.lifecycle == lifecycle
    && forall b, g :: CloseThenFail(b, g) in pending && b.lifecycle == lifecycle ==> b == a && g == f
  }

  /** What is outstanding for the current lifecycle, state by state. */
  ghost predicate ThreadInv(c: Controller, pending: set<Pending>) {
    var loading := Loading(c.lifecycle) in pending;
    if c.state.Ready? then
      && c.current.Some? && Connect(c.current.value) !in pending && !loading && NoneClosing(pending, c.lifecycle)
    else if !c.state.Connecting? then
      c.current.None? && !loading && NoneClosing(pending, c.lifecycle)
    else if c.current.Some? then
      Connect(c.current.value) in pending && !loading && NoneClosing(pending, c.lifecycle)
    else if loading then NoneClosing(pending, c.lifecycle)
    else OneClosing(pending, c.lifecycle)
  }

  ghost predicate TimerInv(c: Controller, pending: set<Pending>) {
    && (c.backoffTimer.Some? <==> c.state.Backoff?)
    && (c.stableTimer.Some? ==> c.state.Ready?)
    && (c.backoffTimer.Some? ==>
          && BackoffTimer(c.backoffTimer.value, c.lifecycle) in pending
          && forall l: nat :: BackoffTimer(c.backoffTimer.value, l) in pending ==> l == c.lifecycle)
    && (c.stableTimer.Some? ==>
          && c.current.Some? && StableTimer(c.stableTimer.value, c.current.value) in pending
          && forall a :: StableTimer(c.stableTimer.value, a) in pending ==> Some(a) == c.current)
  }

  predicate CurrentInv(p: Policy, c: Controller) {
    && (c.current.Some? ==> c.current.value == Attempt(c.lifecycle, c.attemptGeneration))
    && (c.state.Backoff? ==>
          c.failures > 0 && c.retryDelay.Some? && p.minDelayMs <= c.retryDelay.value <= p.maxDelayMs)
  }

  ghost predicate Inv(p: Policy, s: System) {
    && PastOnly(s.controller, s.pending)
    && ThreadInv(s.controller, s.pending)
    && TimerInv(s.controller, s.pending)
    && CurrentInv(p, s.controller)
  }

  lemma InitialInv(p: Policy)
    ensures Inv(p, System(INITIAL, {}))
  {
  }

  /** The only outstanding close stays the only one while closes of the lifecycle do not change. */
  lemma OneClosingStays(before: set<Pending>, after: set<Pending>, lifecycle: nat)
    requires OneClosing(before, lifecycle)
    requires forall a: Attempt, f | a.lifecycle == lifecycle :: CloseThenFail(a, f) in before <==> CloseThenFail(a, f) in after
    ensures OneClosing(after, lifecycle)
  {
    var a, f :| IsOnlyClosing(before, lifecycle, a, f);
    assert IsOnlyClosing(after, lifecycle, a, f);
  }

  lemma StartStopKeep(p: Policy, s: System, e: Event)
    requires ValidPolicy(p) && Inv(p, s) && (e.StartCall? || e.StopCall? || e.StopEnds?)
    ensures Inv(p, Step(p, s, e))
  {
    if OneClosing(s.pending, s.controller.lifecycle) {
      OneClosingStays(s.pending, Step(p, s, e).pending, s.controller.lifecycle);
    }
  }

  lemma LoadKeeps(p: Policy, s: System, e: Event)
    requires ValidPolicy(p) && Inv(p, s) && e.LoadEnds?
    ensures Inv(p, Step(p, s, e))
  {
    if OneClosing(s.pending, s.controller.lifecycle) {
      OneClosingStays(s.pending, Step(p, s, e).pending, s.controller.lifecycle);
    }
  }

  lemma ConnectKeeps(p: Policy, s: System, e: Event)
    requires ValidPolicy(p) && Inv(p, s) && e.ConnectSucceeds?
    ensures Inv(p, Step(p, s, e))
  {
    if OneClosing(s.pending, s.controller.lifecycle) {
      OneClosingStays(s.pending, Step(p, s, e).pending, s.controller.lifecycle);
    }
  }

  lemma ConnectFailureKeeps(p: Policy, s: System, e: Event)
    requires ValidPolicy(p) && Inv(p, s) && e.ConnectFails?
    ensures Inv(p, Step(p, s, e))
  {
    var c, s' := s.controller, Step(p, s, e);
    if Connect(e.attempt) in s.pending && IsCurrent(c, e.attempt) {
      var f := if c.observed.Some? then c.observed.value else e.failure;
      assert IsOnlyClosing(s'.pending, c.lifecycle, e.attempt, f);
    } else if OneClosing(s.pending, c.lifecycle) {
      OneClosingStays(s.pending, s'.pending, c.lifecycle);
    }
  }

  lemma CloseKeeps(p: Policy, s: System, e: Event)
    requires ValidPolicy(p) && Inv(p, s) && e.CloseEnds?
    ensures Inv(p, Step(p, s, e))
  {
    var c, s' := s.controller, Step(p, s, e);
    if OneClosing(s.pending, c.lifecycle)
       && !(CloseThenFail(e.attempt, e.failure) in s.pending && e.attempt.lifecycle == c.lifecycle) {
      OneClosingStays(s.pending, s'.pending, c.lifecycle);
    }
  }

  lemma ReportsKeep(p: Policy, s: System, e: Event)
    requires ValidPolicy(p) && Inv(p, s) && (e.ReportsError? || e.ReportsClose?)
    ensures Inv(p, Step(p, s, e))
  {
    if OneClosing(s.pending, s.controller.lifecycle) {
      OneClosingStays(s.pending, Step(p, s, e).pending, s.controller.lifecycle);
    }
  }

  lemma TimersKeep(p: Policy, s: System, e: Event)
    requires ValidPolicy(p) && Inv(p, s) && (e.BackoffElapses? || e.StableElapses?)
    ensures Inv(p, Step(p, s, e))
  {
    if OneClosing(s.pending, s.controller.lifecycle) {
      OneClosingStays(s.pending, Step(p, s, e).pending, s.controller.lifecycle);
    }
  }

  lemma StepKeeps(p: Policy, s: System, e: Event)
    requires ValidPolicy(p) && Inv(p, s)
    ensures Inv(p, Step(p, s, e))
  {
    match e
    case LoadEnds(_, _, _) => LoadKeeps(p, s, e);
    case ConnectSucceeds(_) => ConnectKeeps(p, s, e);
    case ConnectFails(_, _) => ConnectFailureKeeps(p, s, e);
    case CloseEnds(_, _, _) => CloseKeeps(p, s, e);
    case ReportsError(_, _) => ReportsKeep(p, s, e);
    case ReportsClose(_, _) => ReportsKeep(p, s, e);
    case BackoffElapses(_, _) => TimersKeep(p, s, e);
    case StableElapses(_, _) => TimersKeep(p, s, e);
    case _ => StartStopKeep(p, s, e);
  }

  lemma {:induction false} RunKeeps(p: Policy, s: System, es: seq<Event>)
    requires ValidPolicy(p) && Inv(p, s)
    ensures Inv(p, Run(p, s, es))
    decreases |es|
  {
    if es != [] {
      StepKeeps(p, s, es[0]);
      RunKeeps(p, Step(p, s, es[0]), es[1..]);
    }
  }

  // --- Results -----------------------------------------------------------------------------------------

  /** A backoff timer is armed exactly in backoff, with a delay within the limits; a stable timer only when ready. */
  lemma TimersMatchState(p: Policy, es: seq<Event>)
    requires ValidPolicy(p)
    ensures
      var c := Run(p, System(INITIAL, {}), es).controller;
      && (c.backoffTimer.Some? <==> c.state.Backoff?)
      && (c.stableTimer.Some? ==> c.state.Ready?)
      && (c.state.Backoff? ==> c.retryDelay.Some? && p.minDelayMs <= c.retryDelay.value <= p.maxDelayMs)
  {
    InitialInv(p);
    RunKeeps(p, System(INITIAL, {}), es);
  }

  /** Ready has exactly the newest attempt of the current lifecycle; resting states hold nothing. */
  lemma AttemptMatchesState(p: Policy, es: seq<Event>)
    requires ValidPolicy(p)
    ensures
      var s := Run(p, System(INITIAL, {}), es);
      var c := s.controller;
      && (c.state.Ready? ==> c.current == Some(Attempt(c.lifecycle, c.attemptGeneration)))
      && (Resting(c.state) ==>
            && c.current.None? && c.backoffTimer.None? && c.stableTimer.None?
            && Loading(c.lifecycle) !in s.pending && NoneClosing(s.pending, c.lifecycle))
  {
    InitialInv(p);
    RunKeeps(p, System(INITIAL, {}), es);
  }

  /** A controller that is connecting or backing off always has something outstanding that will continue it. */
  lemma ControllerIsNeverStuck(p: Policy, es: seq<Event>)
    requires ValidPolicy(p)
    ensures
      var s := Run(p, System(INITIAL, {}), es);
      var c := s.controller;
      && (c.state.Connecting? ==>
            || Loading(c.lifecycle) in s.pending
            || (c.current.Some? && Connect(c.current.value) in s.pending)
            || OneClosing(s.pending, c.lifecycle))
      && (c.state.Backoff? ==>
            c.backoffTimer.Some? && BackoffTimer(c.backoffTimer.value, c.lifecycle) in s.pending)
  {
    InitialInv(p);
    RunKeeps(p, System(INITIAL, {}), es);
  }

  /** The event belongs to an earlier lifecycle, or to an attempt that is not the current one. */
  predicate IsStale(c: Controller, e: Event) {
    match e
    case LoadEnds(lifecycle, _, _) => lifecycle != c.lifecycle
    case ConnectSucceeds(a) => !IsCurrent(c, a)
    case ConnectFails(a, _) => !IsCurrent(c, a)
    case CloseEnds(a, _, _) => a.lifecycle != c.lifecycle
    case ReportsError(a, _) => !IsCurrent(c, a)
    case ReportsClose(a, _) => !IsCurrent(c, a)
    case BackoffElapses(_, lifecycle) => lifecycle != c.lifecycle
    case StableElapses(_, a) => !IsCurrent(c, a)
    case _ => false
  }

  /** No event of an older attempt or lifecycle changes the controller, in whatever order it arrives. */
  lemma StaleEventsChangeNothing(p: Policy, es: seq<Event>, e: Event)
    requires ValidPolicy(p) && IsStale(Run(p, System(INITIAL, {}), es).controller, e)
    ensures Step(p, Run(p, System(INITIAL, {}), es), e).controller == Run(p, System(INITIAL, {}), es).controller
  {
    InitialInv(p);
    RunKeeps(p, System(INITIAL, {}), es);
  }

  /** After `stop`, nothing that was outstanding brings the controller back: only `start` leaves `stopped`. */
  lemma StoppedUntilStarted(p: Policy, es: seq<Event>, e: Event)
    requires ValidPolicy(p) && Run(p, System(INITIAL, {}), es).controller.state.Stopped?
    ensures Step(p, Run(p, System(INITIAL, {}), es), e).controller.state.Stopped? || e.StartCall?
  {
    InitialInv(p);
    RunKeeps(p, System(INITIAL, {}), es);
  }

  // --- What every event leads to -----------------------------------------------------------------------

  predicate IsAuthFailure(f: Failure) {
    f == Bridge(AuthFailed) || f == Bridge(AuthRequired)
  }

  /** The network may recover from it, or it did not come from the bridge at all. */
  predicate IsTransient(f: Failure) {
    !f.Bridge? || f.code.SocketError? || f.code.SessionClosed? || f.code.Timeout?
  }

  /** The controller after a failure of its current lifecycle. */
  predicate FailedWith(p: Policy, c: Controller, f: Failure, random: Option<real>, c': Controller, added: set<Pending>)
    requires ValidPolicy(p)
  {
    && c'.lastFailure == Some(Failed(f)) && c'.lifecycle == c.lifecycle && c'.stopping == c.stopping
    && if IsTransient(f) then
         && c'.state == Backoff && c'.failures == c.failures + 1
         && c'.retryDelay == Some(CalculateReconnectDelay(c.failures + 1, p, random))
         && c'.backoffTimer == Some(c.nextHandle) && c'.nextHandle > c.nextHandle
         && added == {BackoffTimer(c.nextHandle, c.lifecycle)}
       else
         && c'.state == (if IsAuthFailure(f) then AuthFailedState else ProtocolFailedState)
         && c'.failures == c.failures && c'.retryDelay == None && added == {}
  }

  lemma TransitionEndsByKind(p: Policy, c: Controller, f: Failure, random: Option<real>)
    requires ValidPolicy(p)
    ensures
      var (c', added) := TransitionAfterFailure(p, c, c.lifecycle, f, random);
      && FailedWith(p, c, f, random, c', added)
      && c'.current == c.current && c'.device == c.device && c'.stableTimer == c.stableTimer
  {
  }

  /**
   * A failure ends the attempt, by its kind: a rejected identity and a broken protocol for good,
   * anything else in a retry, counted and delayed by that count.
   */
  lemma FailuresEndByKind(p: Policy, c: Controller, f: Failure, a: Attempt, device: DeviceId, random: Option<real>)
    requires ValidPolicy(p) && a.lifecycle == c.lifecycle
    ensures
      var (c', added) := React(p, c, CloseEnds(a, f, random));
      FailedWith(p, c, f, random, c', added) && c'.current == c.current && c'.device == c.device
    ensures
      var (c', added) := React(p, c, LoadEnds(c.lifecycle, FactoryFailed(device, f), random));
      FailedWith(p, c, f, random, c', added) && c'.current == c.current && c'.device == Some(device)
    ensures
      var (c', added) := React(p, c, ReportsClose(a, random));
      var noted := if c.observed.Some? then c.observed.value else Bridge(SessionClosed);
      c.current == Some(a) ==>
        FailedWith(p, c, noted, random, c', added) && c'.current == None && c'.stableTimer == None && c'.device == c.device
  {
    TransitionEndsByKind(p, c, f, random);
    TransitionEndsByKind(p, c.(device := Some(device), attemptGeneration := c.attemptGeneration + 1), f, random);
    TransitionEndsByKind(p, Finalized(c), if c.observed.Some? then c.observed.value else Bridge(SessionClosed), random);
  }

  /** A credential load ends the cycle, or begins an attempt numbered one higher. */
  lemma LoadsEndByResult(p: Policy, c: Controller, r: LoadResult, random: Option<real>)
    requires ValidPolicy(p)
    ensures
      var (c', added) := React(p, c, LoadEnds(c.lifecycle, r, random));
      && (r.LoadFailed? ==>
            c'.state == CredentialFailed && c'.lastFailure == Some(Failed(Storage(r.code))) && added == {})
      && (r.NoCredential? ==> c'.state == PairingRequired && c'.lastFailure == Some(CredentialMissing) && added == {})
      && (r.Loaded? ==>
            && c'.current == Some(Attempt(c.lifecycle, c.attemptGeneration + 1))
            && c'.attemptGeneration == c.attemptGeneration + 1 && c'.device == Some(r.device)
            && c'.observed == None && c'.state == c.state && added == {Connect(c'.current.value)})
      && c'.failures == c.failures + (if r.FactoryFailed? && IsTransient(r.failure) then 1 else 0)
      && c'.lifecycle == c.lifecycle
  {
  }

  /**
   * A connect of the current attempt makes it ready; its failures are forgotten once it has been
   * stable, at once when no time is asked for. A failed one is closed first, with the failure
   * that its transport reported, if any.
   */
  lemma ConnectsEndByResult(p: Policy, c: Controller, a: Attempt, f: Failure)
    requires ValidPolicy(p) && IsCurrent(c, a)
    ensures
      var (c', added) := React(p, c, ConnectSucceeds(a));
      && c'.state == Ready && c'.lastFailure == None && c'.retryDelay == None && c'.current == Some(a)
      && (if p.stableReadyMs == 0.0 then c'.failures == 0 && c'.stableTimer == None && added == {}
          else
            && c'.failures == c.failures && c'.stableTimer == Some(c.nextHandle) && c'.nextHandle > c.nextHandle
            && added == {StableTimer(c.nextHandle, a)})
    ensures
      var (c', added) := React(p, c, ConnectFails(a, f));
      && added == {CloseThenFail(a, if c.observed.Some? then c.observed.value else f)}
      && c'.current == None && c'.stableTimer == None && c'.state == c.state && c'.failures == c.failures
    ensures React(p, c, ReportsError(a, f)) == (c.(observed := Some(f)), {})
  {
  }

  /** Over a run: the backoff timer starts the next attempt, and the stable timer forgets the failures. */
  lemma TimersContinue(p: Policy, s: System, e: Event)
    requires ValidPolicy(p) && Inv(p, s) && Ends(e) <= s.pending
    ensures
      var c, s' := s.controller, Step(p, s, e);
      && (e.BackoffElapses? && c.backoffTimer == Some(e.handle) ==>
            && s'.controller == c.(backoffTimer := None, retryDelay := None, state := Connecting)
            && Loading(c.lifecycle) in s'.pending)
      && (e.StableElapses? && c.stableTimer == Some(e.handle) ==>
            && c.state == Ready
            && s'.controller == c.(stableTimer := None, failures := 0, lastFailure := None))
      && (e.BackoffElapses? && c.backoffTimer != Some(e.handle) ==> s'.controller == c)
      && (e.StableElapses? && c.stableTimer != Some(e.handle) ==> s'.controller == c)
  {
  }

  /** A start from rest begins a new lifecycle without a past; a stop ends the one there is. */
  lemma CallersDecide(p: Policy, c: Controller, handle: Handle)
    requires ValidPolicy(p)
    ensures
      var (c', added) := React(p, c, StartCall);
      if c.stopping.None? && Resting(c.state) then
        && c'.state == Connecting && c'.lifecycle == c.lifecycle + 1 && added == {Loading(c.lifecycle + 1)}
        && c'.failures == 0 && c'.attemptGeneration == 0 && c'.lastFailure == None && c'.retryDelay == None
        && c'.device == None && c'.backoffTimer == None && c'.stableTimer == None
      else (c', added) == (c, {})
    ensures
      var (c', added) := React(p, c, StopCall);
      if c.stopping.None? && !c.state.Stopped? then
        && c'.state == Stopped && c'.lifecycle == c.lifecycle + 1 && c'.current == None && c'.retryDelay == None
        && c'.backoffTimer == None && c'.stableTimer == None
        && c'.stopping == Some(c.nextHandle) && added == {StopCleanup(c.nextHandle)} && c'.nextHandle > c.nextHandle
      else (c', added) == (c, {})
    ensures
      React(p, c, StopEnds(handle)) == (if c.stopping == Some(handle) then c.(stopping := None) else c, {})
  {
  }

  // --- The controller object -------------------------------------------------------------------------------

  class LocalBridgeReconnectController {
    var state: State
    var lifecycleGeneration: nat
    var attemptGeneration: nat
    var consecutiveFailures: nat
    var lastFailure: Option<Reason>
    var retryDelayMs: Option<real>
    var deviceId: Option<DeviceId>
    var currentAttempt: Option<Attempt>
    var attemptFailure: Option<Failure>
    var backoffTimer: Option<Handle>
    var stableReadyTimer: Option<Handle>
    var stopPromise: Option<Handle>
    var nextHandle: Handle
    const policy: Policy

    function Contents(): Controller
      reads this
    {
      Controller(state, lifecycleGeneration, attemptGeneration, consecutiveFailures, lastFailure, retryDelayMs,
                 deviceId, currentAttempt, attemptFailure, backoffTimer, stableReadyTimer, stopPromise, nextHandle)
    }

    constructor (policy: Policy)
      requires ValidPolicy(policy)
      ensures Contents() == INITIAL && this.policy == policy
    {
      state, lifecycleGeneration, attemptGeneration, consecutiveFailures := Idle, 0, 0, 0;
      lastFailure, retryDelayMs, deviceId, currentAttempt, attemptFailure := None, None, None, None, None;
      backoffTimer, stableReadyTimer, stopPromise, nextHandle := None, None, None, 0;
      this.policy := policy;
    }

    method BeginAttempt(lifecycle: nat) returns (added: set<Pending>)
      modifies this`state, this`retryDelayMs
      ensures (Contents(), added) == StartAttempt(old(Contents()), lifecycle)
    {
      if lifecycle != lifecycleGeneration {
        return {};
      }
      retryDelayMs, state := None, Connecting;
      added := {Loading(lifecycle)};
    }

    method Start() returns (added: set<Pending>)
      modifies this
      ensures (Contents(), added) == StartCalled(old(Contents()))
    {
      if stopPromise.Some? || state.Connecting? || state.Ready? || state.Backoff? {
        return {};
      }
      backoffTimer, stableReadyTimer := None, None;
      lifecycleGeneration := lifecycleGeneration + 1;
      attemptGeneration, consecutiveFailures := 0, 0;
      lastFailure, retryDelayMs, deviceId := None, None, None;
      added := BeginAttempt(lifecycleGeneration);
    }

    method Stop() returns (added: set<Pending>)
      modifies this
      ensures (Contents(), added) == StopCalled(old(Contents()))
    {
      if stopPromise.Some? || state.Stopped? {
        return {};
      }
      lifecycleGeneration := lifecycleGeneration + 1;
      backoffTimer, stableReadyTimer, retryDelayMs := None, None, None;
      currentAttempt, attemptFailure, state := None, None, Stopped;
      stopPromise := Some(nextHandle);
      added := {StopCleanup(nextHandle)};
      nextHandle := nextHandle + 1;
    }

    method AfterFailure(lifecycle: nat, f: Failure, random: Option<real>) returns (added: set<Pending>)
      requires ValidPolicy(policy)
      modifies this
      ensures (Contents(), added) == TransitionAfterFailure(policy, old(Contents()), lifecycle, f, random)
    {
      if lifecycle != lifecycleGeneration {
        return {};
      }
      lastFailure, retryDelayMs, added := Some(Failed(f)), None, {};
      match ClassifyBridgeFailure(f) {
        case AuthFailure => state := AuthFailedState;
        case ProtocolFailure => state := ProtocolFailedState;
        case Retry =>
          consecutiveFailures := consecutiveFailures + 1;
          retryDelayMs := Some(CalculateReconnectDelay(consecutiveFailures, policy, random));
          state, backoffTimer := Backoff, Some(nextHandle);
          added := {BackoffTimer(nextHandle, lifecycle)};
          nextHandle := nextHandle + 1;
      }
    }

    method AfterLoad(lifecycle: nat, r: LoadResult, random: Option<real>) returns (added: set<Pending>)
      requires ValidPolicy(policy)
      modifies this
      ensures (Contents(), added) == CredentialLoaded(policy, old(Contents()), lifecycle, r, random)
    {
      if lifecycle != lifecycleGeneration {
        return {};
      }
      match r {
        case LoadFailed(code) =>
          lastFailure, state := Some(Failed(Storage(code))), CredentialFailed;
          added := {};
        case NoCredential =>
          lastFailure, state := Some(CredentialMissing), PairingRequired;
          added := {};
        case FactoryFailed(device, f) =>
          deviceId, attemptGeneration := Some(device), attemptGeneration + 1;
          added := AfterFailure(lifecycle, f, random);
        case Loaded(device) =>
          deviceId, attemptGeneration := Some(device), attemptGeneration + 1;
          currentAttempt, attemptFailure := Some(Attempt(lifecycle, attemptGeneration)), None;
          added := {Connect(currentAttempt.value)};
      }
    }

    method AfterConnect(a: Attempt) returns (added: set<Pending>)
      modifies this
      ensures (Contents(), added) == Connected(policy, old(Contents()), a)
    {
      if !IsCurrent(Contents(), a) {
        return {};
      }
      lastFailure, retryDelayMs, state, stableReadyTimer := None, None, Ready, None;
      if policy.stableReadyMs == 0.0 {
        consecutiveFailures := 0;
        return {};
      }
      stableReadyTimer := Some(nextHandle);
      added := {StableTimer(nextHandle, a)};
      nextHandle := nextHandle + 1;
    }

    method AfterConnectFailure(a: Attempt, f: Failure) returns (added: set<Pending>)
      modifies this`currentAttempt, this`attemptFailure, this`stableReadyTimer
      ensures (Contents(), added) == ConnectFailed(old(Contents()), a, f)
    {
      if !IsCurrent(Contents(), a) {
        return {};
      }
      added := {CloseThenFail(a, if attemptFailure.Some? then attemptFailure.value else f)};
      currentAttempt, attemptFailure, stableReadyTimer := None, None, None;
    }

    method OnTransportClose(a: Attempt, random: Option<real>) returns (added: set<Pending>)
      requires ValidPolicy(policy)
      modifies this
      ensures (Contents(), added) == TransportClosed(policy, old(Contents()), a, random)
    {
      if !IsCurrent(Contents(), a) {
        return {};
      }
      var f := if attemptFailure.Some? then attemptFailure.value else Bridge(SessionClosed);
      currentAttempt, attemptFailure, stableReadyTimer := None, None, None;
      added := AfterFailure(a.lifecycle, f, random);
    }

    method OnTransportError(a: Attempt, f: Failure)
      modifies this`attemptFailure
      ensures Contents() == TransportError(old(Contents()), a, f)
    {
      if IsCurrent(Contents(), a) {
        attemptFailure := Some(f);
      }
    }

    method OnBackoffTimer(handle: Handle, lifecycle: nat) returns (added: set<Pending>)
      modifies this`backoffTimer, this`state, this`retryDelayMs
      ensures (Contents(), added) == BackoffFires(old(Contents()), handle, lifecycle)
    {
      if backoffTimer != Some(handle) {
        return {};
      }
      backoffTimer := None;
      if lifecycle != lifecycleGeneration || !state.Backoff? {
        return {};
      }
      added := BeginAttempt(lifecycle);
    }

    method OnStableTimer(handle: Handle, a: Attempt)
      modifies this`stableReadyTimer, this`consecutiveFailures, this`lastFailure
      ensures Contents() == StableFires(old(Contents()), handle, a)
    {
      if stableReadyTimer != Some(handle) {
        return;
      }
      stableReadyTimer := None;
      if IsCurrent(Contents(), a) && state.Ready? {
        consecutiveFailures, lastFailure := 0, None;
      }
    }
  }
}
