/**
 * The reconnect delay and the classification of failures. Numbers are reals: an overflowing
 * power is larger than every maximum either way.
 */
module ReconnectDelay {
  import opened Wrappers

  datatype Policy = Policy(minDelayMs: real, maxDelayMs: real, factor: real, jitterRatio: real, stableReadyMs: real)

  predicate ValidPolicy(p: Policy) {
    && p.minDelayMs > 0.0 && p.maxDelayMs >= p.minDelayMs && p.factor >= 1.0
    && 0.0 <= p.jitterRatio <= 1.0 && p.stableReadyMs >= 0.0
  }

  function Power(x: real, n: nat): real {
    if n == 0 then 1.0 else x * Power(x, n - 1)
  }

  function MinReal(a: real, b: real): real {
    if a < b then a else b
  }

  function MaxReal(a: real, b: real): real {
    if a < b then b else a
  }

  function Clamp(x: real, low: real, high: real): real {
    MinReal(high, MaxReal(low, x))
  }

  /** Rounding half up. */
  function Round(x: real): real {
    (x + 0.5).Floor as real
  }

  /** The delay before jitter: exponential, up to the maximum. */
  function Base(failure: nat, p: Policy): real
    requires failure > 0
  {
    MinReal(p.maxDelayMs, p.minDelayMs * Power(p.factor, failure - 1))
  }

  /** The random number brought into the unit interval, and that onto [-1, 1]. */
  function Swing(random: Option<real>): (x: real)
    ensures -1.0 <= x <= 1.0
  {
    (match random case None => 0.5 case Some(x) => MinReal(1.0, MaxReal(0.0, x))) * 2.0 - 1.0
  }

  /** `random` is absent when the random source did not return a finite number. */
  function Multiplier(random: Option<real>, p: Policy): real {
    1.0 + Swing(random) * p.jitterRatio
  }

  function JitteredDelay(base: real, m: real, p: Policy): (delay: real)
    requires ValidPolicy(p)
    ensures p.minDelayMs <= delay <= p.maxDelayMs
  {
    Clamp(Round(base * m), p.minDelayMs, p.maxDelayMs)
  }

  function CalculateReconnectDelay(failure: nat, p: Policy, random: Option<real>): (delay: real)
    requires failure > 0 && ValidPolicy(p)
    ensures p.minDelayMs <= delay <= p.maxDelayMs
  {
    JitteredDelay(Base(failure, p), Multiplier(random, p), p)
  }

  lemma ProductMonotone(a: real, b: real, x: real)
    requires a <= b && x >= 0.0
    ensures a * x <= b * x && x * a <= x * b
  {
  }

  lemma {:induction false} PowerAtLeastOne(x: real, n: nat)
    requires x >= 1.0
    ensures Power(x, n) >= 1.0
    decreases n
  {
    if n > 0 {
      PowerAtLeastOne(x, n - 1);
      ProductMonotone(1.0, x, Power(x, n - 1));
    }
  }

  lemma {:induction false} PowerMonotone(x: real, m: nat, n: nat)
    requires x >= 1.0 && m <= n
    ensures Power(x, m) <= Power(x, n)
    decreases n - m
  {
    if m < n {
      PowerMonotone(x, m + 1, n);
      PowerAtLeastOne(x, m);
      ProductMonotone(1.0, x, Power(x, m));
    }
  }

  lemma BaseBounds(failure: nat, later: nat, p: Policy)
    requires 0 < failure <= later && ValidPolicy(p)
    ensures p.minDelayMs <= Base(failure, p) <= Base(later, p) <= p.maxDelayMs
  {
    PowerAtLeastOne(p.factor, failure - 1);
    PowerMonotone(p.factor, failure - 1, later - 1);
    ScaledBounds(Power(p.factor, failure - 1), Power(p.factor, later - 1), p.minDelayMs, p.maxDelayMs);
  }

  lemma ScaledBounds(x: real, y: real, low: real, high: real)
    requires 1.0 <= x <= y && 0.0 < low <= high
    ensures low <= MinReal(high, low * x) <= MinReal(high, low * y) <= high
  {
    ProductMonotone(1.0, x, low);
    ProductMonotone(x, y, low);
  }

  lemma ShareBounds(swing: real, share: real)
    requires -1.0 <= swing <= 1.0 && share >= 0.0
    ensures -share <= swing * share <= share
  {
    ProductMonotone(-1.0, swing, share);
    ProductMonotone(swing, 1.0, share);
  }

  lemma MultiplierBounds(random: Option<real>, p: Policy)
    requires ValidPolicy(p)
    ensures 0.0 <= 1.0 - p.jitterRatio <= Multiplier(random, p) <= 1.0 + p.jitterRatio
  {
    var swing, jitter := Swing(random), p.jitterRatio;
    ShareBounds(swing, jitter);
    assert -jitter <= swing * jitter <= jitter;
    assert Multiplier(random, p) == 1.0 + swing * jitter;
  }

  lemma FloorMonotone(a: real, b: real)
    requires a <= b
    ensures a.Floor <= b.Floor
  {
  }

  lemma RoundMonotone(a: real, b: real)
    requires a <= b
    ensures Round(a) <= Round(b)
  {
    FloorMonotone(a + 0.5, b + 0.5);
  }

  lemma RoundNear(x: real)
    ensures x - 0.5 <= Round(x) <= x + 0.5
  {
  }

  lemma ClampMonotone(a: real, b: real, low: real, high: real)
    requires a <= b
    ensures Clamp(a, low, high) <= Clamp(b, low, high)
  {
  }

  /** More failures never mean a shorter delay, for the same random number. */
  lemma DelayGrows(failure: nat, later: nat, p: Policy, random: Option<real>)
    requires 0 < failure <= later && ValidPolicy(p)
    ensures CalculateReconnectDelay(failure, p, random) <= CalculateReconnectDelay(later, p, random)
  {
    BaseBounds(failure, later, p);
    MultiplierBounds(random, p);
    var base, laterBase, m := Base(failure, p), Base(later, p), Multiplier(random, p);
    GrowsFrom(base, laterBase, m, p);
  }

  lemma GrowsFrom(base: real, later: real, m: real, p: Policy)
    requires base <= later && m >= 0.0 && ValidPolicy(p)
    ensures JitteredDelay(base, m, p) <= JitteredDelay(later, m, p)
  {
    ProductMonotone(base, later, m);
    RoundMonotone(base * m, later * m);
    ClampMonotone(Round(base * m), Round(later * m), p.minDelayMs, p.maxDelayMs);
  }

  lemma ClampNear(x: real, below: real, above: real, low: real, high: real)
    requires below <= x <= above && below <= high && low <= above
    ensures below <= Clamp(x, low, high) <= above
  {
  }

  /** The jittered base before rounding. */
  lemma JitterNear(base: real, swing: real, m: real, share: real, jitter: real)
    requires base >= 0.0 && jitter >= 0.0 && -1.0 <= swing <= 1.0
    requires share == base * jitter && m == 1.0 + swing * jitter
    ensures 0.0 <= share && base - share <= base * m <= base + share
  {
    ProductMonotone(0.0, jitter, base);
    ShareBounds(swing, share);
    assert base * m == base + swing * share;
  }

  lemma NearValue(x: real, base: real, share: real, p: Policy)
    requires ValidPolicy(p) && 0.0 <= share && base - share <= x <= base + share
    requires p.minDelayMs <= base <= p.maxDelayMs
    ensures base - share - 0.5 <= Clamp(Round(x), p.minDelayMs, p.maxDelayMs) <= base + share + 0.5
  {
    RoundNear(x);
    ClampNear(Round(x), base - share - 0.5, base + share + 0.5, p.minDelayMs, p.maxDelayMs);
  }

  lemma JitteredDelayNear(base: real, swing: real, m: real, share: real, p: Policy)
    requires ValidPolicy(p) && -1.0 <= swing <= 1.0
    requires share == base * p.jitterRatio && m == 1.0 + swing * p.jitterRatio
    requires p.minDelayMs <= base <= p.maxDelayMs
    ensures base - share - 0.5 <= JitteredDelay(base, m, p) <= base + share + 0.5
  {
    JitterNear(base, swing, m, share, p.jitterRatio);
    NearValue(base * m, base, share, p);
  }

  /** Jitter moves the delay by at most its share of the base, up to rounding and the limits. */
  lemma DelayNearBase(failure: nat, p: Policy, random: Option<real>)
    requires 0 < failure && ValidPolicy(p)
    ensures
      var delay, base := CalculateReconnectDelay(failure, p, random), Base(failure, p);
      base - base * p.jitterRatio - 0.5 <= delay <= base + base * p.jitterRatio + 0.5
  {
    BaseBounds(failure, failure, p);
    JitteredDelayNear(Base(failure, p), Swing(random), Multiplier(random, p), Base(failure, p) * p.jitterRatio, p);
  }

  // --- The delay as the policy describes it ------------------------------------------------------------

  /** Without limits and jitter: the minimum, and with every further failure `factor` times as much. */
  function Growing(failure: nat, p: Policy): real
    requires failure > 0
  {
    if failure == 1 then p.minDelayMs else Growing(failure - 1, p) * p.factor
  }

  /** `m` is what jitter multiplies a delay by, for a number of the unit interval: nothing at a half. */
  predicate IsJitter(m: real, unit: real, p: Policy) {
    m == 1.0 - p.jitterRatio + 2.0 * unit * p.jitterRatio
  }

  /** The unit number that a random number stands for. */
  predicate StandsFor(random: Option<real>, unit: real) {
    match random
    case None => unit == 0.5
    case Some(x) => if x < 0.0 then unit == 0.0 else if x > 1.0 then unit == 1.0 else unit == x
  }

  /** Into the limits. */
  function Limited(x: real, p: Policy): real {
    if x > p.maxDelayMs then p.maxDelayMs else if x < p.minDelayMs then p.minDelayMs else x
  }

  lemma {:induction false} GrowingIsPower(failure: nat, p: Policy)
    requires failure > 0
    ensures Growing(failure, p) == p.minDelayMs * Power(p.factor, failure - 1)
    decreases failure
  {
    if failure > 1 {
      GrowingIsPower(failure - 1, p);
      var min, power := p.minDelayMs, Power(p.factor, failure - 2);
      assert min * power * p.factor == min * (p.factor * power);
    }
  }

  lemma MultiplierIs(random: Option<real>, unit: real, m: real, p: Policy)
    requires StandsFor(random, unit) && IsJitter(m, unit, p)
    ensures Multiplier(random, p) == m
  {
    var j := p.jitterRatio;
    assert Swing(random) == unit * 2.0 - 1.0;
    assert (unit * 2.0 - 1.0) * j == 2.0 * unit * j - j;
  }

  /** Rounding and limiting lead next to the limited number. */
  predicate NearlyIs(delay: real, goal: real, p: Policy) {
    && goal - 0.5 <= delay <= goal + 0.5
    && (delay == delay.Floor as real || delay == p.minDelayMs || delay == p.maxDelayMs)
  }

  lemma RoundedNear(x: real, p: Policy)
    requires ValidPolicy(p)
    ensures NearlyIs(Clamp(Round(x), p.minDelayMs, p.maxDelayMs), Limited(x, p), p)
  {
    RoundNear(x);
  }

  lemma JitteredNear(base: real, m: real, goal: real, p: Policy)
    requires ValidPolicy(p) && goal == base * m
    ensures NearlyIs(JitteredDelay(base, m, p), Limited(goal, p), p)
  {
    RoundedNear(goal, p);
  }

  function Capped(failure: nat, p: Policy): real
    requires failure > 0
  {
    if Growing(failure, p) > p.maxDelayMs then p.maxDelayMs else Growing(failure, p)
  }

  lemma BaseIs(failure: nat, p: Policy)
    requires failure > 0
    ensures Base(failure, p) == Capped(failure, p)
  {
    GrowingIsPower(failure, p);
  }

  /** The delay is the growing one, capped, jittered and brought into the limits, up to rounding. */
  lemma DelayFollowsPolicy(failure: nat, p: Policy, random: Option<real>, unit: real, m: real, goal: real)
    requires failure > 0 && ValidPolicy(p) && StandsFor(random, unit) && IsJitter(m, unit, p)
    requires goal == Capped(failure, p) * m
    ensures NearlyIs(CalculateReconnectDelay(failure, p, random), Limited(goal, p), p)
  {
    BaseIs(failure, p);
    MultiplierIs(random, unit, m, p);
    JitteredNear(Base(failure, p), m, goal, p);
  }

  lemma NextGoal(growing: real, later: real, factor: real, m: real, goal: real, next: real)
    requires goal == growing * m && next == factor * goal && later == growing * factor
    requires factor >= 1.0 && goal >= 0.0
    ensures next == later * m && goal <= next
  {
    assert growing * factor * m == factor * (growing * m);
    ProductMonotone(1.0, factor, goal);
    assert 1.0 * goal == goal;
  }

  /** While it is within the limits the jittered delay is the goal, up to rounding. */
  lemma UnlimitedDelay(failure: nat, p: Policy, random: Option<real>, unit: real, m: real, growing: real, goal: real)
    requires failure > 0 && ValidPolicy(p) && StandsFor(random, unit) && IsJitter(m, unit, p)
    requires growing == Growing(failure, p) <= p.maxDelayMs && goal == growing * m
    requires p.minDelayMs <= goal <= p.maxDelayMs
    ensures NearlyIs(CalculateReconnectDelay(failure, p, random), goal, p)
  {
    DelayFollowsPolicy(failure, p, random, unit, m, goal);
  }

  /** As long as the limits are not met, one more failure multiplies that goal by the factor. */
  lemma OneMoreFailureMultiplies(failure: nat, p: Policy, random: Option<real>, unit: real, m: real,
                                 growing: real, later: real, goal: real, next: real)
    requires failure > 0 && ValidPolicy(p) && StandsFor(random, unit) && IsJitter(m, unit, p)
    requires growing == Growing(failure, p) <= p.maxDelayMs && goal == growing * m && p.minDelayMs <= goal
    requires later == Growing(failure + 1, p) <= p.maxDelayMs && next == p.factor * goal <= p.maxDelayMs
    ensures NearlyIs(CalculateReconnectDelay(failure + 1, p, random), next, p)
  {
    NextGoal(growing, later, p.factor, m, goal, next);
    UnlimitedDelay(failure + 1, p, random, unit, m, later, next);
  }

  // --- Failures ------------------------------------------------------------------------------------------

  datatype BridgeCode =
    | AuthFailed | AuthRequired
    | SocketError | SessionClosed | Timeout
    | InvalidMessage | MessageTooLarge | UnsupportedVersion | HandshakeRequired | UnexpectedMessage
    | Backpressure | InvalidState

  datatype StorageCode = InvalidCredentialRecord | StorageInvalid | StorageFailed

  datatype Failure = Bridge(code: BridgeCode) | Storage(storageCode: StorageCode) | Other

  datatype Disposition = Retry | AuthFailure | ProtocolFailure

  function ClassifyBridgeFailure(f: Failure): Disposition {
    match f
    case Bridge(AuthFailed) => AuthFailure
    case Bridge(AuthRequired) => AuthFailure
    case Bridge(SocketError) => Retry
    case Bridge(SessionClosed) => Retry
    case Bridge(Timeout) => Retry
    case Bridge(_) => ProtocolFailure
    case _ => Retry
  }
}
