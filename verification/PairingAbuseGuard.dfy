/** The fixed-window rate limiter of the pairing endpoints: one bucket per key. */
module PairingAbuseGuard {
  import opened Wrappers

  const MAX_ADDRESS_LENGTH := 128

  datatype Key = Start(address: string) | Claim(ownerId: string)

  datatype Bucket = Bucket(startedAt: int, count: nat)

  type Buckets = map<Key, Bucket>

  datatype Config = Config(windowMs: int, maxStarts: nat, maxClaims: nat, maxBuckets: nat)

  predicate ValidConfig(c: Config) {
    c.windowMs > 0 && c.maxStarts > 0 && c.maxClaims > 0 && c.maxBuckets > 0
  }

  function LimitOf(c: Config, key: Key): nat {
    if key.Start? then c.maxStarts else c.maxClaims
  }

  /** Missing, empty and overlong addresses share one bucket, named "unknown". */
  function StartKey(address: Option<string>): Key {
    match address
    case Some(a) => Start(if 0 < |a| <= MAX_ADDRESS_LENGTH then a else "unknown")
    case None => Start("unknown")
  }

  predicate Expired(c: Config, b: Bucket, now: int) {
    now >= b.startedAt && now - b.startedAt >= c.windowMs
  }

  function Cleaned(c: Config, buckets: Buckets, now: int): Buckets {
    map key | key in buckets && !Expired(c, buckets[key], now) :: buckets[key]
  }

  /** A call is accepted or rejected; `now` is absent when the clock is not finite. */
  function Consume(c: Config, buckets: Buckets, key: Key, now: Option<int>): (Buckets, bool) {
    match now
    case None => (buckets, false)
    case Some(t) =>
      var cleaned := Cleaned(c, buckets, t);
      if key !in cleaned then
        if |cleaned| >= c.maxBuckets then (cleaned, false) else (cleaned[key := Bucket(t, 1)], true)
      else if t < cleaned[key].startedAt || cleaned[key].count >= LimitOf(c, key) then (cleaned, false)
      else (cleaned[key := cleaned[key].(count := cleaned[key].count + 1)], true)
  }

  class InMemoryPairingAbuseGuard {
    var buckets: Buckets
    const config: Config

    ghost predicate Valid()
      reads this
    {
      ValidConfig(config) && ValidBuckets(config, buckets)
    }

    constructor (config: Config)
      requires ValidConfig(config)
      ensures Valid() && buckets == map[] && this.config == config
    {
      this.config := config;
      buckets := map[];
    }

    method Cleanup(now: int)
      modifies this
      ensures buckets == Cleaned(config, old(buckets), now)
    {
      var unseen := buckets.Keys;
      while unseen != {}
        invariant unseen <= old(buckets).Keys
        invariant buckets == map key | key in old(buckets) && (key in unseen || !Expired(config, old(buckets)[key], now))
                               :: old(buckets)[key]
        decreases |unseen|
      {
        var key :| key in unseen;
        if Expired(config, buckets[key], now) {
          buckets := buckets - {key};
        }
        unseen := unseen - {key};
      }
    }

    method ConsumeOne(key: Key, now: Option<int>) returns (accepted: bool)
      requires Valid()
      modifies this
      ensures Valid() && (buckets, accepted) == Consume(config, old(buckets), key, now)
    {
      ConsumeKeepsValid(config, buckets, key, now);
      if now.None? {
        return false;
      }
      var t := now.value;
      Cleanup(t);
      ghost var cleaned := buckets;
      var bucket := Bucket(t, 0);
      if key !in buckets {
        if |buckets| >= config.maxBuckets {
          return false;
        }
        buckets := buckets[key := bucket];
        assert cleaned[key := bucket][key := Bucket(t, 1)] == cleaned[key := Bucket(t, 1)];
      } else if t < buckets[key].startedAt {
        return false;
      } else {
        // An expired bucket is gone by now, so no window is reset in place.
        bucket := buckets[key];
        assert t - bucket.startedAt < config.windowMs;
      }
      if bucket.count >= LimitOf(config, key) {
        return false;
      }
      buckets := buckets[key := bucket.(count := bucket.count + 1)];
      accepted := true;
    }

    method BeforeStart(address: Option<string>, now: Option<int>) returns (accepted: bool)
      requires Valid()
      modifies this
      ensures Valid() && (buckets, accepted) == Consume(config, old(buckets), StartKey(address), now)
    {
      var key := if address.Some? && address.value != "" && |address.value| <= MAX_ADDRESS_LENGTH
                 then Start(address.value) else Start("unknown");
      accepted := ConsumeOne(key, now);
    }

    method BeforeClaim(ownerId: string, now: Option<int>) returns (accepted: bool)
      requires Valid()
      modifies this
      ensures Valid() && (buckets, accepted) == Consume(config, old(buckets), Claim(ownerId), now)
    {
      accepted := ConsumeOne(Claim(ownerId), now);
    }
  }

  // --- What every call keeps ---------------------------------------------------------------------------

  /** Buckets are in use and within their limit, and there are not too many of them. */
  predicate ValidBuckets(c: Config, buckets: Buckets) {
    |buckets| <= c.maxBuckets && forall key <- buckets :: 1 <= buckets[key].count <= LimitOf(c, key)
  }

  lemma ConsumeKeepsValid(c: Config, buckets: Buckets, key: Key, now: Option<int>)
    requires ValidConfig(c) && ValidBuckets(c, buckets)
    ensures ValidBuckets(c, Consume(c, buckets, key, now).0)
  {
    if now.Some? {
      SubsetSize(Cleaned(c, buckets, now.value).Keys, buckets.Keys);
    }
  }

  /** The window of a bucket is still open; one from the future, on a clock that fell back, is so too. */
  predicate WindowOpen(c: Config, buckets: Buckets, key: Key, t: int) {
    key in buckets && t < buckets[key].startedAt + c.windowMs
  }

  /** A call is accepted within the limit of its open window, or opens one while there is room for a bucket. */
  lemma CallsAreAcceptedExactly(c: Config, buckets: Buckets, key: Key, t: int)
    requires ValidConfig(c)
    ensures
      var (buckets', accepted) := Consume(c, buckets, key, Some(t));
      var limit := match key case Start(_) => c.maxStarts case Claim(_) => c.maxClaims;
      && (accepted <==>
            if WindowOpen(c, buckets, key, t) then buckets[key].startedAt <= t && buckets[key].count < limit
            else |set k | k in buckets && WindowOpen(c, buckets, k, t)| < c.maxBuckets)
      && (accepted ==> key in buckets' && buckets'[key] == (if WindowOpen(c, buckets, key, t)
            then Bucket(buckets[key].startedAt, buckets[key].count + 1) else Bucket(t, 1)))
      && (forall k | k != key || !accepted ::
            (k in buckets' <==> WindowOpen(c, buckets, k, t)) && (k in buckets' ==> buckets'[k] == buckets[k]))
    ensures Consume(c, buckets, key, None) == (buckets, false)
  {
    assert Cleaned(c, buckets, t).Keys == set k | k in buckets && WindowOpen(c, buckets, k, t);
  }

  predicate Unnamed(address: Option<string>) {
    address.None? || address.value == "" || |address.value| > 128 || address.value == "unknown"
  }

  /** Addresses have keys of their own, but for those that are missing, empty, overlong or called "unknown". */
  lemma AddressesShareOnlyUnknown(a: Option<string>, b: Option<string>, ownerId: string)
    ensures StartKey(a) == StartKey(b) <==> a == b || (Unnamed(a) && Unnamed(b))
    ensures StartKey(a) != Claim(ownerId)
  {
  }

  // --- How many calls are accepted ---------------------------------------------------------------------

  datatype Call = Call(key: Key, now: Option<int>)

  /** Clock readings do not fall. */
  predicate Ascending(calls: seq<Call>, from: int)
    decreases |calls|
  {
    calls == []
    || (match calls[0].now
        case None => Ascending(calls[1..], from)
        case Some(t) => from <= t && Ascending(calls[1..], t))
  }

  function RunCalls(c: Config, buckets: Buckets, calls: seq<Call>): Buckets
    decreases |calls|
  {
    if calls == [] then buckets
    else RunCalls(c, Consume(c, buckets, calls[0].key, calls[0].now).0, calls[1..])
  }

  /** How many calls of one key are accepted at times from `first` up to but not including `end`. */
  function AcceptedIn(c: Config, buckets: Buckets, calls: seq<Call>, key: Key, first: int, end: int): nat
    decreases |calls|
  {
    if calls == [] then 0
    else
      var (next, accepted) := Consume(c, buckets, calls[0].key, calls[0].now);
      (if accepted && calls[0].key == key && first <= calls[0].now.value < end then 1 else 0)
      + AcceptedIn(c, next, calls[1..], key, first, end)
  }

  /** What is still left to a key in a span that begins at `first`, when the clock reads `now`. */
  function Allowance(c: Config, buckets: Buckets, key: Key, first: int, now: int): int {
    var limit := LimitOf(c, key);
    if key !in buckets then (if now >= first then limit else 2 * limit - 1)
    else if buckets[key].startedAt >= first then limit - buckets[key].count
    else if now >= first then 2 * limit - buckets[key].count
    else 2 * limit - 1
  }

  lemma StepUsesAllowance(c: Config, buckets: Buckets, call: Call, key: Key, first: int, end: int, now: int)
    requires ValidConfig(c) && ValidBuckets(c, buckets) && end <= first + c.windowMs
    requires call.now.Some? && now <= call.now.value < end
    requires key in buckets ==> buckets[key].startedAt <= now
    ensures
      var (next, accepted) := Consume(c, buckets, call.key, call.now);
      && (key in next ==> next[key].startedAt <= call.now.value)
      && Allowance(c, next, key, first, call.now.value)
         + (if accepted && call.key == key && first <= call.now.value then 1 else 0)
         <= Allowance(c, buckets, key, first, now)
  {
  }

  lemma {:induction false} NothingAcceptedAfter(c: Config, buckets: Buckets, calls: seq<Call>, key: Key,
                                                first: int, end: int, now: int)
    requires Ascending(calls, now) && end <= now
    ensures AcceptedIn(c, buckets, calls, key, first, end) == 0
    decreases |calls|
  {
    if calls != [] {
      var later := if calls[0].now.Some? then calls[0].now.value else now;
      NothingAcceptedAfter(c, Consume(c, buckets, calls[0].key, calls[0].now).0, calls[1..], key, first, end, later);
    }
  }

  lemma {:induction false} AcceptedWithinAllowance(c: Config, buckets: Buckets, calls: seq<Call>, key: Key,
                                                   first: int, end: int, now: int)
    requires ValidConfig(c) && ValidBuckets(c, buckets) && Ascending(calls, now) && end <= first + c.windowMs
    requires key in buckets ==> buckets[key].startedAt <= now
    ensures AcceptedIn(c, buckets, calls, key, first, end) <= Allowance(c, buckets, key, first, now)
    decreases |calls|
  {
    if calls != [] {
      var call := calls[0];
      var next := Consume(c, buckets, call.key, call.now).0;
      ConsumeKeepsValid(c, buckets, call.key, call.now);
      if call.now.None? {
        AcceptedWithinAllowance(c, next, calls[1..], key, first, end, now);
      } else if call.now.value < end {
        StepUsesAllowance(c, buckets, call, key, first, end, now);
        AcceptedWithinAllowance(c, next, calls[1..], key, first, end, call.now.value);
      } else {
        NothingAcceptedAfter(c, next, calls[1..], key, first, end, call.now.value);
      }
    }
  }

  /**
   * Under a clock that does not fall, no span shorter than the window sees 2 * limit calls of
   * one key accepted, however often its bucket was dropped and made anew.
   */
  lemma SpanBound(c: Config, calls: seq<Call>, key: Key, first: int, end: int, start: int)
    requires ValidConfig(c) && Ascending(calls, start) && end <= first + c.windowMs
    ensures AcceptedIn(c, map[], calls, key, first, end) <= 2 * LimitOf(c, key) - 1
  {
    AcceptedWithinAllowance(c, map[], calls, key, first, end, start);
  }

  lemma OpeningCall(c: Config, buckets: Buckets, calls: seq<Call>, key: Key, openedAt: int)
    requires ValidConfig(c) && ValidBuckets(c, buckets) && Ascending(calls, openedAt)
    requires calls != [] && calls[0] == Call(key, Some(openedAt))
    requires key !in Cleaned(c, buckets, openedAt)
    ensures AcceptedIn(c, buckets, calls, key, openedAt, openedAt + c.windowMs) <= LimitOf(c, key)
  {
    var (next, accepted) := Consume(c, buckets, key, Some(openedAt));
    ConsumeKeepsValid(c, buckets, key, Some(openedAt));
    assert accepted ==> next[key] == Bucket(openedAt, 1);
    AcceptedWithinAllowance(c, next, calls[1..], key, openedAt, openedAt + c.windowMs, openedAt);
  }

  /** From the call that opens a window on, at most `limit` calls of its key are accepted in it. */
  lemma WindowBound(c: Config, before: seq<Call>, calls: seq<Call>, key: Key, openedAt: int)
    requires ValidConfig(c) && Ascending(calls, openedAt)
    requires calls != [] && calls[0] == Call(key, Some(openedAt))
    requires key !in Cleaned(c, RunCalls(c, map[], before), openedAt)
    ensures AcceptedIn(c, RunCalls(c, map[], before), calls, key, openedAt, openedAt + c.windowMs) <= LimitOf(c, key)
  {
    RunKeepsValid(c, map[], before);
    OpeningCall(c, RunCalls(c, map[], before), calls, key, openedAt);
  }

  lemma {:induction false} RunKeepsValid(c: Config, buckets: Buckets, calls: seq<Call>)
    requires ValidConfig(c) && ValidBuckets(c, buckets)
    ensures ValidBuckets(c, RunCalls(c, buckets, calls))
    decreases |calls|
  {
    if calls != [] {
      ConsumeKeepsValid(c, buckets, calls[0].key, calls[0].now);
      RunKeepsValid(c, Consume(c, buckets, calls[0].key, calls[0].now).0, calls[1..]);
    }
  }

  // --- The bound is reached ----------------------------------------------------------------------------

  /** A call made `n` times, and then others. */
  function Repeat(call: Call, n: nat, rest: seq<Call>): seq<Call> {
    if n == 0 then rest else [call] + Repeat(call, n - 1, rest)
  }

  lemma HeadCounts(c: Config, buckets: Buckets, call: Call, rest: seq<Call>, key: Key, first: int, end: int)
    requires call.key == key && call.now.Some?
    ensures
      var (next, accepted) := Consume(c, buckets, call.key, call.now);
      AcceptedIn(c, buckets, [call] + rest, key, first, end)
      == (if accepted && first <= call.now.value < end then 1 else 0) + AcceptedIn(c, next, rest, key, first, end)
  {
    assert ([call] + rest)[1..] == rest;
  }

  /** At the time `t`, `n` more calls of the key are within its open window and its limit. */
  predicate Room(c: Config, buckets: Buckets, key: Key, t: int, n: nat) {
    && Cleaned(c, buckets, t) == buckets && key in buckets
    && buckets[key].startedAt <= t && buckets[key].count + n <= LimitOf(c, key)
  }

  function Counted(buckets: Buckets, key: Key, n: nat): Buckets
    requires key in buckets
  {
    buckets[key := Bucket(buckets[key].startedAt, buckets[key].count + n)]
  }

  lemma OneRepeat(c: Config, buckets: Buckets, key: Key, t: int, n: nat)
    requires n > 0 && Room(c, buckets, key, t, n)
    ensures Consume(c, buckets, key, Some(t)) == (Counted(buckets, key, 1), true)
    ensures Room(c, Counted(buckets, key, 1), key, t, n - 1)
    ensures Counted(Counted(buckets, key, 1), key, n - 1) == Counted(buckets, key, n)
  {
    var next := Counted(buckets, key, 1);
    assert key in Cleaned(c, buckets, t);
    assert !Expired(c, buckets[key], t);
    assert Cleaned(c, next, t) == next;
  }

  lemma {:induction false} RepeatsAreAccepted(c: Config, buckets: Buckets, key: Key, t: int, n: nat,
                                              rest: seq<Call>, first: int, end: int)
    requires Room(c, buckets, key, t, n) && first <= t < end
    ensures AcceptedIn(c, buckets, Repeat(Call(key, Some(t)), n, rest), key, first, end)
         == n + AcceptedIn(c, Counted(buckets, key, n), rest, key, first, end)
    decreases n
  {
    if n == 0 {
      assert Counted(buckets, key, 0) == buckets;
    } else {
      var next, later := Counted(buckets, key, 1), Repeat(Call(key, Some(t)), n - 1, rest);
      OneRepeat(c, buckets, key, t, n);
      HeadCounts(c, buckets, Call(key, Some(t)), later, key, first, end);
      RepeatsAreAccepted(c, next, key, t, n - 1, rest, first, end);
    }
  }

  lemma FirstCallOpens(c: Config, buckets: Buckets, key: Key, t: int, rest: seq<Call>, first: int, end: int)
    requires ValidConfig(c) && Cleaned(c, buckets, t) == map[]
    ensures AcceptedIn(c, buckets, [Call(key, Some(t))] + rest, key, first, end)
         == (if first <= t < end then 1 else 0) + AcceptedIn(c, map[key := Bucket(t, 1)], rest, key, first, end)
  {
    assert Consume(c, buckets, key, Some(t)) == (map[key := Bucket(t, 1)], true);
    HeadCounts(c, buckets, Call(key, Some(t)), rest, key, first, end);
  }

  /** One call at the time `t`, `n` more at `later`, and the rest. */
  function Volley(key: Key, t: int, later: int, n: nat, rest: seq<Call>): seq<Call> {
    [Call(key, Some(t))] + Repeat(Call(key, Some(later)), n, rest)
  }

  lemma VolleyIsAccepted(c: Config, buckets: Buckets, key: Key, t: int, later: int, n: nat, rest: seq<Call>,
                         first: int, end: int)
    requires ValidConfig(c) && Cleaned(c, buckets, t) == map[] && 1 + n <= LimitOf(c, key)
    requires t <= later < t + c.windowMs && first <= later < end
    ensures AcceptedIn(c, buckets, Volley(key, t, later, n, rest), key, first, end)
         == (if first <= t < end then 1 else 0) + n
            + AcceptedIn(c, map[key := Bucket(t, 1 + n)], rest, key, first, end)
  {
    var one := map[key := Bucket(t, 1)];
    FirstCallOpens(c, buckets, key, t, Repeat(Call(key, Some(later)), n, rest), first, end);
    assert Cleaned(c, one, later) == one;
    RepeatsAreAccepted(c, one, key, later, n, rest, first, end);
    assert Counted(one, key, n) == map[key := Bucket(t, 1 + n)];
  }

  /** One call, `limit - 1` at the end of its window, and `limit` at once when the next begins. */
  function Burst(c: Config, key: Key): seq<Call>
    requires ValidConfig(c)
  {
    Volley(key, 0, c.windowMs - 1, LimitOf(c, key) - 1, Volley(key, c.windowMs, c.windowMs, LimitOf(c, key) - 1, []))
  }

  lemma FirstVolley(c: Config, key: Key, rest: seq<Call>)
    requires ValidConfig(c) && c.windowMs >= 2
    requires AcceptedIn(c, map[key := Bucket(0, LimitOf(c, key))], rest, key, c.windowMs - 1, c.windowMs + 1)
          == LimitOf(c, key)
    ensures AcceptedIn(c, map[], Volley(key, 0, c.windowMs - 1, LimitOf(c, key) - 1, rest),
                       key, c.windowMs - 1, c.windowMs + 1) == 2 * LimitOf(c, key) - 1
  {
    VolleyIsAccepted(c, map[], key, 0, c.windowMs - 1, LimitOf(c, key) - 1, rest, c.windowMs - 1, c.windowMs + 1);
  }

  lemma SecondVolley(c: Config, key: Key)
    requires ValidConfig(c)
    ensures AcceptedIn(c, map[key := Bucket(0, LimitOf(c, key))],
                       Volley(key, c.windowMs, c.windowMs, LimitOf(c, key) - 1, []),
                       key, c.windowMs - 1, c.windowMs + 1) == LimitOf(c, key)
  {
    var w := c.windowMs;
    assert Cleaned(c, map[key := Bucket(0, LimitOf(c, key))], w) == map[];
    VolleyIsAccepted(c, map[key := Bucket(0, LimitOf(c, key))], key, w, w, LimitOf(c, key) - 1, [], w - 1, w + 1);
  }

  /** The bound is exact: within two milliseconds 2 * limit - 1 calls may be accepted. */
  lemma SpanBoundIsReached(c: Config, key: Key)
    requires ValidConfig(c) && c.windowMs >= 2
    ensures AcceptedIn(c, map[], Burst(c, key), key, c.windowMs - 1, c.windowMs + 1) == 2 * LimitOf(c, key) - 1
  {
    SecondVolley(c, key);
    FirstVolley(c, key, Volley(key, c.windowMs, c.windowMs, LimitOf(c, key) - 1, []));
  }
}
