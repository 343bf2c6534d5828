/**
 * The in-memory store of pairing sessions: records by id, ids by code digest, and a bounded
 * queue of tombstones for the digests of pruned records. Every operation runs alone, inside
 * the store's critical section.
 */
module PairingStore {
  import opened Wrappers

  type SessionId = nat
  type Digest = nat
  type DeviceId = nat

  const MAX_TOMBSTONES := 100_000

  datatype State = Pending | Claimed | Cancelled | Expired

  datatype Record = Record(
    digest: Digest,
    createdAt: int,
    expiresAt: int,
    state: State,
    claimedAt: Option<int>,
    device: Option<DeviceId>)

  /** `ids` is the iteration order of the record map, and `order` that of the tombstone queue. */
  datatype Store = Store(
    records: map<SessionId, Record>,
    ids: seq<SessionId>,
    byDigest: map<Digest, SessionId>,
    tombstones: set<Digest>,
    order: seq<Digest>)

  const EMPTY_STORE := Store(map[], [], map[], {}, [])

  datatype Config = Config(maxSessions: nat, claimedRetentionMs: nat)

  datatype ErrorCode =
    | InvalidRecord | SessionAlreadyExists | DigestAlreadyExists | CapacityExceeded
    | CodeUnavailable | InvalidClock | DeviceCreationFailed | SessionNotFound | SessionNotPending

  datatype Response = Session(record: Record) | Count(n: nat) | Error(code: ErrorCode)

  /** `device` is the outcome of creating the device of a claim. */
  datatype Op =
    | Create(id: SessionId, digest: Digest, createdAt: int, expiresAt: int)
    | Claim(digest: Digest, at: int, device: Option<DeviceId>)
    | Cancel(id: SessionId, at: int)
    | Expire(at: int)
    | Prune(at: int)

  /** The session schema: a claim time and a device exactly when claimed, within the lifetime. */
  predicate SchemaValid(r: Record) {
    && r.createdAt < r.expiresAt
    && (if r.state.Claimed?
        then r.claimedAt.Some? && r.device.Some? && r.createdAt <= r.claimedAt.value < r.expiresAt
        else r.claimedAt.None? && r.device.None?)
  }

  /** What is handed out is validated first. */
  function Snapshot(r: Record): Response {
    if SchemaValid(r) then Session(r) else Error(InvalidRecord)
  }

  predicate Expires(r: Record, at: int) {
    r.state.Pending? && at >= r.expiresAt
  }

  function PruneTime(c: Config, r: Record): int {
    if r.state.Claimed? && r.claimedAt.Some? then r.claimedAt.value + c.claimedRetentionMs else r.expiresAt
  }

  function Forget(order: seq<Digest>, tombstones: set<Digest>): (seq<Digest>, set<Digest>) {
    if |order| > MAX_TOMBSTONES then Forget(order[1..], tombstones - {order[0]}) else (order, tombstones)
  }

  /** A record leaves the store; its digest is remembered, and the oldest ones beyond the bound are not. */
  function Bury(s: Store, id: SessionId): Store
    requires id in s.records
  {
    var digest := s.records[id].digest;
    var (order, tombstones) := Forget(s.order + [digest], s.tombstones + {digest});
    Store(s.records - {id}, Without(s.ids, id), s.byDigest - {digest}, tombstones, order)
  }

  function Without(ids: seq<SessionId>, id: SessionId): seq<SessionId> {
    if ids == [] then [] else if ids[0] == id then ids[1..] else [ids[0]] + Without(ids[1..], id)
  }

  function PruneFrom(c: Config, s: Store, ids: seq<SessionId>, at: int): (Store, nat)
    decreases |ids|
  {
    if ids == [] then (s, 0)
    else if ids[0] !in s.records || PruneTime(c, s.records[ids[0]]) > at then PruneFrom(c, s, ids[1..], at)
    else
      var (s', n) := PruneFrom(c, Bury(s, ids[0]), ids[1..], at);
      (s', n + 1)
  }

  function Pruned(c: Config, s: Store, at: int): (Store, nat) {
    PruneFrom(c, s, s.ids, at)
  }

  function ExpiredRecords(records: map<SessionId, Record>, at: int): map<SessionId, Record> {
    map id | id in records :: if Expires(records[id], at) then records[id].(state := State.Expired) else records[id]
  }

  function ExpiringCount(records: map<SessionId, Record>, ids: seq<SessionId>, at: int): nat
    decreases |ids|
  {
    if ids == [] then 0
    else
      var last := ids[|ids| - 1];
      ExpiringCount(records, ids[..|ids| - 1], at)
      + if last in records && Expires(records[last], at) then 1 else 0
  }

  function WithRecord(s: Store, id: SessionId, r: Record): Store
    requires id in s.records
  {
    s.(records := s.records[id := r])
  }

  function CreateIn(c: Config, s: Store, id: SessionId, digest: Digest, createdAt: int, expiresAt: int)
    : (Store, Response)
  {
    if expiresAt <= createdAt then (s, Error(InvalidRecord))
    else
      var p := Pruned(c, s, createdAt).0;
      if id in p.records then (p, Error(SessionAlreadyExists))
      else if digest in p.byDigest || digest in p.tombstones then (p, Error(DigestAlreadyExists))
      else if |p.records| >= c.maxSessions then (p, Error(CapacityExceeded))
      else
        var r := Record(digest, createdAt, expiresAt, Pending, None, None);
        (p.(records := p.records[id := r], ids := p.ids + [id], byDigest := p.byDigest[digest := id]), Snapshot(r))
  }

  function ClaimIn(s: Store, digest: Digest, at: int, device: Option<DeviceId>): (Store, Response) {
    if digest !in s.byDigest || s.byDigest[digest] !in s.records then (s, Error(CodeUnavailable))
    else
      var id := s.byDigest[digest];
      var r := s.records[id];
      if Expires(r, at) then (WithRecord(s, id, r.(state := State.Expired)), Error(CodeUnavailable))
      else if !r.state.Pending? then (s, Error(CodeUnavailable))
      else if at < r.createdAt then (s, Error(InvalidClock))
      else if device.None? then (s, Error(DeviceCreationFailed))
      else
        var claimed := r.(state := Claimed, claimedAt := Some(at), device := device);
        (WithRecord(s, id, claimed), Snapshot(claimed))
  }

  function CancelIn(s: Store, id: SessionId, at: int): (Store, Response) {
    if id !in s.records then (s, Error(SessionNotFound))
    else
      var r := s.records[id];
      if Expires(r, at) then
        (WithRecord(s, id, r.(state := State.Expired)), Snapshot(r.(state := State.Expired)))
      else if !r.state.Pending? then (s, Error(SessionNotPending))
      else if at < r.createdAt then (s, Error(InvalidClock))
      else (WithRecord(s, id, r.(state := Cancelled)), Snapshot(r.(state := Cancelled)))
  }

  function Apply(c: Config, s: Store, op: Op): (Store, Response) {
    match op
    case Create(id, digest, createdAt, expiresAt) => CreateIn(c, s, id, digest, createdAt, expiresAt)
    case Claim(digest, at, device) => ClaimIn(s, digest, at, device)
    case Cancel(id, at) => CancelIn(s, id, at)
    case Expire(at) =>
      (s.(records := ExpiredRecords(s.records, at)), Count(ExpiringCount(s.records, s.ids, at)))
    case Prune(at) =>
      var (s', n) := Pruned(c, s, at);
      (s', Count(n))
  }

  // --- Invariant ---------------------------------------------------------------------------------------

  predicate NoDuplicates<T(==)>(xs: seq<T>) {
    forall i, j | 0 <= i < j < |xs| :: xs[i] != xs[j]
  }

  /** The id and digest maps are inverse to each other. */
  predicate Inverse(records: map<SessionId, Record>, byDigest: map<Digest, SessionId>) {
    && (forall id <- records :: records[id].digest in byDigest && byDigest[records[id].digest] == id)
    && (forall d <- byDigest :: byDigest[d] in records && records[byDigest[d]].digest == d)
  }

  /** The tombstone set is the content of the queue, without duplicates and within the bound. */
  predicate TombstonesValid(tombstones: set<Digest>, order: seq<Digest>) {
    && NoDuplicates(order) && |order| <= MAX_TOMBSTONES
    && (forall d <- order :: d in tombstones) && (forall d <- tombstones :: d in order)
  }

  predicate IdsValid(records: map<SessionId, Record>, ids: seq<SessionId>) {
    NoDuplicates(ids) && (forall id <- ids :: id in records) && (forall id <- records :: id in ids)
  }

  predicate Valid(c: Config, s: Store) {
    && |s.records| <= c.maxSessions
    && IdsValid(s.records, s.ids)
    && Inverse(s.records, s.byDigest)
    && TombstonesValid(s.tombstones, s.order)
    && (forall d <- s.tombstones :: d !in s.byDigest)
    && (forall id <- s.records :: SchemaValid(s.records[id]))
  }

  lemma {:induction false} WithoutIs(ids: seq<SessionId>, id: SessionId)
    requires NoDuplicates(ids)
    ensures NoDuplicates(Without(ids, id))
    ensures forall x :: x in Without(ids, id) <==> x in ids && x != id
    decreases |ids|
  {
    if ids != [] {
      assert NoDuplicates(ids[1..]);
      WithoutIs(ids[1..], id);
      if ids[0] != id {
        var rest := Without(ids[1..], id);
        forall i, j | 0 <= i < j < |rest| + 1 ensures ([ids[0]] + rest)[i] != ([ids[0]] + rest)[j] {
          if i == 0 {
            assert rest[j - 1] in rest && rest[j - 1] in ids[1..];
          }
        }
      }
    }
  }

  lemma BuriedTombstones(tombstones: set<Digest>, order: seq<Digest>, digest: Digest)
    requires TombstonesValid(tombstones, order) && digest !in tombstones
    ensures
      var (order', tombstones') := Forget(order + [digest], tombstones + {digest});
      TombstonesValid(tombstones', order') && tombstones' <= tombstones + {digest}
  {
    var grown := order + [digest];
    assert NoDuplicates(grown);
    if |grown| > MAX_TOMBSTONES {
      assert Forget(grown[1..], tombstones + {digest} - {grown[0]}) == (grown[1..], tombstones + {digest} - {grown[0]});
      forall d | d in grown[1..] ensures d in tombstones + {digest} - {grown[0]} {
        var i :| 0 <= i < |grown| - 1 && grown[1..][i] == d;
        assert grown[i + 1] == d;
      }
      forall d | d in tombstones + {digest} - {grown[0]} ensures d in grown[1..] {
        assert d in grown;
      }
    }
  }

  lemma RemovalKeepsInverse(records: map<SessionId, Record>, byDigest: map<Digest, SessionId>, id: SessionId)
    requires Inverse(records, byDigest) && id in records
    ensures Inverse(records - {id}, byDigest - {records[id].digest})
  {
  }

  lemma BuryKeepsValid(c: Config, s: Store, id: SessionId)
    requires Valid(c, s) && id in s.records
    ensures Valid(c, Bury(s, id))
  {
    WithoutIs(s.ids, id);
    assert IdsValid(s.records - {id}, Without(s.ids, id));
    RemovalKeepsInverse(s.records, s.byDigest, id);
    BuriedTombstones(s.tombstones, s.order, s.records[id].digest);
    SubsetSize((s.records - {id}).Keys, s.records.Keys);
  }

  lemma {:induction false} PruneFromKeepsValid(c: Config, s: Store, ids: seq<SessionId>, at: int)
    requires Valid(c, s)
    ensures Valid(c, PruneFrom(c, s, ids, at).0)
    decreases |ids|
  {
    if ids != [] {
      if ids[0] !in s.records || PruneTime(c, s.records[ids[0]]) > at {
        PruneFromKeepsValid(c, s, ids[1..], at);
      } else {
        BuryKeepsValid(c, s, ids[0]);
        PruneFromKeepsValid(c, Bury(s, ids[0]), ids[1..], at);
      }
    }
  }

  lemma InsertKeepsIds(records: map<SessionId, Record>, ids: seq<SessionId>, id: SessionId, r: Record)
    requires IdsValid(records, ids) && id !in records
    ensures IdsValid(records[id := r], ids + [id])
  {
    assert id !in ids;
  }

  lemma InsertKeepsInverse(records: map<SessionId, Record>, byDigest: map<Digest, SessionId>, id: SessionId, r: Record)
    requires Inverse(records, byDigest) && id !in records && r.digest !in byDigest
    ensures Inverse(records[id := r], byDigest[r.digest := id])
  {
  }

  lemma InsertKeepsValid(c: Config, s: Store, id: SessionId, r: Record)
    requires Valid(c, s) && id !in s.records && |s.records| < c.maxSessions
    requires r.digest !in s.byDigest && r.digest !in s.tombstones && SchemaValid(r)
    ensures Valid(c, s.(records := s.records[id := r], ids := s.ids + [id], byDigest := s.byDigest[r.digest := id]))
  {
    InsertKeepsIds(s.records, s.ids, id, r);
    InsertKeepsInverse(s.records, s.byDigest, id, r);
    assert |s.records[id := r]| == |s.records| + 1;
  }

  lemma CreateKeepsValid(c: Config, s: Store, op: Op)
    requires Valid(c, s) && op.Create?
    ensures Valid(c, Apply(c, s, op).0)
  {
    PruneFromKeepsValid(c, s, s.ids, op.createdAt);
    var p := Pruned(c, s, op.createdAt).0;
    var r := Record(op.digest, op.createdAt, op.expiresAt, Pending, None, None);
    if op.expiresAt > op.createdAt && op.id !in p.records && |p.records| < c.maxSessions
       && r.digest !in p.byDigest && r.digest !in p.tombstones {
      InsertKeepsValid(c, p, op.id, r);
    }
  }

  lemma UpdateKeepsValid(c: Config, s: Store, id: SessionId, r: Record)
    requires Valid(c, s) && id in s.records && r.digest == s.records[id].digest && SchemaValid(r)
    ensures Valid(c, WithRecord(s, id, r))
  {
    var records := s.records[id := r];
    assert records.Keys == s.records.Keys;
    assert |records| == |records.Keys| == |s.records|;
    assert Inverse(records, s.byDigest);
  }

  lemma ClaimKeepsValid(c: Config, s: Store, op: Op)
    requires Valid(c, s) && op.Claim?
    ensures Valid(c, Apply(c, s, op).0)
  {
    if op.digest in s.byDigest {
      var id := s.byDigest[op.digest];
      var r := s.records[id];
      if Expires(r, op.at) {
        UpdateKeepsValid(c, s, id, r.(state := State.Expired));
      } else if r.state.Pending? && op.at >= r.createdAt && op.device.Some? {
        UpdateKeepsValid(c, s, id, r.(state := Claimed, claimedAt := Some(op.at), device := op.device));
      }
    }
  }

  lemma CancelKeepsValid(c: Config, s: Store, op: Op)
    requires Valid(c, s) && op.Cancel?
    ensures Valid(c, Apply(c, s, op).0)
  {
    if op.id in s.records {
      var r := s.records[op.id];
      UpdateKeepsValid(c, s, op.id, if r.state.Pending? then r.(state := Cancelled) else r);
      UpdateKeepsValid(c, s, op.id, if r.state.Pending? then r.(state := State.Expired) else r);
    }
  }

  lemma ExpireKeepsValid(c: Config, s: Store, at: int)
    requires Valid(c, s)
    ensures Valid(c, s.(records := ExpiredRecords(s.records, at)))
  {
    var records := ExpiredRecords(s.records, at);
    assert records.Keys == s.records.Keys;
    assert |records| == |records.Keys| == |s.records|;
    assert Inverse(records, s.byDigest);
  }

  /**
   * Every operation keeps the two maps inverse, the tombstones equal to their queue and
   * disjoint from the live digests, and every record valid.
   */
  lemma ApplyKeepsValid(c: Config, s: Store, op: Op)
    requires Valid(c, s)
    ensures Valid(c, Apply(c, s, op).0)
  {
    match op
    case Create(_, _, _, _) => CreateKeepsValid(c, s, op);
    case Claim(_, _, _) => ClaimKeepsValid(c, s, op);
    case Cancel(_, _) => CancelKeepsValid(c, s, op);
    case Expire(at) => ExpireKeepsValid(c, s, at);
    case Prune(at) => PruneFromKeepsValid(c, s, s.ids, at);
  }

  function Run(c: Config, s: Store, ops: seq<Op>): Store
    decreases |ops|
  {
    if ops == [] then s else Run(c, Apply(c, s, ops[0]).0, ops[1..])
  }

  lemma {:induction false} RunKeepsValid(c: Config, s: Store, ops: seq<Op>)
    requires Valid(c, s)
    ensures Valid(c, Run(c, s, ops))
    decreases |ops|
  {
    if ops != [] {
      ApplyKeepsValid(c, s, ops[0]);
      RunKeepsValid(c, Apply(c, s, ops[0]).0, ops[1..]);
    }
  }

  lemma UpdatesAreNeverInvalid(c: Config, s: Store, op: Op)
    requires Valid(c, s) && (op.Claim? || op.Cancel?)
    ensures Apply(c, s, op).1 != Error(InvalidRecord)
  {
    if op.Claim? {
      assert op.digest in s.byDigest ==> SchemaValid(s.records[s.byDigest[op.digest]]);
    } else {
      assert op.id in s.records ==> SchemaValid(s.records[op.id]);
    }
  }

  /** Only `create` with a bad lifetime reports an invalid record: what is stored never is. */
  lemma StoredRecordsAreNeverInvalid(c: Config, ops: seq<Op>, op: Op)
    ensures
      Apply(c, Run(c, EMPTY_STORE, ops), op).1 == Error(InvalidRecord)
      <==> op.Create? && op.expiresAt <= op.createdAt
  {
    RunKeepsValid(c, EMPTY_STORE, ops);
    var s := Run(c, EMPTY_STORE, ops);
    match op
    case Create(_, digest, createdAt, expiresAt) =>
      assert createdAt < expiresAt ==> SchemaValid(Record(digest, createdAt, expiresAt, Pending, None, None));
    case Claim(_, _, _) => UpdatesAreNeverInvalid(c, s, op);
    case Cancel(_, _) => UpdatesAreNeverInvalid(c, s, op);
    case _ =>
  }

  // --- One device per code -----------------------------------------------------------------------------

  predicate Known(s: Store, d: Digest) {
    d in s.byDigest || d in s.tombstones
  }

  /** The code can still be claimed. */
  predicate Open(s: Store, d: Digest) {
    d in s.byDigest && s.byDigest[d] in s.records && s.records[s.byDigest[d]].state.Pending?
  }

  predicate Succeeds(c: Config, s: Store, op: Op) {
    Apply(c, s, op).1.Session?
  }

  lemma {:induction false} ForgetKeepsMembers(order: seq<Digest>, tombstones: set<Digest>)
    ensures Forget(order, tombstones).1 <= tombstones
    ensures |order| > MAX_TOMBSTONES ==> |Forget(order, tombstones).0| == MAX_TOMBSTONES
    decreases |order|
  {
    if |order| > MAX_TOMBSTONES {
      ForgetKeepsMembers(order[1..], tombstones - {order[0]});
    }
  }

  /** Pruning opens no code and makes none known; it forgets one only when the queue is full. */
  lemma {:induction false} PruneFromDigest(c: Config, s: Store, ids: seq<SessionId>, at: int, d: Digest)
    requires Valid(c, s)
    ensures
      var p := PruneFrom(c, s, ids, at).0;
      && (Open(p, d) ==> Open(s, d))
      && (Known(p, d) ==> Known(s, d))
      && ((Known(s, d) && !Known(p, d)) || |s.order| == MAX_TOMBSTONES ==> |p.order| == MAX_TOMBSTONES)
    decreases |ids|
  {
    if ids != [] {
      if ids[0] !in s.records || PruneTime(c, s.records[ids[0]]) > at {
        PruneFromDigest(c, s, ids[1..], at, d);
      } else {
        BuryKeepsValid(c, s, ids[0]);
        BuryDigest(c, s, ids[0], d);
        PruneFromDigest(c, Bury(s, ids[0]), ids[1..], at, d);
      }
    }
  }

  lemma BuryDigest(c: Config, s: Store, id: SessionId, d: Digest)
    requires Valid(c, s) && id in s.records
    ensures
      var p := Bury(s, id);
      && (Open(p, d) ==> Open(s, d))
      && (Known(p, d) ==> Known(s, d))
      && ((Known(s, d) && !Known(p, d)) || |s.order| == MAX_TOMBSTONES ==> |p.order| == MAX_TOMBSTONES)
  {
    var digest := s.records[id].digest;
    ForgetKeepsMembers(s.order + [digest], s.tombstones + {digest});
  }

  /** The store as an operation finds it once it has pruned. */
  function AfterPruning(c: Config, s: Store, op: Op): Store {
    match op
    case Create(_, _, createdAt, expiresAt) => if expiresAt <= createdAt then s else Pruned(c, s, createdAt).0
    case Prune(at) => Pruned(c, s, at).0
    case _ => s
  }

  /** The bound on tombstones makes the store forget this very code. */
  predicate Drops(c: Config, s: Store, op: Op, d: Digest) {
    Known(s, d) && !Known(AfterPruning(c, s, op), d)
  }

  /** A known code is created again only by an operation that drops its own tombstone, from a full queue. */
  lemma CreationNeedsUnknownCode(c: Config, s: Store, op: Op)
    requires Valid(c, s) && op.Create? && Succeeds(c, s, op)
    ensures Known(s, op.digest) ==> Drops(c, s, op, op.digest) && |Apply(c, s, op).0.order| == MAX_TOMBSTONES
    ensures !Known(AfterPruning(c, s, op), op.digest) && Open(Apply(c, s, op).0, op.digest)
  {
    PruneFromDigest(c, s, s.ids, op.createdAt, op.digest);
  }

  lemma KnownUnlessDropped(c: Config, s: Store, op: Op, d: Digest)
    requires Valid(c, s) && Known(s, d) && !Drops(c, s, op, d)
    ensures Known(Apply(c, s, op).0, d) && !(op.Create? && op.digest == d && Succeeds(c, s, op))
  {
  }

  lemma InsertOpensOneCode(p: Store, id: SessionId, r: Record, d: Digest)
    requires Inverse(p.records, p.byDigest) && id !in p.records && r.digest != d
    ensures
      var s := p.(records := p.records[id := r], ids := p.ids + [id], byDigest := p.byDigest[r.digest := id]);
      Open(s, d) == Open(p, d)
  {
  }

  lemma CreateOpensOneCode(c: Config, s: Store, op: Op, d: Digest)
    requires Valid(c, s) && op.Create? && !(op.digest == d && Succeeds(c, s, op))
    ensures Open(Apply(c, s, op).0, d) ==> Open(s, d)
  {
    PruneFromDigest(c, s, s.ids, op.createdAt, d);
    PruneFromKeepsValid(c, s, s.ids, op.createdAt);
    var p := Pruned(c, s, op.createdAt).0;
    var r := Record(op.digest, op.createdAt, op.expiresAt, Pending, None, None);
    if op.createdAt < op.expiresAt && op.id !in p.records && op.digest != d {
      InsertOpensOneCode(p, op.id, r, d);
    }
  }

  lemma ClaimClosesCode(c: Config, s: Store, op: Op, d: Digest)
    requires Valid(c, s) && op.Claim?
    ensures Open(Apply(c, s, op).0, d) ==> Open(s, d)
    ensures op.digest == d && Succeeds(c, s, op) ==> Open(s, d) && !Open(Apply(c, s, op).0, d)
  {
  }

  /** No operation but its own creation opens a code, and a successful claim closes it. */
  lemma CodeStaysClosed(c: Config, s: Store, op: Op, d: Digest)
    requires Valid(c, s) && !(op.Create? && op.digest == d && Succeeds(c, s, op))
    ensures Open(Apply(c, s, op).0, d) ==> Open(s, d)
    ensures op.Claim? && op.digest == d && Succeeds(c, s, op) ==> Open(s, d) && !Open(Apply(c, s, op).0, d)
  {
    match op
    case Create(_, _, _, _) => CreateOpensOneCode(c, s, op, d);
    case Prune(at) => PruneFromDigest(c, s, s.ids, at, d);
    case Claim(_, _, _) => ClaimClosesCode(c, s, op, d);
    case _ =>
  }

  /** How many devices the operations yield for a code. */
  function DevicesYielded(c: Config, s: Store, ops: seq<Op>, d: Digest): nat
    decreases |ops|
  {
    if ops == [] then 0
    else
      (if ops[0].Claim? && ops[0].digest == d && Succeeds(c, s, ops[0]) then 1 else 0)
      + DevicesYielded(c, Apply(c, s, ops[0]).0, ops[1..], d)
  }

  predicate NotCreatedAgain(c: Config, s: Store, ops: seq<Op>, d: Digest)
    decreases |ops|
  {
    ops != [] ==>
      && !(ops[0].Create? && ops[0].digest == d && Succeeds(c, s, ops[0]))
      && NotCreatedAgain(c, Apply(c, s, ops[0]).0, ops[1..], d)
  }

  /** From its creation until it may be created again, a code yields at most one device. */
  lemma {:induction false} CodeYieldsOneDevice(c: Config, s: Store, ops: seq<Op>, d: Digest)
    requires Valid(c, s) && NotCreatedAgain(c, s, ops, d)
    ensures DevicesYielded(c, s, ops, d) <= if Open(s, d) then 1 else 0
    decreases |ops|
  {
    if ops != [] {
      CodeStaysClosed(c, s, ops[0], d);
      ApplyKeepsValid(c, s, ops[0]);
      CodeYieldsOneDevice(c, Apply(c, s, ops[0]).0, ops[1..], d);
    }
  }

  predicate NeverDrops(c: Config, s: Store, ops: seq<Op>, d: Digest)
    decreases |ops|
  {
    ops != [] ==> !Drops(c, s, ops[0], d) && NeverDrops(c, Apply(c, s, ops[0]).0, ops[1..], d)
  }

  /** Over any run in which its own tombstone is not dropped, a code yields at most one device. */
  lemma {:induction false} CodeYieldsOneDeviceUnlessDropped(c: Config, s: Store, ops: seq<Op>, d: Digest)
    requires Valid(c, s) && NeverDrops(c, s, ops, d)
    ensures DevicesYielded(c, s, ops, d) <= if Known(s, d) && !Open(s, d) then 0 else 1
    decreases |ops|
  {
    if ops != [] {
      var op, s' := ops[0], Apply(c, s, ops[0]).0;
      ApplyKeepsValid(c, s, op);
      CodeYieldsOneDeviceUnlessDropped(c, s', ops[1..], d);
      if Known(s, d) {
        KnownUnlessDropped(c, s, op, d);
        CodeStaysClosed(c, s, op, d);
      } else if op.Claim? {
        ClaimClosesCode(c, s, op, d);
      }
    }
  }

  // --- What every answer means -------------------------------------------------------------------------

  /** At most this record changes, and only in place. */
  predicate OnlyRecordChanges(s: Store, s': Store, id: SessionId) {
    && s'.ids == s.ids && s'.byDigest == s.byDigest && s'.tombstones == s.tombstones && s'.order == s.order
    && s'.records.Keys == s.records.Keys
    && forall x <- s.records :: x != id ==> s'.records[x] == s.records[x]
  }

  /** A pending record is cancelled in time or expired, the one handed out is the one stored, and nothing else changes. */
  lemma CancelAnswersExactly(c: Config, s: Store, id: SessionId, at: int)
    requires Valid(c, s)
    ensures
      var (s', r) := Apply(c, s, Op.Cancel(id, at));
      && (r.Session? <==> id in s.records && s.records[id].state.Pending? && at >= s.records[id].createdAt)
      && (r.Session? ==>
            && OnlyRecordChanges(s, s', id) && s'.records[id] == r.record
            && r.record == s.records[id].(state := if at < s.records[id].expiresAt then Cancelled else State.Expired))
      && (!r.Session? ==> s' == s)
      && (id !in s.records ==> r == Error(SessionNotFound))
      && (id in s.records && !s.records[id].state.Pending? ==> r == Error(SessionNotPending))
      && (id in s.records && s.records[id].state.Pending? && at < s.records[id].createdAt ==> r == Error(InvalidClock))
  {
    assert id in s.records ==> SchemaValid(s.records[id]);
  }

  /** A cancelled code yields no device, whatever follows, until it is created again. */
  lemma CancelledCodeYieldsNothing(c: Config, s: Store, id: SessionId, at: int, ops: seq<Op>)
    requires Valid(c, s) && Succeeds(c, s, Op.Cancel(id, at))
    requires NotCreatedAgain(c, Apply(c, s, Op.Cancel(id, at)).0, ops, s.records[id].digest)
    ensures id in s.records && !Open(Apply(c, s, Op.Cancel(id, at)).0, s.records[id].digest)
    ensures DevicesYielded(c, Apply(c, s, Op.Cancel(id, at)).0, ops, s.records[id].digest) == 0
  {
    CancelAnswersExactly(c, s, id, at);
    ApplyKeepsValid(c, s, Op.Cancel(id, at));
    CodeYieldsOneDevice(c, Apply(c, s, Op.Cancel(id, at)).0, ops, s.records[id].digest);
  }

  /** The sessions that wait for a claim past their time. */
  function Overdue(s: Store, at: int): set<SessionId> {
    set id | id in s.records && s.records[id].state.Pending? && s.records[id].expiresAt <= at
  }

  function OverdueIn(s: Store, ids: seq<SessionId>, at: int): set<SessionId> {
    set id | id in ids && id in Overdue(s, at)
  }

  lemma OverdueOfSnoc(s: Store, ids: seq<SessionId>, last: SessionId, at: int)
    requires last !in ids
    ensures |OverdueIn(s, ids + [last], at)| == |OverdueIn(s, ids, at)| + if last in Overdue(s, at) then 1 else 0
  {
    var before := OverdueIn(s, ids, at);
    assert OverdueIn(s, ids + [last], at) == if last in Overdue(s, at) then before + {last} else before;
  }

  lemma {:induction false} ExpiringCountIs(s: Store, ids: seq<SessionId>, at: int)
    requires NoDuplicates(ids)
    ensures ExpiringCount(s.records, ids, at) == |OverdueIn(s, ids, at)|
    decreases |ids|
  {
    if ids == [] {
      assert OverdueIn(s, ids, at) == {};
    } else {
      var rest, last := ids[..|ids| - 1], ids[|ids| - 1];
      assert ids == rest + [last];
      ExpiringCountIs(s, rest, at);
      OverdueOfSnoc(s, rest, last, at);
    }
  }

  /** Exactly the overdue sessions expire, and the answer is their number. */
  lemma ExpireAnswersExactly(c: Config, s: Store, at: int)
    requires Valid(c, s)
    ensures
      var (s', r) := Apply(c, s, Op.Expire(at));
      && r == Count(|Overdue(s, at)|)
      && s'.records.Keys == s.records.Keys
      && (forall id <- s.records :: s'.records[id]
            == if id in Overdue(s, at) then s.records[id].(state := State.Expired) else s.records[id])
      && s'.ids == s.ids && s'.byDigest == s.byDigest && s'.tombstones == s.tombstones && s'.order == s.order
  {
    ExpiringCountIs(s, s.ids, at);
    assert Overdue(s, at) == OverdueIn(s, s.ids, at);
  }

  /** After expiry no code is open past its time, every other open code still is, and the closed ones yield nothing. */
  lemma ExpiredCodesYieldNothing(c: Config, s: Store, at: int, d: Digest, ops: seq<Op>)
    requires Valid(c, s)
    ensures
      var s' := Apply(c, s, Op.Expire(at)).0;
      && (Open(s', d) <==> Open(s, d) && at < s.records[s.byDigest[d]].expiresAt)
      && (!Open(s', d) && NotCreatedAgain(c, s', ops, d) ==> DevicesYielded(c, s', ops, d) == 0)
  {
    var s' := Apply(c, s, Op.Expire(at)).0;
    ExpireAnswersExactly(c, s, at);
    ApplyKeepsValid(c, s, Op.Expire(at));
    if !Open(s', d) && NotCreatedAgain(c, s', ops, d) {
      CodeYieldsOneDevice(c, s', ops, d);
    }
  }

  /** A claim succeeds exactly within the lifetime of an open code, and stores the claimed record it hands out. */
  lemma ClaimAnswersExactly(c: Config, s: Store, d: Digest, at: int, device: Option<DeviceId>)
    requires Valid(c, s)
    ensures
      var (s', r) := Apply(c, s, Op.Claim(d, at, device));
      if !Open(s, d) then s' == s && r == Error(CodeUnavailable)
      else
        var id := s.byDigest[d];
        var was := s.records[id];
        && OnlyRecordChanges(s, s', id)
        && (at >= was.expiresAt ==>
              r == Error(CodeUnavailable) && s'.records[id] == was.(state := State.Expired))
        && (at < was.createdAt ==> r == Error(InvalidClock) && s' == s)
        && (was.createdAt <= at < was.expiresAt && device.None? ==> r == Error(DeviceCreationFailed) && s' == s)
        && (was.createdAt <= at < was.expiresAt && device.Some? ==>
              && s'.records[id] == Record(d, was.createdAt, was.expiresAt, Claimed, Some(at), device)
              && r == Session(s'.records[id]))
  {
    if Open(s, d) {
      assert SchemaValid(s.records[s.byDigest[d]]);
    }
  }

  /** What is created can be claimed: by its own code, from its creation until it expires, and for the device asked. */
  lemma CreatedCodeIsClaimable(c: Config, s: Store, op: Op, at: int, device: DeviceId)
    requires Valid(c, s) && op.Create? && Succeeds(c, s, op)
    ensures
      var s' := Apply(c, s, op).0;
      var r := Apply(c, s', Op.Claim(op.digest, at, Some(device))).1;
      && (r.Session? <==> op.createdAt <= at < op.expiresAt)
      && (r.Session? ==> r.record.device == Some(device) && r.record.claimedAt == Some(at))
      && Apply(c, s', Op.Cancel(op.id, op.createdAt)).1.Session?
  {
    var s' := Apply(c, s, op).0;
    ApplyKeepsValid(c, s, op);
    CreationNeedsUnknownCode(c, s, op);
    ClaimAnswersExactly(c, s', op.digest, at, Some(device));
    CancelAnswersExactly(c, s', op.id, op.createdAt);
  }

  /** A session is created exactly when, after pruning, its id and code are new and there is room. */
  lemma CreateAnswersExactly(c: Config, s: Store, op: Op)
    requires Valid(c, s) && op.Create?
    ensures
      var (s', r) := Apply(c, s, op);
      var p := Apply(c, s, Op.Prune(op.createdAt)).0;
      if op.expiresAt <= op.createdAt then s' == s && r == Error(InvalidRecord)
      else
        var unknown := op.id !in p.records && !Known(p, op.digest);
        && (r.Session? <==> unknown && |p.records| < c.maxSessions)
        && (!r.Session? ==> s' == p)
        && (op.id in p.records ==> r == Error(SessionAlreadyExists))
        && (op.id !in p.records && Known(p, op.digest) ==> r == Error(DigestAlreadyExists))
        && (unknown && |p.records| >= c.maxSessions ==> r == Error(CapacityExceeded))
        && (r.Session? ==>
              && r.record == Record(op.digest, op.createdAt, op.expiresAt, Pending, None, None)
              && s'.records == p.records[op.id := r.record] && s'.ids == p.ids + [op.id]
              && s'.tombstones == p.tombstones && s'.order == p.order)
  {
  }

  // --- What pruning keeps ------------------------------------------------------------------------------

  /** A claimed session is kept for a while after its claim, any other until its lifetime ends. */
  predicate PastKeeping(c: Config, r: Record, at: int) {
    if r.claimedAt.Some? then at - r.claimedAt.value >= c.claimedRetentionMs else r.expiresAt <= at
  }

  /** The codes of the sessions that go, oldest session first. */
  function Leaving(c: Config, records: map<SessionId, Record>, ids: seq<SessionId>, at: int): seq<Digest> {
    if ids == [] then []
    else
      (if ids[0] in records && PastKeeping(c, records[ids[0]], at) then [records[ids[0]].digest] else [])
      + Leaving(c, records, ids[1..], at)
  }

  function Recent(order: seq<Digest>): seq<Digest> {
    if |order| > MAX_TOMBSTONES then order[|order| - MAX_TOMBSTONES..] else order
  }

  predicate Before(ids: seq<SessionId>, x: SessionId, y: SessionId) {
    exists i, j | 0 <= i < j < |ids| :: ids[i] == x && ids[j] == y
  }

  lemma {:induction false} ForgetKeepsRecent(order: seq<Digest>, tombstones: set<Digest>)
    ensures Forget(order, tombstones).0 == Recent(order)
    decreases |order|
  {
    if |order| > MAX_TOMBSTONES {
      ForgetKeepsRecent(order[1..], tombstones - {order[0]});
    }
  }

  lemma RecentOfMore(order: seq<Digest>, more: seq<Digest>)
    ensures Recent(Recent(order) + more) == Recent(order + more)
  {
  }

  lemma {:induction false} WithoutKeepsOrder(ids: seq<SessionId>, id: SessionId, x: SessionId, y: SessionId)
    requires NoDuplicates(ids) && Before(Without(ids, id), x, y)
    ensures Before(ids, x, y)
    decreases |ids|
  {
    if ids != [] {
      var rest := ids[1..];
      assert NoDuplicates(rest);
      var i, j :| 0 <= i < j < |Without(ids, id)| && Without(ids, id)[i] == x && Without(ids, id)[j] == y;
      if ids[0] == id {
        assert ids[i + 1] == x && ids[j + 1] == y;
      } else if i == 0 {
        WithoutIs(rest, id);
        assert Without(rest, id)[j - 1] == y && y in rest;
        var k :| 0 <= k < |rest| && rest[k] == y;
        assert ids[0] == x && ids[k + 1] == y;
      } else {
        assert Without(rest, id)[i - 1] == x && Without(rest, id)[j - 1] == y;
        WithoutKeepsOrder(rest, id, x, y);
        var k, l :| 0 <= k < l < |rest| && rest[k] == x && rest[l] == y;
        assert ids[k + 1] == x && ids[l + 1] == y;
      }
    }
  }

  lemma {:induction false} LeavingIgnores(c: Config, records: map<SessionId, Record>, id: SessionId,
                                          ids: seq<SessionId>, at: int)
    requires id !in ids
    ensures Leaving(c, records - {id}, ids, at) == Leaving(c, records, ids, at)
    decreases |ids|
  {
    if ids != [] {
      LeavingIgnores(c, records, id, ids[1..], at);
    }
  }

  /** What is left after pruning the sessions of a list. */
  ghost predicate PrunedOf(c: Config, s: Store, ids: seq<SessionId>, at: int, s': Store, n: nat) {
    && (forall id :: id in s'.records <==> id in s.records && !(id in ids && PastKeeping(c, s.records[id], at)))
    && (forall id <- s'.records :: s'.records[id] == s.records[id])
    && n == |s.records| - |s'.records|
    && s'.order == Recent(s.order + Leaving(c, s.records, ids, at))
    && (forall x, y | Before(s'.ids, x, y) :: Before(s.ids, x, y))
  }

  /** `b` is the store once this session has left it. */
  ghost predicate WithoutSession(s: Store, b: Store, id: SessionId) {
    && id in s.records && b.records == s.records - {id} && |b.records| == |s.records| - 1
    && b.order == Recent(s.order + [s.records[id].digest])
    && (forall x, y | Before(b.ids, x, y) :: Before(s.ids, x, y))
  }

  lemma BuriedIs(c: Config, s: Store, id: SessionId)
    requires Valid(c, s) && id in s.records
    ensures WithoutSession(s, Bury(s, id), id)
  {
    var digest := s.records[id].digest;
    ForgetKeepsRecent(s.order + [digest], s.tombstones + {digest});
    assert (s.records - {id}).Keys == s.records.Keys - {id};
    forall x, y | Before(Without(s.ids, id), x, y) ensures Before(s.ids, x, y) {
      WithoutKeepsOrder(s.ids, id, x, y);
    }
  }

  lemma KeepingOne(c: Config, s: Store, ids: seq<SessionId>, at: int, s': Store, n: nat)
    requires ids != [] && ids[0] in s.records && !PastKeeping(c, s.records[ids[0]], at)
    requires PrunedOf(c, s, ids[1..], at, s', n)
    ensures PrunedOf(c, s, ids, at, s', n)
  {
    assert ids == [ids[0]] + ids[1..];
    assert Leaving(c, s.records, ids, at) == Leaving(c, s.records, ids[1..], at);
  }

  lemma BuryingOrder(c: Config, records: map<SessionId, Record>, order: seq<Digest>, ids: seq<SessionId>, at: int)
    requires ids != [] && ids[0] !in ids[1..] && ids[0] in records && PastKeeping(c, records[ids[0]], at)
    ensures Recent(Recent(order + [records[ids[0]].digest]) + Leaving(c, records - {ids[0]}, ids[1..], at))
         == Recent(order + Leaving(c, records, ids, at))
  {
    var d, leaving := records[ids[0]].digest, Leaving(c, records, ids[1..], at);
    LeavingIgnores(c, records, ids[0], ids[1..], at);
    RecentOfMore(order + [d], leaving);
    assert order + [d] + leaving == order + Leaving(c, records, ids, at);
  }

  lemma BuryingOne(c: Config, s: Store, b: Store, ids: seq<SessionId>, at: int, s': Store, n: nat)
    requires ids != [] && ids[0] !in ids[1..] && WithoutSession(s, b, ids[0])
    requires PastKeeping(c, s.records[ids[0]], at) && PrunedOf(c, b, ids[1..], at, s', n)
    ensures PrunedOf(c, s, ids, at, s', n + 1)
  {
    BuryingOrder(c, s.records, s.order, ids, at);
    assert ids == [ids[0]] + ids[1..];
  }

  predicate Listed(s: Store, ids: seq<SessionId>) {
    NoDuplicates(ids) && forall id <- ids :: id in s.records
  }

  lemma RestIsListed(s: Store, b: Store, ids: seq<SessionId>)
    requires ids != [] && Listed(s, ids) && (b == s || WithoutSession(s, b, ids[0]))
    ensures Listed(b, ids[1..]) && ids[0] !in ids[1..]
  {
  }

  lemma NothingLeaves(c: Config, s: Store, at: int)
    requires |s.order| <= MAX_TOMBSTONES
    ensures PrunedOf(c, s, [], at, s, 0)
  {
    assert Recent(s.order + Leaving(c, s.records, [], at)) == s.order;
  }

  /** Pruning drops the first session of the list, or passes over it. */
  lemma PruneFromStep(c: Config, s: Store, ids: seq<SessionId>, at: int)
    requires ids != [] && ids[0] in s.records && SchemaValid(s.records[ids[0]])
    ensures
      if PastKeeping(c, s.records[ids[0]], at)
      then
        var (s', n) := PruneFrom(c, Bury(s, ids[0]), ids[1..], at);
        PruneFrom(c, s, ids, at) == (s', n + 1)
      else PruneFrom(c, s, ids, at) == PruneFrom(c, s, ids[1..], at)
  {
  }

  lemma {:induction false} PruneFromIs(c: Config, s: Store, ids: seq<SessionId>, at: int)
    requires Valid(c, s) && Listed(s, ids)
    ensures PrunedOf(c, s, ids, at, PruneFrom(c, s, ids, at).0, PruneFrom(c, s, ids, at).1)
    decreases |ids|
  {
    if ids == [] {
      NothingLeaves(c, s, at);
    } else {
      var id, rest := ids[0], ids[1..];
      PruneFromStep(c, s, ids, at);
      if PastKeeping(c, s.records[id], at) {
        var b := Bury(s, id);
        BuryKeepsValid(c, s, id);
        BuriedIs(c, s, id);
        RestIsListed(s, b, ids);
        PruneFromIs(c, b, rest, at);
        BuryingOne(c, s, b, ids, at, PruneFrom(c, b, rest, at).0, PruneFrom(c, b, rest, at).1);
      } else {
        RestIsListed(s, s, ids);
        PruneFromIs(c, s, rest, at);
        KeepingOne(c, s, ids, at, PruneFrom(c, s, rest, at).0, PruneFrom(c, s, rest, at).1);
      }
    }
  }

  /**
   * Pruning drops exactly the sessions past their keeping and answers with their number; their
   * codes join the tombstones, oldest session first, of which the most recent are remembered.
   */
  lemma PruneAnswersExactly(c: Config, s: Store, at: int)
    requires Valid(c, s)
    ensures
      var (s', r) := Apply(c, s, Op.Prune(at));
      && r.Count? && Valid(c, s')
      && (forall id :: id in s'.records <==> id in s.records && !PastKeeping(c, s.records[id], at))
      && (forall id <- s'.records :: s'.records[id] == s.records[id])
      && r.n == |s.records| - |s'.records|
      && s'.order == Recent(s.order + Leaving(c, s.records, s.ids, at))
      && (forall x, y | Before(s'.ids, x, y) :: Before(s.ids, x, y))
  {
    PruneFromIs(c, s, s.ids, at);
    ApplyKeepsValid(c, s, Op.Prune(at));
  }

  // --- The repository ----------------------------------------------------------------------------------

  class InMemoryPairingSessionRepository {
    var recordsById: map<SessionId, Record>
    var recordIds: seq<SessionId>
    var sessionIdByDigest: map<Digest, SessionId>
    var expiredCodeTombstones: set<Digest>
    var expiredCodeTombstoneOrder: seq<Digest>
    const config: Config

    function Contents(): Store
      reads this
    {
      Store(recordsById, recordIds, sessionIdByDigest, expiredCodeTombstones, expiredCodeTombstoneOrder)
    }

    constructor (config: Config)
      ensures Contents() == EMPTY_STORE && this.config == config
    {
      recordsById, recordIds, sessionIdByDigest := map[], [], map[];
      expiredCodeTombstones, expiredCodeTombstoneOrder := {}, [];
      this.config := config;
    }

    method DropOldTombstones()
      modifies this`expiredCodeTombstones, this`expiredCodeTombstoneOrder
      ensures (expiredCodeTombstoneOrder, expiredCodeTombstones)
           == Forget(old(expiredCodeTombstoneOrder), old(expiredCodeTombstones))
    {
      while |expiredCodeTombstoneOrder| > MAX_TOMBSTONES
        invariant Forget(expiredCodeTombstoneOrder, expiredCodeTombstones)
               == Forget(old(expiredCodeTombstoneOrder), old(expiredCodeTombstones))
        decreases |expiredCodeTombstoneOrder|
      {
        var oldest := expiredCodeTombstoneOrder[0];
        expiredCodeTombstoneOrder := expiredCodeTombstoneOrder[1..];
        expiredCodeTombstones := expiredCodeTombstones - {oldest};
      }
    }

    method BuryRecord(id: SessionId)
      requires id in recordsById
      modifies this
      ensures Contents() == Bury(old(Contents()), id)
    {
      var record := recordsById[id];
      recordsById := recordsById - {id};
      recordIds := Without(recordIds, id);
      sessionIdByDigest := sessionIdByDigest - {record.digest};
      expiredCodeTombstones := expiredCodeTombstones + {record.digest};
      expiredCodeTombstoneOrder := expiredCodeTombstoneOrder + [record.digest];
      DropOldTombstones();
    }

    method PruneExpiredRecords(at: int) returns (count: nat)
      modifies this
      ensures (Contents(), count) == Pruned(config, old(Contents()), at)
    {
      var ids := recordIds;
      count := 0;
      while ids != []
        invariant PruneFrom(config, Contents(), ids, at).0 == Pruned(config, old(Contents()), at).0
        invariant count + PruneFrom(config, Contents(), ids, at).1 == Pruned(config, old(Contents()), at).1
        decreases |ids|
      {
        var id := ids[0];
        ids := ids[1..];
        if id in recordsById && PruneTime(config, recordsById[id]) <= at {
          BuryRecord(id);
          count := count + 1;
        }
      }
    }

    method Create(id: SessionId, digest: Digest, createdAt: int, expiresAt: int) returns (r: Response)
      modifies this
      ensures (Contents(), r) == Apply(config, old(Contents()), Op.Create(id, digest, createdAt, expiresAt))
    {
      if expiresAt <= createdAt {
        return Error(InvalidRecord);
      }
      var _ := PruneExpiredRecords(createdAt);
      if id in recordsById {
        return Error(SessionAlreadyExists);
      }
      if digest in sessionIdByDigest || digest in expiredCodeTombstones {
        return Error(DigestAlreadyExists);
      }
      if |recordsById| >= config.maxSessions {
        return Error(CapacityExceeded);
      }
      var record := Record(digest, createdAt, expiresAt, Pending, None, None);
      r := Snapshot(record);
      recordsById, recordIds := recordsById[id := record], recordIds + [id];
      sessionIdByDigest := sessionIdByDigest[digest := id];
    }

    method Claim(digest: Digest, at: int, device: Option<DeviceId>) returns (r: Response)
      modifies this`recordsById
      ensures (Contents(), r) == Apply(config, old(Contents()), Op.Claim(digest, at, device))
    {
      if digest !in sessionIdByDigest || sessionIdByDigest[digest] !in recordsById {
        return Error(CodeUnavailable);
      }
      var id := sessionIdByDigest[digest];
      var record := recordsById[id];
      if record.state.Pending? && at >= record.expiresAt {
        record := record.(state := State.Expired);
        recordsById := recordsById[id := record];
      }
      if !record.state.Pending? {
        return Error(CodeUnavailable);
      }
      if at < record.createdAt {
        return Error(InvalidClock);
      }
      if device.None? {
        return Error(DeviceCreationFailed);
      }
      record := record.(state := Claimed, claimedAt := Some(at), device := device);
      recordsById := recordsById[id := record];
      r := Snapshot(record);
    }

    method Cancel(id: SessionId, at: int) returns (r: Response)
      modifies this`recordsById
      ensures (Contents(), r) == Apply(config, old(Contents()), Op.Cancel(id, at))
    {
      if id !in recordsById {
        return Error(SessionNotFound);
      }
      var record := recordsById[id];
      if record.state.Pending? && at >= record.expiresAt {
        record := record.(state := State.Expired);
        recordsById := recordsById[id := record];
        return Snapshot(record);
      }
      if !record.state.Pending? {
        return Error(SessionNotPending);
      }
      if at < record.createdAt {
        return Error(InvalidClock);
      }
      record := record.(state := Cancelled);
      recordsById := recordsById[id := record];
      r := Snapshot(record);
    }

    method ExpireRecords(at: int) returns (count: nat)
      requires IdsValid(recordsById, recordIds)
      modifies this`recordsById
      ensures recordsById == ExpiredRecords(old(recordsById), at)
      ensures count == ExpiringCount(old(recordsById), recordIds, at)
    {
      ghost var was := recordsById;
      var i := 0;
      count := 0;
      while i < |recordIds|
        invariant 0 <= i <= |recordIds|
        invariant recordsById == PartlyExpired(was, recordIds[..i], at)
        invariant count == ExpiringCount(was, recordIds[..i], at)
      {
        var id := recordIds[i];
        PartlyExpiredStep(was, recordIds, i, at);
        if Expires(recordsById[id], at) {
          recordsById := recordsById[id := recordsById[id].(state := State.Expired)];
          count := count + 1;
        }
        i := i + 1;
      }
      assert recordIds[..i] == recordIds;
      EveryRecordVisited(was, recordIds, at);
    }

    method Expire(at: int) returns (count: nat)
      requires Valid(config, Contents())
      modifies this`recordsById
      ensures (Contents(), Count(count)) == Apply(config, old(Contents()), Op.Expire(at))
    {
      count := ExpireRecords(at);
    }
  }

  ghost function PartlyExpired(records: map<SessionId, Record>, ids: seq<SessionId>, at: int): map<SessionId, Record> {
    map id | id in records ::
      if id in ids && Expires(records[id], at) then records[id].(state := State.Expired) else records[id]
  }

  lemma EveryRecordVisited(records: map<SessionId, Record>, ids: seq<SessionId>, at: int)
    requires IdsValid(records, ids)
    ensures PartlyExpired(records, ids, at) == ExpiredRecords(records, at)
  {
  }

  lemma PartlyExpiredStep(records: map<SessionId, Record>, ids: seq<SessionId>, i: nat, at: int)
    requires IdsValid(records, ids) && i < |ids|
    ensures ids[i] in records && PartlyExpired(records, ids[..i], at)[ids[i]] == records[ids[i]]
    ensures PartlyExpired(records, ids[..i + 1], at)
         == if Expires(records[ids[i]], at)
            then PartlyExpired(records, ids[..i], at)[ids[i] := records[ids[i]].(state := State.Expired)]
            else PartlyExpired(records, ids[..i], at)
    ensures ExpiringCount(records, ids[..i + 1], at)
         == ExpiringCount(records, ids[..i], at) + if Expires(records[ids[i]], at) then 1 else 0
  {
    assert ids[..i + 1][..i] == ids[..i];
    assert ids[i] in ids;
    assert ids[..i + 1] == ids[..i] + [ids[i]];
  }
}
