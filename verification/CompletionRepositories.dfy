/**
 * The two completion repositories: two maps pruned by loops, and one table. Each is shown
 * to perform exactly the store operation it is named after.
 */
module CompletionRepositories {
  import opened Wrappers
  import opened DeviceCredential
  import opened CompletionStore

  datatype StoredRecord = StoredRecord(record: Record, expiresAt: int)

  /** Records and reservations as one set of entries; a session is never in both maps. */
  function Joined(records: map<SessionId, StoredRecord>, reservations: map<SessionId, int>): Entries {
    map id | id in records.Keys + reservations.Keys ::
      if id in records then Held(records[id].record, records[id].expiresAt) else Reserved(reservations[id])
  }

  lemma JoinedAt(records: map<SessionId, StoredRecord>, reservations: map<SessionId, int>, id: SessionId)
    ensures id in Joined(records, reservations) <==> id in records || id in reservations
    ensures RecordAt(Joined(records, reservations), id)
         == if id in records then Some(records[id].record) else None
  {
  }

  lemma JoinedSize(records: map<SessionId, StoredRecord>, reservations: map<SessionId, int>)
    requires records.Keys !! reservations.Keys
    ensures |Joined(records, reservations)| == |records| + |reservations|
  {
    assert Joined(records, reservations).Keys == records.Keys + reservations.Keys;
  }

  lemma JoinedAfterReservation(records: map<SessionId, StoredRecord>, reservations: map<SessionId, int>,
                               id: SessionId, expiresAt: int)
    requires id !in records
    ensures Joined(records, reservations[id := expiresAt])
         == Joined(records, reservations)[id := Reserved(expiresAt)]
  {
  }

  lemma JoinedAfterDelete(records: map<SessionId, StoredRecord>, reservations: map<SessionId, int>, id: SessionId)
    ensures Joined(records - {id}, reservations - {id}) == Joined(records, reservations) - {id}
  {
  }

  lemma ReserveIs(e: Entries, id: SessionId, now: int, lim: Limits, known: bool, full: bool)
    requires known == (id in e) && full == (|e| >= lim.maxRecords)
    ensures CompletionStore.Apply(e, Reserve(id), now, lim)
         == if known then (e, Flag(true)) else if full then (e, Flag(false))
            else (e[id := Reserved(now + lim.retentionMs)], Flag(true))
  {
  }

  predicate SameGeneration(existing: Record, r: Record) {
    existing.state.Pending? && existing.device == r.device && existing.credentialId == r.credentialId
    && existing.version == r.version
  }

  lemma SetPendingIs(e: Entries, id: SessionId, r: Record, now: int, lim: Limits, existing: Option<Record>, full: bool)
    requires existing == RecordAt(e, id) && full == (id !in e && |e| >= lim.maxRecords)
    requires r == Record(r.device, r.credentialId, r.version, Pending, None)
    ensures CompletionStore.Apply(e, SetPending(id, r.device, r.credentialId, r.version), now, lim)
         == if existing.Some? then (e, Found(if SameGeneration(existing.value, r) then existing else None))
            else if full then (e, Found(None))
            else (e[id := Held(r, now + lim.retentionMs)], Found(Some(r)))
  {
  }

  class InMemoryPairingCredentialCompletionRepository {
    var records: map<SessionId, StoredRecord>
    var reservations: map<SessionId, int>
    const limits: Limits

    ghost predicate Valid()
      reads this
    {
      records.Keys !! reservations.Keys
    }

    ghost function Contents(): Entries
      reads this
    {
      Joined(records, reservations)
    }

    function Size(): (n: nat)
      reads this
      requires Valid()
      ensures n == |Contents()|
    {
      JoinedSize(records, reservations);
      |records| + |reservations|
    }

    constructor (limits: Limits)
      ensures Valid() && Contents() == map[] && this.limits == limits
    {
      records, reservations := map[], map[];
      this.limits := limits;
    }

    method PruneRecords(now: int)
      modifies this`records
      ensures records == map id | id in old(records) && old(records)[id].expiresAt > now :: old(records)[id]
    {
      var unseen := records.Keys;
      while unseen != {}
        invariant unseen <= old(records).Keys
        invariant records == map id | id in old(records) && (id in unseen || old(records)[id].expiresAt > now)
                               :: old(records)[id]
        decreases |unseen|
      {
        var id :| id in unseen;
        if records[id].expiresAt <= now {
          records := records - {id};
        }
        unseen := unseen - {id};
      }
    }

    method PruneReservations(now: int)
      modifies this`reservations
      ensures reservations == map id | id in old(reservations) && old(reservations)[id] > now :: old(reservations)[id]
    {
      var unseen := reservations.Keys;
      while unseen != {}
        invariant unseen <= old(reservations).Keys
        invariant reservations == map id | id in old(reservations) && (id in unseen || old(reservations)[id] > now)
                                    :: old(reservations)[id]
        decreases |unseen|
      {
        var id :| id in unseen;
        if reservations[id] <= now {
          reservations := reservations - {id};
        }
        unseen := unseen - {id};
      }
    }

    method PruneExpired(now: int)
      requires Valid()
      modifies this
      ensures Valid() && Contents() == Live(old(Contents()), now)
    {
      PruneRecords(now);
      PruneReservations(now);
    }

    method StoreRecord(id: SessionId, record: Record, now: int)
      requires Valid()
      modifies this
      ensures Valid() && Contents() == old(Contents())[id := Held(record, now + limits.retentionMs)]
    {
      reservations := reservations - {id};
      records := records[id := StoredRecord(record, now + limits.retentionMs)];
    }

    method StoreReservation(id: SessionId, now: int)
      requires Valid() && id !in records
      modifies this`reservations
      ensures Valid() && Contents() == old(Contents())[id := Reserved(now + limits.retentionMs)]
    {
      JoinedAfterReservation(records, reservations, id, now + limits.retentionMs);
      reservations := reservations[id := now + limits.retentionMs];
    }

    method Reserve(id: SessionId, now: int) returns (r: bool)
      requires Valid()
      modifies this
      ensures Valid() && (Contents(), Flag(r)) == MemoryApply(old(Contents()), StoreOp.Reserve(id), now, limits)
    {
      PruneExpired(now);
      var known, full := id in records || id in reservations, Size() >= limits.maxRecords;
      JoinedAt(records, reservations, id);
      ReserveIs(Contents(), id, now, limits, known, full);
      if known {
        return true;
      }
      if full {
        return false;
      }
      StoreReservation(id, now);
      return true;
    }

    method TransferReservation(source: SessionId, destination: SessionId, now: int) returns (r: bool)
      requires Valid()
      modifies this
      ensures Valid()
      ensures (Contents(), Flag(r)) == MemoryApply(old(Contents()), Transfer(source, destination), now, limits)
    {
      PruneExpired(now);
      if source !in reservations || destination in records || destination in reservations {
        return false;
      }
      var expiresAt := reservations[source];
      JoinedAfterDelete(records, reservations, source);
      assert records - {source} == records;
      reservations := reservations - {source};
      JoinedAfterReservation(records, reservations, destination, expiresAt);
      reservations := reservations[destination := expiresAt];
      return true;
    }

    method Get(id: SessionId, now: int) returns (r: Option<Record>)
      requires Valid()
      modifies this
      ensures Valid() && (Contents(), Found(r)) == MemoryApply(old(Contents()), StoreOp.Get(id), now, limits)
    {
      PruneExpired(now);
      r := if id in records then Some(records[id].record) else None;
    }

    method SetPending(id: SessionId, device: DeviceId, credentialId: CredentialId, version: nat, now: int)
      returns (r: Option<Record>)
      requires Valid()
      modifies this
      ensures Valid()
      ensures (Contents(), Found(r))
           == MemoryApply(old(Contents()), StoreOp.SetPending(id, device, credentialId, version), now, limits)
    {
      PruneExpired(now);
      var record := Record(device, credentialId, version, Pending, None);
      var existing := if id in records then Some(records[id].record) else None;
      var full := id !in records && id !in reservations && Size() >= limits.maxRecords;
      JoinedAt(records, reservations, id);
      SetPendingIs(Contents(), id, record, now, limits, existing, full);
      if existing.Some? {
        return if SameGeneration(existing.value, record) then existing else None;
      }
      if full {
        return None;
      }
      StoreRecord(id, record, now);
      r := Some(record);
    }

    method BeginRecovery(id: SessionId, device: DeviceId, credentialId: CredentialId, version: nat,
                           target: CredentialId, now: int)
      returns (r: Option<Record>)
      requires Valid()
      modifies this
      ensures Valid()
      ensures (Contents(), Found(r))
           == MemoryApply(old(Contents()), StoreOp.BeginRecovery(id, device, credentialId, version, target), now, limits)
    {
      PruneExpired(now);
      var source := Generation(credentialId, version);
      if id in records {
        var existing := records[id].record;
        if existing.state.Delivered? || existing.device != device {
          return None;
        }
        if existing.state.Recovering? {
          return Some(existing);
        }
        source := Generation(existing.credentialId, existing.version);
      } else {
        if id !in reservations && Size() >= limits.maxRecords {
          return None;
        }
      }
      var recovering := Record(device, source.credentialId, source.version, Recovering, Some(target));
      StoreRecord(id, recovering, now);
      r := Some(recovering);
    }

    method AdvanceRecovery(id: SessionId, device: DeviceId, expected: Generation, next: Generation,
                             target: CredentialId, now: int)
      returns (r: Option<Record>)
      requires Valid()
      modifies this
      ensures Valid()
      ensures (Contents(), Found(r))
           == MemoryApply(old(Contents()), StoreOp.AdvanceRecovery(id, device, expected, next, target), now, limits)
    {
      PruneExpired(now);
      if id !in records || !records[id].record.state.Recovering? || records[id].record.device != device
        || SourceOf(records[id].record) != expected || !IsReservedTarget(records[id].record, next) {
        return None;
      }
      var advanced := Record(device, next.credentialId, next.version, Recovering, Some(target));
      StoreRecord(id, advanced, now);
      r := Some(advanced);
    }

    method FinishRecovery(id: SessionId, device: DeviceId, expected: Generation, next: Generation, now: int)
      returns (r: Option<Record>)
      requires Valid()
      modifies this
      ensures Valid()
      ensures (Contents(), Found(r))
           == MemoryApply(old(Contents()), StoreOp.FinishRecovery(id, device, expected, next), now, limits)
    {
      PruneExpired(now);
      if id !in records || !records[id].record.state.Recovering? || records[id].record.device != device
        || SourceOf(records[id].record) != expected || !IsReservedTarget(records[id].record, next) {
        return None;
      }
      var pending := Record(device, next.credentialId, next.version, Pending, None);
      StoreRecord(id, pending, now);
      r := Some(pending);
    }

    method Acknowledge(id: SessionId, device: DeviceId, expected: Generation, now: int)
      returns (r: Option<Record>)
      requires Valid()
      modifies this
      ensures Valid()
      ensures (Contents(), Found(r))
           == MemoryApply(old(Contents()), StoreOp.Acknowledge(id, device, expected), now, limits)
    {
      PruneExpired(now);
      if id !in records || records[id].record.device != device || SourceOf(records[id].record) != expected {
        return None;
      }
      var existing := records[id].record;
      if existing.state.Delivered? {
        return Some(existing);
      }
      if !existing.state.Pending? {
        return None;
      }
      var delivered := existing.(state := Delivered);
      StoreRecord(id, delivered, now);
      r := Some(delivered);
    }

    method Delete(id: SessionId, now: int)
      requires Valid()
      modifies this
      ensures Valid() && (Contents(), Done) == MemoryApply(old(Contents()), StoreOp.Delete(id), now, limits)
    {
      JoinedAfterDelete(records, reservations, id);
      records := records - {id};
      reservations := reservations - {id};
    }
  }

  // --- One table ------------------------------------------------------------------------------

  datatype RowState = RowReserved | RowPending | RowRecovering | RowDelivered

  /** A row with its nullable columns. */
  datatype Row = Row(
    state: RowState,
    device: Option<DeviceId>,
    credentialId: Option<CredentialId>,
    version: Option<nat>,
    target: Option<CredentialId>,
    expiresAt: int)

  type Table = map<SessionId, Row>

  /** The columns that a row of each state must have. */
  predicate RowValid(row: Row) {
    if row.state.RowReserved? then row.device.None? && row.credentialId.None? && row.version.None?
    else row.device.Some? && row.credentialId.Some? && row.version.Some?
  }

  function ToRow(r: Record, expiresAt: int): Row {
    var state := match r.state case Pending => RowPending case Recovering => RowRecovering case Delivered => RowDelivered;
    Row(state, Some(r.device), Some(r.credentialId), Some(r.version), r.target, expiresAt)
  }

  /** The record of a row, null for a reservation. */
  function Snapshot(row: Row): Option<Record>
    requires RowValid(row)
  {
    match row.state
    case RowReserved => None
    case RowPending => Some(Record(row.device.value, row.credentialId.value, row.version.value, Pending, row.target))
    case RowRecovering =>
      Some(Record(row.device.value, row.credentialId.value, row.version.value, Recovering, row.target))
    case RowDelivered =>
      Some(Record(row.device.value, row.credentialId.value, row.version.value, Delivered, row.target))
  }

  function ToEntry(row: Row): Entry
    requires RowValid(row)
  {
    match Snapshot(row)
    case Some(r) => Held(r, row.expiresAt)
    case None => Reserved(row.expiresAt)
  }

  ghost predicate TableValid(rows: Table) {
    forall id <- rows :: RowValid(rows[id])
  }

  function ToEntries(rows: Table): Entries
    requires TableValid(rows)
  {
    map id | id in rows :: ToEntry(rows[id])
  }

  lemma EntriesAfterInsert(rows: Table, id: SessionId, row: Row)
    requires TableValid(rows) && RowValid(row)
    ensures ToEntries(rows[id := row]) == ToEntries(rows)[id := ToEntry(row)]
  {
  }

  lemma EntriesAfterDelete(rows: Table, id: SessionId)
    requires TableValid(rows)
    ensures ToEntries(rows - {id}) == ToEntries(rows) - {id}
  {
  }

  lemma EntriesSize(rows: Table)
    requires TableValid(rows)
    ensures ToEntries(rows).Keys == rows.Keys && |ToEntries(rows)| == |rows|
  {
    assert ToEntries(rows).Keys == rows.Keys;
  }

  class SqlitePairingCredentialCompletionRepository {
    var rows: Table
    const limits: Limits

    ghost predicate Valid()
      reads this
    {
      TableValid(rows)
    }

    ghost function Contents(): Entries
      reads this
      requires Valid()
    {
      ToEntries(rows)
    }

    constructor (limits: Limits)
      ensures Valid() && Contents() == map[] && this.limits == limits
    {
      rows := map[];
      this.limits := limits;
    }

    /** DELETE FROM ... WHERE expires_at_ms <= now. */
    method Prune(now: int)
      requires Valid()
      modifies this
      ensures Valid() && Contents() == Live(old(Contents()), now)
    {
      rows := map id | id in rows && rows[id].expiresAt > now :: rows[id];
    }

    method StoreRow(id: SessionId, record: Record, now: int) returns (r: Option<Record>)
      requires Valid()
      modifies this
      ensures Valid() && r == Some(record)
      ensures Contents() == old(Contents())[id := Held(record, now + limits.retentionMs)]
    {
      EntriesAfterInsert(rows, id, ToRow(record, now + limits.retentionMs));
      rows := rows[id := ToRow(record, now + limits.retentionMs)];
      r := Snapshot(rows[id]);
    }

    method Reserve(id: SessionId, now: int) returns (r: bool)
      requires Valid()
      modifies this
      ensures Valid() && (Contents(), Flag(r)) == TableApply(old(Contents()), StoreOp.Reserve(id), now, limits)
    {
      Prune(now);
      EntriesSize(rows);
      if id in rows {
        return true;
      }
      if |rows| >= limits.maxRecords {
        return false;
      }
      var row := Row(RowReserved, None, None, None, None, now + limits.retentionMs);
      EntriesAfterInsert(rows, id, row);
      rows := rows[id := row];
      return true;
    }

    method TransferReservation(source: SessionId, destination: SessionId, now: int) returns (r: bool)
      requires Valid()
      modifies this
      ensures Valid()
      ensures (Contents(), Flag(r)) == TableApply(old(Contents()), Transfer(source, destination), now, limits)
    {
      Prune(now);
      if source !in rows || rows[source].state != RowReserved || destination in rows {
        return false;
      }
      EntriesAfterDelete(rows, source);
      EntriesAfterInsert(rows - {source}, destination, rows[source]);
      rows := (rows - {source})[destination := rows[source]];
      return true;
    }

    method Get(id: SessionId, now: int) returns (r: Option<Record>)
      requires Valid()
      modifies this
      ensures Valid() && (Contents(), Found(r)) == TableApply(old(Contents()), StoreOp.Get(id), now, limits)
    {
      Prune(now);
      r := if id in rows then Snapshot(rows[id]) else None;
    }

    method SetPending(id: SessionId, device: DeviceId, credentialId: CredentialId, version: nat, now: int)
      returns (r: Option<Record>)
      requires Valid()
      modifies this
      ensures Valid()
      ensures (Contents(), Found(r))
           == TableApply(old(Contents()), StoreOp.SetPending(id, device, credentialId, version), now, limits)
    {
      Prune(now);
      EntriesSize(rows);
      if id in rows && rows[id].state != RowReserved {
        return if rows[id].state == RowPending && rows[id].device == Some(device)
                 && rows[id].credentialId == Some(credentialId) && rows[id].version == Some(version)
               then Snapshot(rows[id]) else None;
      }
      if id !in rows && |rows| >= limits.maxRecords {
        return None;
      }
      r := StoreRow(id, Record(device, credentialId, version, Pending, None), now);
    }

    method BeginRecovery(id: SessionId, device: DeviceId, credentialId: CredentialId, version: nat,
                           target: CredentialId, now: int)
      returns (r: Option<Record>)
      requires Valid()
      modifies this
      ensures Valid()
      ensures (Contents(), Found(r))
           == TableApply(old(Contents()), StoreOp.BeginRecovery(id, device, credentialId, version, target), now, limits)
    {
      Prune(now);
      EntriesSize(rows);
      if id in rows && rows[id].state == RowDelivered {
        return None;
      }
      if id in rows && rows[id].device.Some? && rows[id].device != Some(device) {
        return None;
      }
      if id in rows && rows[id].state == RowRecovering {
        return Snapshot(rows[id]);
      }
      if id !in rows && |rows| >= limits.maxRecords {
        return None;
      }
      var source := if id in rows && rows[id].state == RowPending
                    then Generation(rows[id].credentialId.value, rows[id].version.value)
                    else Generation(credentialId, version);
      r := StoreRow(id, Record(device, source.credentialId, source.version, Recovering, Some(target)), now);
    }

    /** The guard shared by advanceRecovery and finishRecovery. */
    function RecoveryRowMatches(id: SessionId, device: DeviceId, expected: Generation, next: Generation): bool
      reads this
    {
      && id in rows && rows[id].state == RowRecovering && rows[id].device == Some(device)
      && rows[id].credentialId == Some(expected.credentialId) && rows[id].version == Some(expected.version)
      && rows[id].target == Some(next.credentialId) && next.version == expected.version + 1
    }

    method AdvanceRecovery(id: SessionId, device: DeviceId, expected: Generation, next: Generation,
                             target: CredentialId, now: int)
      returns (r: Option<Record>)
      requires Valid()
      modifies this
      ensures Valid()
      ensures (Contents(), Found(r))
           == TableApply(old(Contents()), StoreOp.AdvanceRecovery(id, device, expected, next, target), now, limits)
    {
      Prune(now);
      if !RecoveryRowMatches(id, device, expected, next) {
        return None;
      }
      r := StoreRow(id, Record(device, next.credentialId, next.version, Recovering, Some(target)), now);
    }

    method FinishRecovery(id: SessionId, device: DeviceId, expected: Generation, next: Generation, now: int)
      returns (r: Option<Record>)
      requires Valid()
      modifies this
      ensures Valid()
      ensures (Contents(), Found(r))
           == TableApply(old(Contents()), StoreOp.FinishRecovery(id, device, expected, next), now, limits)
    {
      Prune(now);
      if !RecoveryRowMatches(id, device, expected, next) {
        return None;
      }
      r := StoreRow(id, Record(device, next.credentialId, next.version, Pending, None), now);
    }

    method Acknowledge(id: SessionId, device: DeviceId, expected: Generation, now: int)
      returns (r: Option<Record>)
      requires Valid() && WellFormed(Contents())
      modifies this
      ensures Valid()
      ensures (Contents(), Found(r))
           == TableApply(old(Contents()), StoreOp.Acknowledge(id, device, expected), now, limits)
    {
      Prune(now);
      if id !in rows || rows[id].device != Some(device) || rows[id].credentialId != Some(expected.credentialId)
        || rows[id].version != Some(expected.version) {
        return None;
      }
      if rows[id].state == RowDelivered {
        return Snapshot(rows[id]);
      }
      if rows[id].state != RowPending {
        return None;
      }
      r := StoreRow(id, Record(device, expected.credentialId, expected.version, Delivered, None), now);
    }

    method Delete(id: SessionId, now: int)
      requires Valid()
      modifies this
      ensures Valid() && (Contents(), Done) == TableApply(old(Contents()), StoreOp.Delete(id), now, limits)
    {
      Prune(now);
      EntriesAfterDelete(rows, id);
      rows := rows - {id};
    }
  }
}
