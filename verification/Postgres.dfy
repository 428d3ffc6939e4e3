/** internal/store/postgres/postgres.go on values: each method is one transaction over the tables. A method that returns
    an error rolls back, so its tables are the ones before. */
module Postgres {
  import opened Basics
  import opened Store
  import opened BlockParts
  import opened Tables
  import opened Memory

  // ---- rows as results ----

  predicate HoldsRow(row: Row, epoch: u64) {
    row.leaseHolder.Some? && ToUint64(row.leaseEpoch) == epoch
  }

  function LeaseOf(row: Row): Lease { Lease(row.leaseID, ToUint64(row.leaseEpoch)) }

  function StateOf(row: Row): State {
    State(row.pageSize, ToUint64(row.pageCount), ToUint64(row.version), row.lastCommitID)
  }

  predicate ActiveRow(row: Row, now: int) {
    row.leaseHolder.Some? && row.leaseExpires.Some? && now < row.leaseExpires.value
  }

  /** The time of a NULL timestamp is Go's zero time. */
  function GrantedAt(row: Row): int {
    if row.leaseGranted.Some? then row.leaseGranted.value else 0
  }

  // ---- Open ----

  datatype Locked = Found(row: Row) | Refusal(error: Error)

  /** LockDatabase, or createDatabase if there is no row; then reviveDatabase for a deleted row, otherwise the page size
      check. */
  function LockRow(row: Option<Row>, q: OpenRequest): Locked {
    if row.None? then
      if !q.create || q.resume.Some? then Refusal(NotFound)
      else if !ValidPageSize(q.pageSize) then Refusal(PageSizeInvalid(q.pageSize))
      else Found(CreateDatabase(q.pageSize))
    else if row.value.deleted then
      if q.resume.Some? then Refusal(Fenced)
      else if !q.create then Refusal(NotFound)
      else if !ValidPageSize(q.pageSize) then Refusal(PageSizeInvalid(q.pageSize))
      else Found(ReviveDatabase(row.value, q.pageSize))
    else if q.pageSize != 0 && row.value.pageSize != q.pageSize then
      Refusal(PageSizeDiffers(q.pageSize, row.value.pageSize))
    else Found(row.value)
  }

  /** The row that Open writes, None if it fails and rolls back. */
  function OpenRow(found: Option<Row>, q: OpenRequest, id: Bytes): (Option<Row>, Reply) {
    match LockRow(found, q)
    case Refusal(e) => (None, Failed(e))
    case Found(row) =>
      if q.resume.Some? then
        if !HoldsRow(row, q.resume.value.leaseEpoch) || row.leaseID != q.resume.value.leaseID then (None, Failed(Fenced))
        else (Some(ExtendLease(row, q.now + q.ttl)), Opened(LeaseOf(row), StateOf(row), false))
      else
        var active := ActiveRow(row, q.now);
        if active && !q.takeover && !SameBytes(row.leaseHolder, q.instance)
        then (None, Failed(LeaseHeld(GrantedAt(row))))
        else if row.leaseEpoch == MAX63 then (None, Failed(Internal))
        else (Some(GrantLease(row, id, q.instance, q.now, q.now + q.ttl)),
              Opened(Lease(id, ToUint64(row.leaseEpoch + 1)), StateOf(row), active))
  }

  function PutRow(t: Tables, k: Key, row: Option<Row>): Tables {
    if row.Some? then Update(t, k, row.value) else t
  }

  function PgOpen(t: Tables, q: OpenRequest, id: Bytes): (Tables, Reply) {
    if q.owner != "" && q.owner in t.slots && t.slots[q.owner].subject != q.key.subject then (t, Failed(SlotTaken))
    else
      var (row, reply) := OpenRow(Lookup(t.databases, q.key), q, id);
      (PutRow(t, q.key, row), reply)
  }

  // ---- Fetch ----

  /** The block `idx` after copying its parts into a buffer of zeros. */
  function ReadBack(parts: Parts, k: Key, idx: i64, pageSize: u32): Bytes {
    seq(pageSize, o requires 0 <= o =>
      var id := PartID(k, idx, o / PART);
      if id in parts && o % PART < |parts[id]| then parts[id][o % PART] else 0)
  }

  function PgFetch(t: Tables, k: Key, version: u64, first: u64, count: u64): Reply {
    if k !in t.databases || t.databases[k].deleted then Failed(NotFound)
    else
      var row := t.databases[k];
      if version != ToUint64(row.version) then Failed(VersionConflict(ToUint64(row.version)))
      else
        var e := CheckRange(first, count, ToUint64(row.pageCount));
        if e.Some? then Failed(e.value)
        else
          var rows := FetchBlocks(t.blocks, k, ToInt64(first), ToInt64(first + count));
          Pages(seq(count, i requires 0 <= i < count => ReadBack(rows, k, ToInt64(first + i), row.pageSize)))
  }

  // ---- Commit ----

  lemma SmallerOrder()
    ensures StrictOrder<i64>(Smaller)
  {}

  ghost function SortedTouched(blocks: seq<Block>): seq<i64> {
    SmallerOrder();
    SortedSet(set b | b in blocks :: ToInt64(b.index), Smaller)
  }

  /** recordChange: the entry, and pruning once the version exceeds the window. */
  ghost function RecordAndPrune(log: Log, k: Key, version: u64, blocks: seq<Block>): Log {
    var longer := RecordChange(log, k, ToInt64(version), SortedTouched(blocks));
    if version <= CHANGE_WINDOW then longer
    else PruneChanges(longer, k, ToInt64(version - CHANGE_WINDOW))
  }

  ghost function PgApply(t: Tables, q: CommitRequest): Tables
    requires q.key in t.databases && t.databases[q.key].version < MAX63
  {
    var row := ApplyCommit(t.databases[q.key], ToInt64(q.pageCount), q.commitID, q.now + q.ttl);
    Tables(t.databases[q.key := row],
           DeleteBlocksFrom(PutBlocks(t.blocks, q.key, q.blocks), q.key, ToInt64(q.pageCount)),
           RecordAndPrune(t.changes, q.key, ToUint64(row.version), q.blocks),
           t.slots)
  }

  ghost function PgCommit(t: Tables, q: CommitRequest): (Tables, Reply) {
    if q.key !in t.databases then (t, Failed(NotFound))
    else
      var row := t.databases[q.key];
      if !HoldsRow(row, q.leaseEpoch) then (t, Failed(Fenced))
      else if ToUint64(row.version) == Inc(q.baseVersion) && |q.commitID| > 0 && row.lastCommitID == q.commitID then
        (Update(t, q.key, ExtendLease(row, q.now + q.ttl)), Committed(ToUint64(row.version)))
      else if ToUint64(row.version) != q.baseVersion then (t, Failed(VersionConflict(ToUint64(row.version))))
      else
        var e := CommitError(row.pageSize, q);
        if e.Some? then (t, Failed(e.value))
        else if row.version == MAX63 then (t, Failed(Internal))
        else (PgApply(t, q), Committed(ToUint64(row.version + 1)))
  }

  // ---- Changes ----

  ghost function PgChanges(t: Tables, k: Key, from: u64): Reply {
    if k !in t.databases || t.databases[k].deleted then Failed(NotFound)
    else
      var current := ToUint64(t.databases[k].version);
      if from > current then Failed(VersionAhead(from, current))
      else if from == current then Changed(ChangeSet(from, current, [], true))
      else
        var oldest := OldestChange(t.changes, k);
        if oldest == 0 || ToUint64(oldest) > Inc(from) then Changed(ChangeSet(from, current, [], false))
        else
          var seen := set i | i in ChangedSince(t.changes, k, ToInt64(from)) :: ToUint64(i);
          Changed(ChangeSet(from, current, SortedIndexes(seen), true))
  }

  // ---- Renew, Release, Delete ----

  /** whyNoRow: no row of the key was updated, because there is none or because the epoch or holder differs. */
  function WhyNoRow(t: Tables, k: Key): Reply {
    if k in t.databases then Failed(Fenced) else Failed(NotFound)
  }

  function PgRenew(t: Tables, k: Key, epoch: u64, now: int, ttl: int): (Tables, Reply) {
    if LeaseMatches(t, k, ToInt64(epoch)) then (Update(t, k, ExtendLease(t.databases[k], now + ttl)), Done)
    else (t, WhyNoRow(t, k))
  }

  function PgRelease(t: Tables, k: Key, epoch: u64): (Tables, Reply) {
    if LeaseMatches(t, k, ToInt64(epoch)) then (Update(t, k, ReleaseLease(t.databases[k])), Done)
    else (t, WhyNoRow(t, k))
  }

  /** remove, on a locked row whose counters do not overflow. */
  function RemoveRow(t: Tables, k: Key): Tables
    requires k in t.databases && t.databases[k].version < MAX63 && t.databases[k].leaseEpoch < MAX63
  {
    Tables(t.databases[k := DeleteDatabase(t.databases[k])],
           DeleteBlocksFrom(t.blocks, k, 0), DeleteChanges(t.changes, k), t.slots)
  }

  predicate Removable(t: Tables, k: Key) {
    k in t.databases && t.databases[k].version < MAX63 && t.databases[k].leaseEpoch < MAX63
  }

  function PgDelete(t: Tables, q: DeleteRequest): (Tables, Reply) {
    if q.key !in t.databases || t.databases[q.key].deleted then (t, Deleted(0, false))
    else
      var row := t.databases[q.key];
      var active := ActiveRow(row, q.now);
      if active && !q.takeover then (t, Failed(LeaseHeld(GrantedAt(row))))
      else if !Removable(t, q.key) then (t, Failed(Internal))
      else (RemoveRow(t, q.key), Deleted(ToUint64(row.leaseEpoch + 1), active))
  }

  // ---- DeleteUnused ----

  /** The transaction for one candidate: None if it fails, because the row is gone or overflows. */
  function SweepRow(t: Tables, cutoff: int, k: Key): Option<Tables> {
    if k !in t.databases then None
    else if !UnusedRow(t, cutoff, k) then Some(t)
    else if SlotOfSubject(t, k.subject) then Some(PurgeKeys(t, {k}))
    else if Removable(t, k) then Some(RemoveRow(t, k))
    else None
  }

  /** The candidates one after the other: the tables, the deleted keys, and whether a transaction failed. */
  function SweepRows(t: Tables, cutoff: int, chosen: seq<Key>): (Tables, seq<Key>, bool) {
    if chosen == [] then (t, [], false)
    else
      var (before, deleted, failed) := SweepRows(t, cutoff, chosen[..|chosen| - 1]);
      if failed then (before, deleted, true)
      else
        var k := chosen[|chosen| - 1];
        var row := SweepRow(before, cutoff, k);
        if row.None? then (before, deleted, true)
        else (row.value, if UnusedRow(before, cutoff, k) then deleted + [k] else deleted, false)
  }

  function PgDeleteUnused(t: Tables, cutoff: int, chosen: seq<Key>): (Tables, Reply) {
    var (swept, deleted, failed) := SweepRows(t, cutoff, chosen);
    if failed then (swept, Failed(Internal)) else (ReleaseUnusedSlots(swept, cutoff), Keys(deleted))
  }

  // ---- slots ----

  function LiveRowIDs(t: Tables, subject: string): set<string> {
    set k | k in t.databases && k.subject == subject && !t.databases[k].deleted :: k.dbid
  }

  /** What keysOf makes of a purge: the databases that were still live, in the order of their IDs. */
  ghost function PurgedKeys(t: Tables, subject: string): seq<Key> {
    KeysFor(LiveRowIDs(t, subject), subject)
  }

  ghost function PgClaim(t: Tables, q: ClaimRequest): (Tables, Reply) {
    var slot := Slot(q.subject, "", q.now);
    if q.owner !in t.slots then (t.(slots := t.slots[q.owner := slot]), Claimed(slot, None, []))
    else
      var held := t.slots[q.owner];
      if held.subject == q.subject then (t, Claimed(held, None, []))
      else
        (PurgeSubject(t, held.subject).(slots := t.slots[q.owner := slot]),
         Claimed(slot, Some(held), PurgedKeys(t, held.subject)))
  }

  function PgLabel(t: Tables, owner: string, subject: string, text: string): (Tables, Reply) {
    if owner in t.slots && t.slots[owner].subject == subject then
      var slot := t.slots[owner].(labelText := text);
      (t.(slots := t.slots[owner := slot]), Claimed(slot, None, []))
    else if owner in t.slots then (t, Failed(SlotTaken))
    else (t, Failed(NotFound))
  }

  ghost function PgDeleteSlot(t: Tables, owner: string, subject: string): (Tables, Reply) {
    if owner in t.slots && t.slots[owner].subject != subject then (t, Failed(SlotTaken))
    else (PurgeSubject(t, subject).(slots := t.slots - {owner}), Keys(PurgedKeys(t, subject)))
  }

  // ---- one step ----

  /** The statement sends LIMIT min(limit, 2^30). */
  ghost predicate PgLegal(t: Tables, e: Event) {
    e.DeleteUnused? ==> UnusedDatabases(t, e.cutoff, Min(e.limit, 0x4000_0000), e.chosen)
  }

  ghost function PgStep(t: Tables, e: Event): (Tables, Reply) {
    match e
    case Open(q, id) => PgOpen(t, q, id)
    case Fetch(k, version, first, count) => (t, PgFetch(t, k, version, first, count))
    case Commit(q) => PgCommit(t, q)
    case Changes(k, from) => (t, PgChanges(t, k, from))
    case Renew(k, epoch, now, ttl) => PgRenew(t, k, epoch, now, ttl)
    case Release(k, epoch) => PgRelease(t, k, epoch)
    case Delete(q) => PgDelete(t, q)
    case DeleteUnused(cutoff, _, chosen) => PgDeleteUnused(t, cutoff, chosen)
    case GetSlot(owner) => (t, SlotIs(Lookup(t.slots, owner)))
    case ClaimSlot(q) => PgClaim(t, q)
    case SetSlotLabel(owner, subject, text) => PgLabel(t, owner, subject, text)
    case DeleteSlot(owner, subject) => PgDeleteSlot(t, owner, subject)
  }
}
