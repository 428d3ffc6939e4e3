/** The tables of migrations/ and the statements of internal/store/postgres/queries.sql. */
module Tables {
  import opened Basics
  import opened Store
  import opened BlockParts

  datatype Row = Row(
    pageSize: u32, pageCount: i64, version: i64, lastCommitID: Bytes,
    leaseEpoch: i64, leaseID: Bytes, leaseHolder: Option<Bytes>,
    leaseGranted: Option<int>, leaseExpires: Option<int>, deleted: bool)

  datatype PartID = PartID(key: Key, idx: i64, part: int)
  datatype ChangeID = ChangeID(key: Key, version: i64)
  type Parts = map<PartID, Bytes>
  type Log = map<ChangeID, seq<i64>>

  datatype Tables = Tables(databases: map<Key, Row>, blocks: Parts, changes: Log, slots: map<string, Slot>)

  const EMPTY_TABLES := Tables(map[], map[], map[], map[])

  // ---- databases ----

  function Update(t: Tables, k: Key, row: Row): Tables {
    t.(databases := t.databases[k := row])
  }

  /** The row that CreateDatabase inserts: defaults and NULLs. */
  function CreateDatabase(pageSize: u32): Row {
    Row(pageSize, 0, 0, [], 0, [], None, None, None, false)
  }

  function GrantLease(row: Row, id: Bytes, holder: Option<Bytes>, granted: int, expires: int): Row
    requires row.leaseEpoch < MAX63
  {
    row.(leaseEpoch := row.leaseEpoch + 1, leaseID := id, leaseHolder := holder,
         leaseGranted := Some(granted), leaseExpires := Some(expires))
  }

  /** The WHERE clause of ExtendLease and ReleaseLease. */
  predicate LeaseMatches(t: Tables, k: Key, epoch: i64) {
    k in t.databases && t.databases[k].leaseEpoch == epoch && t.databases[k].leaseHolder.Some?
  }

  function ExtendLease(row: Row, expires: int): Row {
    row.(leaseExpires := Some(expires))
  }

  function ReleaseLease(row: Row): Row {
    row.(leaseHolder := None)
  }

  function ApplyCommit(row: Row, pageCount: i64, commitID: Bytes, expires: int): Row
    requires row.version < MAX63
  {
    row.(pageCount := pageCount, version := row.version + 1, lastCommitID := commitID, leaseExpires := Some(expires))
  }

  function DeleteDatabase(row: Row): Row
    requires row.version < MAX63 && row.leaseEpoch < MAX63
  {
    row.(deleted := true, pageCount := 0, version := row.version + 1, lastCommitID := [],
         leaseEpoch := row.leaseEpoch + 1, leaseID := [], leaseHolder := None, leaseGranted := None, leaseExpires := None)
  }

  function ReviveDatabase(row: Row, pageSize: u32): Row {
    row.(deleted := false, pageSize := pageSize)
  }

  /** Deletes rows of `databases`; the foreign keys cascade to their blocks and change logs. */
  function PurgeKeys(t: Tables, keys: set<Key>): Tables {
    Tables(t.databases - keys,
           map id | id in t.blocks && id.key !in keys :: t.blocks[id],
           map id | id in t.changes && id.key !in keys :: t.changes[id],
           t.slots)
  }

  function KeysOfSubject(t: Tables, subject: string): set<Key> {
    set k | k in t.databases && k.subject == subject
  }

  function PurgeSubject(t: Tables, subject: string): Tables {
    PurgeKeys(t, KeysOfSubject(t, subject))
  }

  predicate UnusedRow(t: Tables, cutoff: int, k: Key) {
    && k in t.databases && !t.databases[k].deleted
    && t.databases[k].leaseExpires.Some? && t.databases[k].leaseExpires.value < cutoff
  }

  /** What UnusedDatabases may answer: rows with the same expiry come in any order. */
  ghost predicate UnusedDatabases(t: Tables, cutoff: int, limit: nat, chosen: seq<Key>) {
    && (forall i, j :: 0 <= i < j < |chosen| ==> chosen[i] != chosen[j]) && |chosen| <= limit
    && (forall i :: 0 <= i < |chosen| ==> UnusedRow(t, cutoff, chosen[i]))
    && (forall i, j :: 0 <= i < j < |chosen| ==>
          t.databases[chosen[i]].leaseExpires.value <= t.databases[chosen[j]].leaseExpires.value)
    && (forall k :: UnusedRow(t, cutoff, k) && k !in chosen ==> |chosen| == limit)
    && (forall c, k :: c in chosen && UnusedRow(t, cutoff, k) && k !in chosen ==>
          t.databases[c].leaseExpires.value <= t.databases[k].leaseExpires.value)
  }

  // ---- blocks ----

  /** Upserts the first `n` parts of a block. */
  function PutParts(parts: Parts, k: Key, idx: i64, data: Bytes, n: nat): Parts
    requires n <= PartCount(data)
  {
    if n == 0 then parts else PutParts(parts, k, idx, data, n - 1)[PartID(k, idx, n - 1) := Part(data, n - 1)]
  }

  lemma {:induction false} PutPartsAt(parts: Parts, k: Key, idx: i64, data: Bytes, n: nat, id: PartID)
    requires n <= PartCount(data)
    ensures Lookup(PutParts(parts, k, idx, data, n), id)
            == if id.key == k && id.idx == idx && 0 <= id.part < n then Some(Part(data, id.part)) else Lookup(parts, id)
  {
    if n > 0 { PutPartsAt(parts, k, idx, data, n - 1, id); }
  }

  /** PutBlocks for the parts of one block. */
  function PutBlock(parts: Parts, k: Key, idx: i64, data: Bytes): Parts {
    PutParts(parts, k, idx, data, PartCount(data))
  }

  /** putBlocks: every block of a commit in order. */
  function PutBlocks(parts: Parts, k: Key, blocks: seq<Block>): Parts {
    if blocks == [] then parts
    else
      var last := blocks[|blocks| - 1];
      PutBlock(PutBlocks(parts, k, blocks[..|blocks| - 1]), k, ToInt64(last.index), last.data)
  }

  function DeleteBlocksFrom(parts: Parts, k: Key, idx: i64): Parts {
    map id | id in parts && !(id.key == k && id.idx >= idx) :: parts[id]
  }

  function FetchBlocks(parts: Parts, k: Key, first: i64, beyond: i64): Parts {
    map id | id in parts && id.key == k && first <= id.idx < beyond :: parts[id]
  }

  // ---- changes ----

  function RecordChange(log: Log, k: Key, version: i64, blocks: seq<i64>): Log {
    if ChangeID(k, version) in log then log else log[ChangeID(k, version) := blocks]
  }

  function PruneChanges(log: Log, k: Key, version: i64): Log {
    map id | id in log && !(id.key == k && id.version <= version) :: log[id]
  }

  function DeleteChanges(log: Log, k: Key): Log {
    map id | id in log && id.key != k :: log[id]
  }

  function VersionsOf(log: Log, k: Key): set<i64> {
    set id | id in log && id.key == k :: id.version
  }

  predicate Smaller(x: i64, y: i64) { x < y }

  /** coalesce(min(version), 0). */
  ghost function OldestChange(log: Log, k: Key): i64 {
    if VersionsOf(log, k) == {} then 0 else Least(VersionsOf(log, k), Smaller)
  }

  /** The indexes in the rows of ChangedSince. */
  function ChangedSince(log: Log, k: Key, version: i64): set<i64> {
    set id, n | id in log && id.key == k && id.version > version && 0 <= n < |log[id]| :: log[id][n]
  }

  // ---- slots ----

  predicate SlotOfSubject(t: Tables, subject: string) {
    exists o :: o in t.slots && t.slots[o].subject == subject
  }

  function ReleaseUnusedSlots(t: Tables, cutoff: int): Tables {
    t.(slots := map o | o in t.slots &&
                        !(t.slots[o].claimedAt < cutoff &&
                          !exists k :: k in t.databases && k.subject == t.slots[o].subject && !t.databases[k].deleted)
                :: t.slots[o])
  }
}
