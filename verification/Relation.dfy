/** How the tables of the PostgreSQL store represent a state of the memory store. */
module Relation {
  import opened Basics
  import opened Store
  import opened BlockParts
  import opened Tables
  import opened Memory
  import opened Runs

  /** The row of a record. A deleted database has no lease times in its row; the record keeps stale ones. */
  function RowOf(db: Record): Row
    requires db.state.pageCount <= MAX63 && db.state.version <= MAX63 && db.lease.epoch <= MAX63
  {
    Row(db.state.pageSize, db.state.pageCount, db.state.version, db.state.lastCommitID,
        db.lease.epoch, db.lease.id, db.holder,
        if db.deleted then None else Some(db.grantedAt), if db.deleted then None else Some(db.expiresAt), db.deleted)
  }

  predicate RelRow(row: Row, db: Record) {
    && db.state.pageCount <= MAX63 && db.state.version <= MAX63 && db.lease.epoch <= MAX63
    && row == RowOf(db)
  }

  /** The key's parts are the parts of the record's blocks, and nothing else. */
  ghost predicate RelBlocks(parts: Parts, k: Key, blocks: map<u64, Bytes>) {
    && (forall i :: i in blocks ==> i <= MAX63)
    && (forall id :: id in parts && id.key == k ==>
          && 0 <= id.idx && id.idx in blocks && 0 <= id.part < PartCount(blocks[id.idx])
          && parts[id] == Part(blocks[id.idx], id.part))
    && (forall i: u64, p: nat :: i in blocks && p < PartCount(blocks[i]) ==> PartID(k, i, p) in parts)
  }

  /** The key's rows in the change table are the log entries, up to the current version, and nothing else. */
  ghost predicate RelLog(log: Log, k: Key, changes: seq<Change>, version: u64) {
    && (forall v: i64 :: version - |changes| < v <= version ==> ChangeID(k, v) in log)
    && (forall id :: id in log && id.key == k ==>
          && version - |changes| < id.version <= version
          && log[id] == changes[id.version - version + |changes| - 1].blocks)
  }

  ghost predicate RelKey(t: Tables, k: Key, db: Record) {
    && k in t.databases && RelRow(t.databases[k], db) && RelBlocks(t.blocks, k, db.blocks)
    && RelLog(t.changes, k, db.changes, db.state.version)
  }

  /** Marks a key, so that RelAt unfolds the relation there and nowhere else. */
  ghost predicate At(k: Key) { true }

  ghost predicate Rel(t: Tables, s: StoreState) {
    && t.databases.Keys == s.dbs.Keys && t.slots == s.slots
    && (forall k {:trigger At(k)} :: k in s.dbs ==> RelKey(t, k, s.dbs[k]))
    && (forall id :: id in t.blocks ==> id.key in t.databases)
    && (forall id :: id in t.changes ==> id.key in t.databases)
  }

  lemma RelAt(t: Tables, s: StoreState, k: Key)
    requires Rel(t, s) && k in s.dbs
    ensures RelKey(t, k, s.dbs[k])
  {
    assert At(k);
  }

  /** A transaction on the rows of one key. */
  ghost predicate SameElsewhere(t: Tables, t': Tables, k: Key) {
    && t'.slots == t.slots
    && (forall k' :: k' != k ==> Lookup(t'.databases, k') == Lookup(t.databases, k'))
    && (forall id: PartID :: id.key != k ==> Lookup(t'.blocks, id) == Lookup(t.blocks, id))
    && (forall id: ChangeID :: id.key != k ==> Lookup(t'.changes, id) == Lookup(t.changes, id))
  }

  predicate SameFile(a: Record, b: Record) {
    a.blocks == b.blocks && a.changes == b.changes && a.state.version == b.state.version
  }

  ghost predicate RelOption(row: Option<Row>, r: Option<Record>) {
    match r
    case None => row.None?
    case Some(db) => row.Some? && RelRow(row.value, db) && Good(db) && db.state.version < MAX63 && db.lease.epoch < MAX63
  }

  /** What the int64 columns and the LIMIT can carry. */
  predicate Fits(e: Event) {
    && (e.Commit? ==> e.commit.pageCount <= MAX63)
    && (e.DeleteUnused? ==> e.limit <= 0x4000_0000)
  }

  /** The counters have room for one more step. */
  ghost predicate Roomy(s: StoreState) {
    forall k :: k in s.dbs ==> Good(s.dbs[k]) && s.dbs[k].state.version < MAX63 && s.dbs[k].lease.epoch < MAX63
  }
}
