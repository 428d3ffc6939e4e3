/** What a deletion leaves of the PostgreSQL store's blocks. Block indexes from 2^63 on are negative in the table, and the
    deletion takes indexes from 0 on. */
module Leftovers {
  import opened Basics
  import opened Store
  import opened Memory
  import opened Runs
  import opened Fencing
  import opened BlockParts
  import opened Tables
  import opened Postgres
  import opened Relation
  import opened Simulation
  import opened PostgresRuns
  import opened PostgresStore

  /** No part of the database is left. */
  predicate NothingLeft(parts: Parts, k: Key) {
    forall id :: id in parts ==> id.key != k
  }

  /** The deletion leaves nothing exactly if no block index was 2^63 or more. */
  lemma DeletionLeavesNothing(t: Tables, k: Key)
    requires Removable(t, k)
    ensures NothingLeft(RemoveRow(t, k).blocks, k) <==> forall id :: id in t.blocks && id.key == k ==> id.idx >= 0
  {
    var after := RemoveRow(t, k).blocks;
    assert forall id :: id in t.blocks && id.key == k && id.idx < 0 ==> id in after;
  }

  /** So in a run within what the columns can carry, no part of a deleted database is left. */
  lemma DeletedIsEmpty(pg: PgRun, k: Key, i: nat)
    requires SmallHistory(pg) && i <= |pg.events| && k in pg.tables[i].databases && pg.tables[i].databases[k].deleted
    ensures NothingLeft(pg.tables[i].blocks, k)
  {
    var run := PostgresRefinesMemory(pg);
    RowAt(run, pg, k, i);
  }

  // ---- beyond the columns ----

  const FAR_INDEX: u64 := 0x8000_0000_0000_0000
  const MIN_INDEX: i64 := -MAX63 - 1

  function Make(size: u32, id: Bytes): Event {
    Open(OpenRequest(LOST, "", Some(id), size, true, false, None, 0, 10), id)
  }

  /** A file of 2^63 + 1 pages whose last page is `data`; and one of the same length without data. */
  function Far(data: Bytes): CommitRequest {
    CommitRequest(LOST, CommitID(1), 1, 0, FAR_INDEX + 1, [Block(FAR_INDEX, data)], 0, 10)
  }

  const LENGTHEN := CommitRequest(LOST, CommitID(2), 3, 2, FAR_INDEX + 1, [], 0, 10)

  /** The tables hold one database, with these parts. */
  predicate Holds(t: Tables, row: Row, parts: Parts) {
    t.databases == map[LOST := row] && t.blocks == parts && t.slots == map[]
  }

  function Stored(data: Bytes): Parts { PutBlock(map[], LOST, MIN_INDEX, data) }

  lemma StoredIDs(data: Bytes, id: PartID)
    ensures id in Stored(data) <==> id.key == LOST && id.idx == MIN_INDEX && 0 <= id.part < PartCount(data)
    ensures id in Stored(data) ==> Stored(data)[id] == Part(data, id.part)
  {
    PutPartsAt(map[], LOST, MIN_INDEX, data, PartCount(data), id);
  }

  /** Neither a truncation to 2^63 + 1 pages nor a deletion takes the part. */
  lemma Survives(data: Bytes, idx: i64)
    requires idx > MIN_INDEX
    ensures DeleteBlocksFrom(Stored(data), LOST, idx) == Stored(data)
  {
    var parts := Stored(data);
    forall id | id in parts ensures id.idx < idx { StoredIDs(data, id); }
  }

  function Granted(size: u32): Row { Row(size, 0, 0, [], 1, [1], Some([1]), Some(0), Some(10), false) }

  function Filled(size: u32): Row { ApplyCommit(Granted(size), ToInt64(FAR_INDEX + 1), CommitID(1), 10) }

  function Again(size: u32, size': u32): Row {
    GrantLease(ReviveDatabase(DeleteDatabase(Filled(size)), size'), [2], Some([2]), 0, 10)
  }

  function Longer(size: u32, size': u32): Row { ApplyCommit(Again(size, size'), ToInt64(FAR_INDEX + 1), CommitID(2), 10) }

  lemma MakeStep(size: u32)
    requires ValidPageSize(size)
    ensures PgStep(EMPTY_TABLES, Make(size, [1])).1.Opened?
    ensures Holds(PgStep(EMPTY_TABLES, Make(size, [1])).0, Granted(size), map[])
  {
  }

  lemma FarBlocks(data: Bytes)
    ensures DeleteBlocksFrom(PutBlocks(map[], LOST, Far(data).blocks), LOST, ToInt64(FAR_INDEX + 1)) == Stored(data)
  {
    var blocks := Far(data).blocks;
    assert blocks[..0] == [];
    assert PutBlocks(map[], LOST, blocks) == Stored(data);
    Survives(data, ToInt64(FAR_INDEX + 1));
  }

  lemma FarStep(t: Tables, size: u32, data: Bytes)
    requires ValidPageSize(size) && |data| == size && Holds(t, Granted(size), map[])
    ensures PgStep(t, Commit(Far(data))).1 == Committed(1)
    ensures Holds(PgStep(t, Commit(Far(data))).0, Filled(size), Stored(data))
  {
    CommitErrorNone(size, Far(data));
    FarBlocks(data);
  }

  lemma DeletionStep(t: Tables, size: u32, data: Bytes)
    requires Holds(t, Filled(size), Stored(data))
    ensures PgStep(t, DELETION).1 == Deleted(2, true)
    ensures Holds(PgStep(t, DELETION).0, DeleteDatabase(Filled(size)), Stored(data))
  {
    Survives(data, 0);
  }

  lemma AgainStep(t: Tables, size: u32, size': u32, data: Bytes)
    requires ValidPageSize(size') && Holds(t, DeleteDatabase(Filled(size)), Stored(data))
    ensures PgStep(t, Make(size', [2])).1 == Opened(Lease([2], 3), State(size', 0, 2, []), false)
    ensures Holds(PgStep(t, Make(size', [2])).0, Again(size, size'), Stored(data))
  {
  }

  lemma LengthenStep(t: Tables, size: u32, size': u32, data: Bytes)
    requires Holds(t, Again(size, size'), Stored(data))
    ensures PgStep(t, Commit(LENGTHEN)).1 == Committed(3)
    ensures Holds(PgStep(t, Commit(LENGTHEN)).0, Longer(size, size'), Stored(data))
  {
    CommitErrorNone(size', LENGTHEN);
    assert PutBlocks(Stored(data), LOST, []) == Stored(data);
    Survives(data, ToInt64(FAR_INDEX + 1));
  }

  lemma Next(pg: PgRun, e: Event) returns (longer: PgRun)
    requires PgHistory(pg) && !e.DeleteUnused?
    ensures PgHistory(longer) && longer.events == pg.events + [e]
    ensures var (t, reply) := PgStep(pg.tables[|pg.events|], e);
            longer.replies == pg.replies + [reply] && longer.tables == pg.tables + [t]
  {
    var (t, reply) := PgStep(pg.tables[|pg.events|], e);
    ExtendPg(pg, e, t, reply);
    longer := PgExtend(pg, e, t, reply);
  }

  lemma FilledRun(size: u32, data: Bytes) returns (pg: PgRun)
    requires ValidPageSize(size) && |data| == size
    ensures PgHistory(pg) && pg.events == [Make(size, [1]), Commit(Far(data))]
    ensures Holds(pg.tables[2], Filled(size), Stored(data))
  {
    StartShadows();
    MakeStep(size);
    pg := Next(PG_START, Make(size, [1]));
    FarStep(pg.tables[1], size, data);
    pg := Next(pg, Commit(Far(data)));
  }

  lemma DeletedRun(size: u32, data: Bytes) returns (pg: PgRun)
    requires ValidPageSize(size) && |data| == size
    ensures PgHistory(pg) && pg.events == [Make(size, [1]), Commit(Far(data)), DELETION]
    ensures pg.replies[2] == Deleted(2, true)
    ensures Holds(pg.tables[3], DeleteDatabase(Filled(size)), Stored(data))
  {
    pg := FilledRun(size, data);
    DeletionStep(pg.tables[2], size, data);
    pg := Next(pg, DELETION);
  }

  /** The database is written, deleted, and created again with pages of another size. */
  lemma RecreatedRun(size: u32, size': u32, data: Bytes) returns (pg: PgRun)
    requires ValidPageSize(size) && ValidPageSize(size') && |data| == size
    ensures PgHistory(pg) && pg.events == [Make(size, [1]), Commit(Far(data)), DELETION, Make(size', [2])]
    ensures pg.replies[2] == Deleted(2, true) && pg.replies[3] == Opened(Lease([2], 3), State(size', 0, 2, []), false)
    ensures Holds(pg.tables[4], Again(size, size'), Stored(data))
  {
    pg := DeletedRun(size, data);
    AgainStep(pg.tables[3], size, size', data);
    pg := Next(pg, Make(size', [2]));
  }

  /** And then made as long as it was, without writing a block. */
  lemma LengthenedRun(size: u32, size': u32, data: Bytes) returns (pg: PgRun)
    requires ValidPageSize(size) && ValidPageSize(size') && |data| == size
    ensures PgHistory(pg)
    ensures pg.events == [Make(size, [1]), Commit(Far(data)), DELETION, Make(size', [2]), Commit(LENGTHEN)]
    ensures pg.replies[2] == Deleted(2, true) && pg.replies[3] == Opened(Lease([2], 3), State(size', 0, 2, []), false)
    ensures pg.replies[4] == Committed(3) && Holds(pg.tables[5], Longer(size, size'), Stored(data))
  {
    pg := RecreatedRun(size, size', data);
    LengthenStep(pg.tables[4], size, size', data);
    pg := Next(pg, Commit(LENGTHEN));
  }

  lemma ReadsData(t: Tables, size: u32, data: Bytes)
    requires 0 < size <= PART && |data| == size && Holds(t, Longer(size, size), Stored(data))
    ensures PgStep(t, Memory.Fetch(LOST, 3, FAR_INDEX, 1)).1 == Pages([data])
  {
    var rows := FetchBlocks(t.blocks, LOST, MIN_INDEX, MIN_INDEX + 1);
    forall id ensures id in rows <==> id == PartID(LOST, MIN_INDEX, 0) { StoredIDs(data, id); }
    StoredIDs(data, PartID(LOST, MIN_INDEX, 0));
    assert Part(data, 0) == data;
    assert ReadBack(rows, LOST, MIN_INDEX, size) == data;
    var reply := PgFetch(t, LOST, 3, FAR_INDEX, 1);
    assert reply.Pages? && reply.blocks == [ReadBack(rows, LOST, MIN_INDEX, size)];
  }

  /** A fetch returns the data of the deleted database, although nothing was written to the new one. */
  lemma DeletedDataReturns(data: Bytes) returns (pg: PgRun)
    requires |data| == 512
    ensures PgHistory(pg) && |pg.events| == 6
    ensures pg.events[2..] == [DELETION, Make(512, [2]), Commit(LENGTHEN), Memory.Fetch(LOST, 3, FAR_INDEX, 1)]
    ensures pg.replies[2].Deleted? && pg.replies[3].Opened? && pg.replies[3].state.pageCount == 0
    ensures LENGTHEN.blocks == [] && pg.replies[5] == Pages([data])
  {
    pg := LengthenedRun(512, 512, data);
    ReadsData(pg.tables[5], 512, data);
    pg := Next(pg, Memory.Fetch(LOST, 3, FAR_INDEX, 1));
  }

  /** If the new database has smaller pages, a part starts beyond its block, and the copy fails. */
  lemma CopyFails(data: Bytes) returns (pg: PgRun)
    requires |data| == 2048
    ensures PgHistory(pg) && |pg.events| == 5 && pg.replies[2].Deleted? && pg.replies[3].Opened?
    ensures LOST in pg.tables[5].databases && pg.tables[5].databases[LOST].pageSize == 512
    ensures !CopiesFit(pg.tables[5], LOST, FAR_INDEX, 1)
  {
    pg := LengthenedRun(2048, 512, data);
    var id := PartID(LOST, MIN_INDEX, 1);
    StoredIDs(data, id);
    assert id in FetchBlocks(pg.tables[5].blocks, LOST, ToInt64(FAR_INDEX), ToInt64(FAR_INDEX + 1));
  }
}
