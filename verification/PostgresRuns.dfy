/** What every run of the PostgreSQL store keeps, as the refinement carries it over from the memory store. */
module PostgresRuns {
  import opened Basics
  import opened Store
  import opened Memory
  import opened Runs
  import opened Fencing
  import opened ChangeLog
  import opened LastWrite
  import opened BlockParts
  import opened Tables
  import opened Postgres
  import opened Relation
  import opened Simulation

  /** A run of the PostgreSQL store within what its columns can carry. */
  ghost predicate SmallHistory(pg: PgRun) { PgHistory(pg) && Small(pg) }

  /** The key's row exists from the tables `i` to the tables `j`. */
  ghost predicate PgKept(pg: PgRun, k: Key, i: nat, j: nat)
    requires i <= j < |pg.tables|
  {
    forall m :: i <= m <= j ==> k in pg.tables[m].databases
  }

  lemma KeptInBoth(run: Run, pg: PgRun, k: Key, i: nat, j: nat)
    requires Shadows(run, pg) && i <= j < |pg.tables|
    ensures PgKept(pg, k, i, j) <==> Kept(run, k, i, j)
  {
    forall m | i <= m <= j ensures k in pg.tables[m].databases <==> k in run.states[m].dbs {
      ShadowAt(run, pg, m);
    }
  }

  /** The row and the record of a key at the same point. */
  lemma RowAt(run: Run, pg: PgRun, k: Key, m: nat)
    requires Shadows(run, pg) && m < |pg.tables| && k in pg.tables[m].databases
    ensures k in run.states[m].dbs && RelKey(pg.tables[m], k, run.states[m].dbs[k]) && Good(run.states[m].dbs[k])
  {
    ShadowAt(run, pg, m);
    RelAt(pg.tables[m], run.states[m], k);
    RunGood(run, m);
  }

  // ---- fencing ----

  /** Call `i` grants or resumes a lease of `k` with epoch `e`, or deletes `k` and raises its epoch to `e`. */
  ghost predicate PgReaches(pg: PgRun, k: Key, i: nat, e: u64)
    requires PgHistory(pg) && i < |pg.events|
  {
    if OnDatabase(pg.events[i]) then
      KeyOf(pg.events[i]) == k &&
      match pg.replies[i]
      case Opened(lease, _, _) => lease.epoch == e
      case Deleted(epoch, _) => epoch == e && e > 0
      case _ => false
    else
      && pg.events[i].DeleteUnused? && k in pg.events[i].chosen
      && k in pg.tables[i + 1].databases && pg.tables[i + 1].databases[k].leaseEpoch == e
  }

  lemma FailedKeepsTables(t: Tables, e: Event)
    requires OnDatabase(e) && PgStep(t, e).1.Failed?
    ensures PgStep(t, e).0 == t
  {
  }

  lemma ReachesInBoth(run: Run, pg: PgRun, k: Key, i: nat, e: u64)
    requires PgHistory(pg) && Shadows(run, pg) && i < |pg.events| && PgReaches(pg, k, i, e)
    ensures Reaches(run, k, i, e)
  {
    if !OnDatabase(pg.events[i]) { RowAt(run, pg, k, i + 1); }
  }

  /** Once epoch `e` was reached, no commit, renew, release or resume with a lower epoch ever succeeds again. */
  lemma PgFencedForever(pg: PgRun, k: Key, i: nat, e: u64, j: nat)
    requires SmallHistory(pg) && i < j < |pg.events| && PgKept(pg, k, i + 1, j) && PgReaches(pg, k, i, e)
    requires OnDatabase(pg.events[j]) && KeyOf(pg.events[j]) == k
    requires Presented(pg.events[j]).Some? && Presented(pg.events[j]).value < e
    ensures pg.replies[j].Failed? && pg.tables[j + 1] == pg.tables[j]
    ensures !pg.events[j].Open? ==> pg.replies[j] == Failed(Fenced)
  {
    var run := PostgresRefinesMemory(pg);
    KeptInBoth(run, pg, k, i + 1, j);
    ReachesInBoth(run, pg, k, i, e);
    FencedForever(run, k, i, e, j);
    PgStepAt(pg, j);
    FailedKeepsTables(pg.tables[j], pg.events[j]);
  }

  // ---- exactly-once commits ----

  /** Call `i` is a commit on `k` that was acknowledged on top of its base version, so applied now. */
  ghost predicate PgAppliesAt(pg: PgRun, k: Key, i: nat)
    requires PgHistory(pg) && i < |pg.events|
  {
    && pg.events[i].Commit? && pg.events[i].commit.key == k && pg.replies[i].Committed?
    && k in pg.tables[i].databases && pg.tables[i].databases[k].version == pg.events[i].commit.baseVersion
  }

  lemma AppliedStep(s: StoreState, q: CommitRequest, s': StoreState, reply: Reply)
    requires Step(s, Commit(q)) == (s', reply) && Applies(s, Commit(q), q.key)
    ensures reply == Committed(Inc(s.dbs[q.key].state.version)) && q.key in s'.dbs
    ensures s'.dbs[q.key].state.version == Inc(s.dbs[q.key].state.version)
  {
    CommitErrorNone(s.dbs[q.key].state.pageSize, q);
  }

  lemma AppliesInBoth(run: Run, pg: PgRun, k: Key, i: nat)
    requires PgHistory(pg) && Shadows(run, pg) && i < |pg.events|
    ensures PgAppliesAt(pg, k, i) <==> Applies(run.states[i], run.events[i], k)
  {
    ShadowAt(run, pg, i);
    if k in pg.tables[i].databases && pg.events[i].Commit? && pg.events[i].commit.key == k {
      RowAt(run, pg, k, i);
      StepAt(run, i);
      CommitApplies(run.states[i], run.events[i].commit, run.states[i + 1], run.replies[i]);
    }
  }

  lemma CommitApplies(s: StoreState, q: CommitRequest, s': StoreState, reply: Reply)
    requires Step(s, Commit(q)) == (s', reply) && q.key in s.dbs
    ensures Applies(s, Commit(q), q.key) <==> reply.Committed? && s.dbs[q.key].state.version == q.baseVersion
  {
    if Applies(s, Commit(q), q.key) { AppliedStep(s, q, s', reply); }
    if reply.Committed? { AcknowledgedStep(s, q); }
  }

  /** Of two commits applied to a key, the later one has a higher base version and no lower lease epoch. */
  lemma PgAppliedOnce(pg: PgRun, k: Key, i: nat, j: nat)
    requires SmallHistory(pg) && i < j < |pg.events| && PgKept(pg, k, i, j)
    requires PgAppliesAt(pg, k, i) && PgAppliesAt(pg, k, j)
    ensures pg.events[i].commit.baseVersion < pg.events[j].commit.baseVersion
    ensures pg.events[i].commit.leaseEpoch <= pg.events[j].commit.leaseEpoch
  {
    var run := PostgresRefinesMemory(pg);
    KeptInBoth(run, pg, k, i, j);
    AppliesInBoth(run, pg, k, i);
    AppliesInBoth(run, pg, k, j);
    AppliedOnce(run, k, i, j);
  }

  /** Every acknowledged version is the base version plus one, and a commit with that ID was applied and produced it. */
  lemma PgAcknowledgedWasApplied(pg: PgRun, j: nat) returns (i: nat)
    requires SmallHistory(pg) && j < |pg.events| && pg.events[j].Commit? && pg.replies[j].Committed?
    ensures pg.replies[j].version == pg.events[j].commit.baseVersion + 1
    ensures i <= j && PgKept(pg, pg.events[j].commit.key, i, j) && PgAppliesAt(pg, pg.events[j].commit.key, i)
    ensures pg.events[i].commit.commitID == pg.events[j].commit.commitID
    ensures pg.events[i].commit.baseVersion == pg.events[j].commit.baseVersion
  {
    var run := PostgresRefinesMemory(pg);
    var k := pg.events[j].commit.key;
    i := AcknowledgedWasApplied(run, j);
    KeptInBoth(run, pg, k, i, j);
    AppliesInBoth(run, pg, k, i);
  }

  // ---- one snapshot ----

  /** Successful fetches of one version of `k`, in order, with any other calls in between. */
  ghost predicate PgFetchesOne(pg: PgRun, k: Key, version: u64, at: seq<nat>)
    requires PgHistory(pg)
  {
    && (forall n :: 0 <= n < |at| ==> at[n] < |pg.events|)
    && (forall m, n :: 0 <= m < n < |at| ==> at[m] < at[n])
    && (forall n :: 0 <= n < |at| ==> pg.events[at[n]].Fetch? && pg.events[at[n]].fetchKey == k &&
                                      pg.events[at[n]].version == version && pg.replies[at[n]].Pages?)
  }

  lemma FetchInRange(db: Record, version: u64, first: u64, count: u64)
    requires !db.deleted && db.state.version == version && first + count <= db.state.pageCount
    ensures FetchRecord(Some(db), version, first, count) == Pages(ReadRange(db, first, count))
  {
  }

  /** Every fetch is answered as the tables at the first one would have answered it. */
  lemma PgFetchesReadOneSnapshot(pg: PgRun, k: Key, version: u64, at: seq<nat>, n: nat)
    requires SmallHistory(pg) && PgFetchesOne(pg, k, version, at) && n < |at|
    requires PgKept(pg, k, at[0], at[|at| - 1])
    ensures var e := pg.events[at[n]];
            pg.replies[at[n]] == PgFetch(pg.tables[at[0]], k, version, e.first, e.count)
  {
    var run := PostgresRefinesMemory(pg);
    assert at[0] <= at[n] <= at[|at| - 1];
    KeptInBoth(run, pg, k, at[0], at[|at| - 1]);
    assert FetchesOne(run, k, version, at);
    FetchesReadOneSnapshot(run, k, version, at, n);
    RowAt(run, pg, k, at[0]);
    FirstIsLive(run, k, version, at);
    var e, db := pg.events[at[n]], run.states[at[0]].dbs[k];
    FetchInRange(db, version, e.first, e.count);
    FetchKeyRel(pg.tables[at[0]], k, db, version, e.first, e.count);
  }

  lemma FirstIsLive(run: Run, k: Key, version: u64, at: seq<nat>)
    requires IsRun(run) && at != [] && FetchesOne(run, k, version, at)
    ensures k in run.states[at[0]].dbs
    ensures !run.states[at[0]].dbs[k].deleted && run.states[at[0]].dbs[k].state.version == version
  {
    StepAt(run, at[0]);
    FetchAnswer(run.states[at[0]], run.events[at[0]]);
  }

  // ---- complete change sets ----

  /** Call `j` asks for the changes of `k` since the version of the tables `i`. */
  ghost predicate PgAsksSince(pg: PgRun, k: Key, i: nat, j: nat)
    requires PgHistory(pg)
  {
    && i <= j < |pg.events| && PgKept(pg, k, i, j) && !pg.tables[i].databases[k].deleted
    && pg.tables[i].databases[k].version >= 0
    && pg.events[j] == Changes(k, pg.tables[i].databases[k].version)
  }

  lemma AsksInBoth(run: Run, pg: PgRun, k: Key, i: nat, j: nat)
    requires PgHistory(pg) && Shadows(run, pg) && PgAsksSince(pg, k, i, j)
    ensures AsksSince(run, k, i, j)
  {
    KeptInBoth(run, pg, k, i, j);
    RowAt(run, pg, k, i);
  }

  lemma LiveInBoth(run: Run, pg: PgRun, k: Key, m: nat)
    requires Shadows(run, pg) && m < |pg.tables| && k in pg.tables[m].databases
    ensures k in run.states[m].dbs
    ensures var row, db := pg.tables[m].databases[k], run.states[m].dbs[k];
            row.deleted == db.deleted && row.version == db.state.version && row.pageCount == db.state.pageCount
            && row.pageSize == db.state.pageSize
  {
    RowAt(run, pg, k, m);
  }

  ghost predicate PgLive(pg: PgRun, k: Key, i: nat, j: nat)
    requires i <= j < |pg.tables| && PgKept(pg, k, i, j)
  {
    forall m :: i <= m <= j ==> !pg.tables[m].databases[k].deleted
  }

  lemma NeverDeletedInBoth(run: Run, pg: PgRun, k: Key, i: nat, j: nat)
    requires Shadows(run, pg) && i <= j < |pg.tables| && PgKept(pg, k, i, j) && Kept(run, k, i, j)
    ensures PgLive(pg, k, i, j) <==> forall m :: 0 <= m <= j - i ==> !Records(run, k, i, j)[m].deleted
  {
    var recs := Records(run, k, i, j);
    forall m | i <= m <= j ensures pg.tables[m].databases[k].deleted == recs[m - i].deleted {
      LiveInBoth(run, pg, k, m);
    }
    if PgLive(pg, k, i, j) {
      forall m | 0 <= m <= j - i ensures !recs[m].deleted {
        assert !pg.tables[i + m].databases[k].deleted;
      }
    }
  }

  /** The answer is complete exactly if the database was not deleted since, and at most 1024 commits were applied. */
  lemma PgCompleteExactlyInWindow(pg: PgRun, k: Key, i: nat, j: nat)
    requires SmallHistory(pg) && PgAsksSince(pg, k, i, j) && !pg.tables[j].databases[k].deleted
    ensures pg.replies[j].Changed?
    ensures pg.replies[j].changes.complete
            <==> PgLive(pg, k, i, j) &&
                 pg.tables[j].databases[k].version - pg.tables[i].databases[k].version <= 1024
  {
    var run := PostgresRefinesMemory(pg);
    AsksInBoth(run, pg, k, i, j);
    NeverDeletedInBoth(run, pg, k, i, j);
    LiveInBoth(run, pg, k, i);
    LiveInBoth(run, pg, k, j);
    CompleteExactlyInWindow(run, k, i, j);
  }

  /** A commit between the tables `i` and the tables `j` wrote the block. */
  ghost predicate PgWritten(pg: PgRun, k: Key, i: nat, j: nat, index: u64)
    requires PgHistory(pg) && i <= j <= |pg.events|
  {
    exists m :: i <= m < j && PgAppliesAt(pg, k, m) && index in Indexes(pg.events[m].commit.blocks)
  }

  /** The file reached beyond the block all the time. */
  ghost predicate PgStayed(pg: PgRun, k: Key, i: nat, j: nat, index: u64)
    requires i <= j < |pg.tables| && PgKept(pg, k, i, j)
  {
    forall m :: i <= m <= j ==> index < pg.tables[m].databases[k].pageCount
  }

  /** The block as a fetch would copy it together. */
  function PgRead(t: Tables, k: Key, index: u64): Bytes
    requires k in t.databases && index < MAX63
  {
    ReadBack(FetchBlocks(t.blocks, k, 0, MAX63), k, index, t.databases[k].pageSize)
  }

  lemma ReadInBoth(run: Run, pg: PgRun, k: Key, m: nat, index: u64)
    requires Shadows(run, pg) && m < |pg.tables| && k in pg.tables[m].databases && index < MAX63
    ensures k in run.states[m].dbs && PgRead(pg.tables[m], k, index) == Read(run.states[m].dbs[k], index)
  {
    RowAt(run, pg, k, m);
    ReadBackRel(pg.tables[m].blocks, k, run.states[m].dbs[k], index, 0, MAX63);
  }

  lemma StayedInBoth(run: Run, pg: PgRun, k: Key, i: nat, j: nat, index: u64)
    requires Shadows(run, pg) && i <= j < |pg.tables| && PgKept(pg, k, i, j) && Kept(run, k, i, j)
    ensures PgStayed(pg, k, i, j, index) <==> Stayed(Records(run, k, i, j), index, j - i)
  {
    var recs := Records(run, k, i, j);
    forall m | i <= m <= j ensures pg.tables[m].databases[k].pageCount == recs[m - i].state.pageCount {
      LiveInBoth(run, pg, k, m);
    }
    if PgStayed(pg, k, i, j, index) {
      forall m | 0 <= m <= j - i ensures index < recs[m].state.pageCount {
        assert index < pg.tables[i + m].databases[k].pageCount;
      }
    }
  }

  lemma {:induction false} WrittenInBoth(run: Run, pg: PgRun, k: Key, i: nat, j: nat, n: nat, index: u64)
    requires PgHistory(pg) && Shadows(run, pg) && i <= j <= |pg.events| && n <= j - i
    ensures PgWritten(pg, k, i, i + n, index) <==> index in Written(Commits(run, k, i, j), n)
  {
    if n > 0 {
      var m := i + n - 1;
      WrittenInBoth(run, pg, k, i, j, n - 1, index);
      AppliesInBoth(run, pg, k, m);
      assert PgWritten(pg, k, i, i + n, index) <==>
             PgWritten(pg, k, i, m, index) || (PgAppliesAt(pg, k, m) && index in Indexes(pg.events[m].commit.blocks));
      assert Commits(run, k, i, j)[n - 1] == AppliedBy(run.states[m], run.events[m], k);
    }
  }

  /** The answer lists, ascending and once each, exactly the blocks the commits wrote. Any other block reads at the end
      as it did at the start if the file reached beyond it all the time, and as zeros if not. */
  ghost predicate PgCatchesUp(pg: PgRun, k: Key, i: nat, j: nat, answer: ChangeSet, index: u64)
    requires PgHistory(pg) && i <= j <= |pg.events| && PgKept(pg, k, i, j) && index < MAX63
  {
    && answer.from == pg.tables[i].databases[k].version && answer.to == pg.tables[j].databases[k].version
    && Ascending(answer.blocks, Below) && (index in answer.blocks <==> PgWritten(pg, k, i, j, index))
    && (index !in answer.blocks ==>
          PgRead(pg.tables[j], k, index)
          == if PgStayed(pg, k, i, j, index) then PgRead(pg.tables[i], k, index)
             else Zeros(pg.tables[i].databases[k].pageSize))
  }

  lemma PgCompleteListsEveryWrite(pg: PgRun, k: Key, i: nat, j: nat, index: u64)
    requires SmallHistory(pg) && PgAsksSince(pg, k, i, j) && index < MAX63
    requires pg.replies[j].Changed? && pg.replies[j].changes.complete
    ensures PgCatchesUp(pg, k, i, j, pg.replies[j].changes, index)
  {
    var run := PostgresRefinesMemory(pg);
    AsksInBoth(run, pg, k, i, j);
    CompleteListsEveryWrite(run, k, i, j, index);
    CatchesUpInBoth(run, pg, k, i, j, pg.replies[j].changes, index);
  }

  lemma CatchesUpInBoth(run: Run, pg: PgRun, k: Key, i: nat, j: nat, answer: ChangeSet, index: u64)
    requires PgHistory(pg) && Shadows(run, pg) && i <= j <= |pg.events| && index < MAX63
    requires PgKept(pg, k, i, j) && Kept(run, k, i, j)
    requires CatchesUp(answer, Records(run, k, i, j), Commits(run, k, i, j), index)
    ensures PgCatchesUp(pg, k, i, j, answer, index)
  {
    var recs := Records(run, k, i, j);
    assert recs[0] == run.states[i].dbs[k] && recs[j - i] == run.states[j].dbs[k];
    SidesInBoth(run, pg, k, i, j, index);
    WrittenInBoth(run, pg, k, i, j, j - i, index);
    SameAnswer(pg, k, i, j, answer, index, recs, Commits(run, k, i, j));
  }

  lemma SameAnswer(pg: PgRun, k: Key, i: nat, j: nat, answer: ChangeSet, index: u64,
                   recs: seq<Record>, commits: seq<Option<CommitRequest>>)
    requires PgHistory(pg) && i <= j <= |pg.events| && index < MAX63 && PgKept(pg, k, i, j)
    requires |commits| == j - i && |recs| == j - i + 1 && CatchesUp(answer, recs, commits, index)
    requires pg.tables[i].databases[k].version == recs[0].state.version
    requires pg.tables[j].databases[k].version == recs[j - i].state.version
    requires pg.tables[i].databases[k].pageSize == recs[0].state.pageSize
    requires PgRead(pg.tables[i], k, index) == Read(recs[0], index)
    requires PgRead(pg.tables[j], k, index) == Read(recs[j - i], index)
    requires PgStayed(pg, k, i, j, index) <==> Stayed(recs, index, j - i)
    requires PgWritten(pg, k, i, j, index) <==> index in Written(commits, j - i)
    ensures PgCatchesUp(pg, k, i, j, answer, index)
  {
  }

  /** The rows and the block at both ends, and the file in between. */
  lemma SidesInBoth(run: Run, pg: PgRun, k: Key, i: nat, j: nat, index: u64)
    requires Shadows(run, pg) && i <= j < |pg.tables| && PgKept(pg, k, i, j) && Kept(run, k, i, j) && index < MAX63
    ensures pg.tables[i].databases[k].version == run.states[i].dbs[k].state.version
    ensures pg.tables[j].databases[k].version == run.states[j].dbs[k].state.version
    ensures pg.tables[i].databases[k].pageSize == run.states[i].dbs[k].state.pageSize
    ensures PgRead(pg.tables[i], k, index) == Read(run.states[i].dbs[k], index)
    ensures PgRead(pg.tables[j], k, index) == Read(run.states[j].dbs[k], index)
    ensures PgStayed(pg, k, i, j, index) <==> Stayed(Records(run, k, i, j), index, j - i)
  {
    LiveInBoth(run, pg, k, i);
    LiveInBoth(run, pg, k, j);
    StayedInBoth(run, pg, k, i, j, index);
    ReadInBoth(run, pg, k, i, index);
    ReadInBoth(run, pg, k, j, index);
  }

  // ---- reading what was written ----

  lemma UnwrittenInBoth(run: Run, pg: PgRun, k: Key, i: nat, j: nat, index: u64)
    requires PgHistory(pg) && Shadows(run, pg) && i <= j <= |pg.events| && !PgWritten(pg, k, i, j, index)
    ensures Unwritten(run, k, i, j, index)
  {
    forall m | i <= m < j && Applies(run.states[m], run.events[m], k)
      ensures index !in Indexes(run.events[m].commit.blocks)
    {
      AppliesInBoth(run, pg, k, m);
    }
  }

  lemma LastsInBoth(run: Run, pg: PgRun, k: Key, i: nat, j: nat, index: u64)
    requires Shadows(run, pg) && i < j < |pg.tables| && PgKept(pg, k, i, j) && PgLive(pg, k, i, j)
    requires PgStayed(pg, k, i + 1, j, index)
    ensures Lasts(run, k, i, j) && LongEnough(run, k, i + 1, j, index)
  {
    forall m | i <= m <= j ensures k in run.states[m].dbs && !run.states[m].dbs[k].deleted { LiveInBoth(run, pg, k, m); }
    forall m | i < m <= j ensures index < run.states[m].dbs[k].state.pageCount { LiveInBoth(run, pg, k, m); }
  }

  /** A fetch returns for a block exactly the data of the last commit that wrote it. */
  lemma PgFetchReadsLastWrite(pg: PgRun, k: Key, i: nat, j: nat, b: Block)
    requires SmallHistory(pg) && i < j < |pg.events| && PgKept(pg, k, i, j) && PgLive(pg, k, i, j)
    requires PgAppliesAt(pg, k, i) && b in pg.events[i].commit.blocks
    requires !PgWritten(pg, k, i + 1, j, b.index) && PgStayed(pg, k, i + 1, j, b.index)
    requires pg.events[j].Fetch? && pg.events[j].fetchKey == k && pg.replies[j].Pages?
    requires pg.events[j].first <= b.index < pg.events[j].first + pg.events[j].count
    ensures |pg.replies[j].blocks| == pg.events[j].count
    ensures pg.replies[j].blocks[b.index - pg.events[j].first] == b.data
  {
    var run := PostgresRefinesMemory(pg);
    AppliesInBoth(run, pg, k, i);
    UnwrittenInBoth(run, pg, k, i + 1, j, b.index);
    LastsInBoth(run, pg, k, i, j, b.index);
    FetchReadsLastWrite(run, k, i, j, b);
  }

  // ---- a page count of 2^63 ----

  const HUGE := CommitRequest(LOST, CommitID(1), 1, 0, 0x8000_0000_0000_0000, [Block(0, Ones())], 0, 10)
  const READ_FIRST := Memory.Fetch(LOST, 1, 0, 1)
  const LOST_ROW := Row(512, 0, 0, [], 1, [1], Some([1]), Some(0), Some(10), false)
  const LOST_TABLES := Tables(map[LOST := LOST_ROW], map[], map[], map[])
  const LOST_OPENED := Opened(Lease([1], 1), State(512, 0, 0, []), false)

  lemma HugeInMemory() returns (run: Run)
    ensures History(run) && run.events == [Create([1]), Commit(HUGE), READ_FIRST]
    ensures run.replies == [LOST_OPENED, Committed(1), Pages([Ones()])]
  {
    CreateStep([1]);
    run := Extended(START, Create([1]), Created([1]), LOST_OPENED);
    CommitStep(Created([1]).dbs[LOST], HUGE);
    var db := Apply(Created([1]).dbs[LOST], HUGE);
    run := Extended(run, Commit(HUGE), With(db), Committed(1));
    HugeReads(db);
    run := Extended(run, READ_FIRST, With(db), Pages([Ones()]));
  }

  lemma HugeReads(db: Record)
    requires db == Apply(Created([1]).dbs[LOST], HUGE)
    ensures Step(With(db), READ_FIRST) == (With(db), Pages([Ones()]))
  {
    HugeBlock(db);
    FirstBlockStep(db);
  }

  lemma HugeBlock(db: Record)
    requires db == Apply(Created([1]).dbs[LOST], HUGE)
    ensures Memory.Read(db, 0) == Ones()
  {
    WriteBlocksDomain(Created([1]).dbs[LOST].blocks, HUGE.blocks);
    assert Indexes(HUGE.blocks) == {0};
    assert Block(0, WriteBlocks(Created([1]).dbs[LOST].blocks, HUGE.blocks)[0]) in HUGE.blocks;
  }

  lemma FirstBlockStep(db: Record)
    requires !db.deleted && db.state.version == 1 && db.state.pageCount >= 1
    ensures Step(With(db), READ_FIRST) == (With(db), Pages([Memory.Read(db, 0)]))
  {
    assert ReadRange(db, 0, 1) == [Memory.Read(db, 0)];
    assert With(db).dbs[LOST := db] == With(db).dbs;
  }

  lemma PgCreateStep()
    ensures PgStep(EMPTY_TABLES, Create([1])) == (LOST_TABLES, LOST_OPENED)
  {
  }

  /** The negative page count makes the DELETE take every part. */
  lemma PgHugeStep()
    ensures PgStep(LOST_TABLES, Commit(HUGE)).1 == Committed(1)
    ensures var t := PgStep(LOST_TABLES, Commit(HUGE)).0;
            && t.blocks == map[] && LOST in t.databases && !t.databases[LOST].deleted
            && t.databases[LOST].version == 1 && t.databases[LOST].pageSize == 512
            && t.databases[LOST].pageCount == ToInt64(0x8000_0000_0000_0000)
  {
    HugeApplied(LOST_TABLES);
    HugeDeletesAll();
  }

  lemma HugeApplied(t: Tables)
    requires LOST in t.databases && HoldsRow(t.databases[LOST], 1)
    requires t.databases[LOST].version == 0 && t.databases[LOST].pageSize == 512
    ensures PgStep(t, Commit(HUGE)) == (PgApply(t, HUGE), Committed(1))
  {
    CommitErrorNone(512, HUGE);
  }

  lemma HugeDeletesAll()
    ensures DeleteBlocksFrom(PutBlocks(map[], LOST, HUGE.blocks), LOST, ToInt64(0x8000_0000_0000_0000)) == map[]
  {
    var parts := PutBlocks(map[], LOST, HUGE.blocks);
    assert HUGE.blocks[..0] == [];
    assert PutBlocks(map[], LOST, HUGE.blocks) == PutBlock(map[], LOST, 0, Ones());
    forall id ensures id in parts ==> id.key == LOST {
      PutPartsAt(map[], LOST, 0, Ones(), PartCount(Ones()), id);
    }
  }

  lemma PgHugeRead(t: Tables)
    requires t.blocks == map[] && LOST in t.databases && !t.databases[LOST].deleted
    requires t.databases[LOST].version == 1 && t.databases[LOST].pageSize == 512
    requires t.databases[LOST].pageCount == ToInt64(0x8000_0000_0000_0000)
    ensures PgStep(t, READ_FIRST) == (t, Pages([Zeros(512)]))
  {
    var rows := FetchBlocks(t.blocks, LOST, 0, 1);
    assert rows == map[];
    assert ReadBack(rows, LOST, 0, 512) == Zeros(512);
    var reply := PgFetch(t, LOST, 1, 0, 1);
    assert reply.Pages? && reply.blocks == [ReadBack(rows, LOST, 0, 512)];
  }

  lemma HugeCommitted() returns (pg: PgRun, t: Tables)
    ensures PgHistory(pg) && pg.events == [Create([1]), Commit(HUGE)] && pg.replies == [LOST_OPENED, Committed(1)]
    ensures pg.tables[2] == t == PgStep(LOST_TABLES, Commit(HUGE)).0
  {
    StartShadows();
    PgCreateStep();
    ExtendPg(PG_START, Create([1]), LOST_TABLES, LOST_OPENED);
    pg := PgExtend(PG_START, Create([1]), LOST_TABLES, LOST_OPENED);
    PgHugeStep();
    t := PgStep(LOST_TABLES, Commit(HUGE)).0;
    ExtendPg(pg, Commit(HUGE), t, Committed(1));
    pg := PgExtend(pg, Commit(HUGE), t, Committed(1));
  }

  lemma HugeInPostgres() returns (pg: PgRun)
    ensures PgHistory(pg) && pg.events == [Create([1]), Commit(HUGE), READ_FIRST]
    ensures pg.replies == [LOST_OPENED, Committed(1), Pages([Zeros(512)])]
  {
    var t;
    pg, t := HugeCommitted();
    PgHugeStep();
    PgHugeRead(t);
    ExtendPg(pg, READ_FIRST, t, Pages([Zeros(512)]));
    pg := PgExtend(pg, READ_FIRST, t, Pages([Zeros(512)]));
  }

  /** Page counts must be below 2^63: after a commit with 2^63 pages, the first of them ones, the memory store reads ones
      and the PostgreSQL store zeros. */
  lemma HugePageCountDiffers() returns (run: Run, pg: PgRun)
    ensures History(run) && PgHistory(pg) && run.events == pg.events == [Create([1]), Commit(HUGE), READ_FIRST]
    ensures run.replies[2] == Pages([Ones()]) && pg.replies[2] == Pages([Zeros(512)]) && Ones() != Zeros(512)
  {
    run := HugeInMemory();
    pg := HugeInPostgres();
    assert Ones()[0] != Zeros(512)[0];
  }
}
