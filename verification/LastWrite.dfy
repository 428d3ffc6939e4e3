/** What a client reads is what was last written: commits and fetches of whole runs against each other. */
module LastWrite {
  import opened Basics
  import opened Store
  import opened Memory
  import opened Runs
  import opened Fencing
  import opened ChangeLog

  lemma OneBlock(pageSize: u32, q: CommitRequest, a: Block, b: Block)
    requires ValidCommit(pageSize, q) && a in q.blocks && b in q.blocks && a.index == b.index
    ensures a == b && a.index < q.pageCount
  {
    var m :| 0 <= m < |q.blocks| && q.blocks[m] == a;
    var n :| 0 <= n < |q.blocks| && q.blocks[n] == b;
  }

  lemma Overwrites(m: map<u64, Bytes>, pageSize: u32, q: CommitRequest, b: Block)
    requires ValidCommit(pageSize, q) && b in q.blocks
    ensures b.index < q.pageCount && b.index in WriteBlocks(m, q.blocks) && WriteBlocks(m, q.blocks)[b.index] == b.data
  {
    WriteBlocksDomain(m, q.blocks);
    assert b.index in Indexes(q.blocks);
    OneBlock(pageSize, q, b, Block(b.index, WriteBlocks(m, q.blocks)[b.index]));
  }

  /** An applied commit writes every one of its blocks. */
  lemma AppliedReads(db: Record, q: CommitRequest, b: Block)
    requires ValidCommit(db.state.pageSize, q) && b in q.blocks
    ensures Read(Apply(db, q), b.index) == b.data
  {
    Overwrites(db.blocks, db.state.pageSize, q, b);
  }

  /** What an applied commit makes of the record. */
  lemma AppliedState(s: StoreState, q: CommitRequest, s': StoreState, reply: Reply)
    requires Step(s, Commit(q)) == (s', reply) && reply.Committed?
    requires q.key in s.dbs && s.dbs[q.key].state.version == q.baseVersion
    ensures Applies(s, Commit(q), q.key) && s' == s.(dbs := s.dbs[q.key := Apply(s.dbs[q.key], q)])
    ensures s'.dbs[q.key].state == State(s.dbs[q.key].state.pageSize, q.pageCount, Inc(q.baseVersion), q.commitID)
    ensures reply == Committed(Inc(q.baseVersion))
    ensures forall b :: b in q.blocks ==> Read(s'.dbs[q.key], b.index) == b.data
  {
    CommitErrorNone(s.dbs[q.key].state.pageSize, q);
    forall b | b in q.blocks ensures Read(s'.dbs[q.key], b.index) == b.data {
      AppliedReads(s.dbs[q.key], q, b);
    }
  }

  lemma LiveMove(db: Record, db': Record, applied: Option<CommitRequest>, index: u64)
    requires Good(db) && Moves(db, db', applied) && !db.deleted && !db'.deleted
    requires applied.Some? ==> index !in Indexes(applied.value.blocks)
    ensures db'.state.pageSize == db.state.pageSize
    ensures Read(db', index) == if index < db'.state.pageCount then Read(db, index) else Zeros(db.state.pageSize)
  {
    if applied.Some? { ApplyRead(db, applied.value, index); }
  }

  /** No commit from call `i` up to call `j` writes the block. */
  ghost predicate Unwritten(run: Run, k: Key, i: nat, j: nat, index: u64)
    requires IsRun(run) && i <= j <= |run.events|
  {
    forall m :: i <= m < j && Applies(run.states[m], run.events[m], k) ==> index !in Indexes(run.events[m].commit.blocks)
  }

  /** The database is not deleted in the states `i` to `j`. */
  ghost predicate Lasts(run: Run, k: Key, i: nat, j: nat)
    requires i <= j < |run.states|
  {
    forall m :: i <= m <= j ==> k in run.states[m].dbs && !run.states[m].dbs[k].deleted
  }

  ghost predicate LongEnough(run: Run, k: Key, i: nat, j: nat, index: u64)
    requires i <= j < |run.states| && Lasts(run, k, i, j)
  {
    forall m :: i <= m <= j ==> index < run.states[m].dbs[k].state.pageCount
  }

  lemma NextRead(run: Run, k: Key, j: nat, index: u64)
    requires History(run) && j < |run.events| && Lasts(run, k, j, j + 1) && Unwritten(run, k, j, j + 1, index)
    ensures var db, db' := run.states[j].dbs[k], run.states[j + 1].dbs[k];
            && db'.state.pageSize == db.state.pageSize
            && Read(db', index) == if index < db'.state.pageCount then Read(db, index) else Zeros(db.state.pageSize)
  {
    RecordGood(run, k, j);
    RecordMoves(run, k, j);
    LiveMove(run.states[j].dbs[k], run.states[j + 1].dbs[k], AppliedBy(run.states[j], run.events[j], k), index);
  }

  /** From the state after a commit on, its block reads as written until another commit writes it, and as zeros once the
      file was cut off below it. */
  lemma {:induction false} WrittenStays(run: Run, k: Key, i: nat, j: nat, b: Block)
    requires History(run) && i < j <= |run.events| && Lasts(run, k, i, j)
    requires Applies(run.states[i], run.events[i], k) && b in run.events[i].commit.blocks
    requires Unwritten(run, k, i + 1, j, b.index)
    ensures run.states[j].dbs[k].state.pageSize == run.states[i].dbs[k].state.pageSize
    ensures Read(run.states[j].dbs[k], b.index)
            == if LongEnough(run, k, i + 1, j, b.index) then b.data else Zeros(run.states[i].dbs[k].state.pageSize)
    decreases j
  {
    if j == i + 1 {
      FirstRead(run, k, i, b);
    } else {
      WrittenStays(run, k, i, j - 1, b);
      NextRead(run, k, j - 1, b.index);
      assert LongEnough(run, k, i + 1, j, b.index)
        <==> LongEnough(run, k, i + 1, j - 1, b.index) && b.index < run.states[j].dbs[k].state.pageCount;
    }
  }

  lemma FirstRead(run: Run, k: Key, i: nat, b: Block)
    requires History(run) && i < |run.events| && Lasts(run, k, i, i + 1)
    requires Applies(run.states[i], run.events[i], k) && b in run.events[i].commit.blocks
    ensures var db := run.states[i + 1].dbs[k];
            && db.state.pageSize == run.states[i].dbs[k].state.pageSize
            && b.index < db.state.pageCount && Read(db, b.index) == b.data
  {
    StepAt(run, i);
    var q := run.events[i].commit;
    CommitErrorNone(run.states[i].dbs[k].state.pageSize, q);
    AppliedReads(run.states[i].dbs[k], q, b);
    var n :| 0 <= n < |q.blocks| && q.blocks[n] == b;
  }

  /** Whatever clients did in between, a fetch returns for a block exactly the data of the last commit that wrote it. */
  lemma FetchReadsLastWrite(run: Run, k: Key, i: nat, j: nat, b: Block)
    requires History(run) && i < j < |run.events| && Lasts(run, k, i, j)
    requires Applies(run.states[i], run.events[i], k) && b in run.events[i].commit.blocks
    requires Unwritten(run, k, i + 1, j, b.index) && LongEnough(run, k, i + 1, j, b.index)
    requires run.events[j].Fetch? && run.events[j].fetchKey == k && run.replies[j].Pages?
    requires run.events[j].first <= b.index < run.events[j].first + run.events[j].count
    ensures |run.replies[j].blocks| == run.events[j].count
    ensures run.replies[j].blocks[b.index - run.events[j].first] == b.data
  {
    WrittenStays(run, k, i, j, b);
    StepAt(run, j);
    FetchAnswer(run.states[j], run.events[j]);
  }
}
