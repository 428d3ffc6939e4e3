/** internal/store/store.go: keys, requests, results, errors, and the checks both stores share. */
module Store {
  import opened Basics

  /** The length of the commit IDs that clients send. */
  const COMMIT_ID_BYTES: nat := 16

  /** An ID of that length, for examples. */
  function CommitID(n: byte): (id: Bytes)
    ensures |id| == COMMIT_ID_BYTES && id != []
  {
    seq(COMMIT_ID_BYTES, i => n)
  }
  const CHANGE_WINDOW: int := 1024

  datatype Key = Key(subject: string, dbid: string)
  datatype Lease = Lease(id: Bytes, epoch: u64)
  datatype State = State(pageSize: u32, pageCount: u64, version: u64, lastCommitID: Bytes)
  datatype Resume = Resume(leaseID: Bytes, leaseEpoch: u64)
  datatype Block = Block(index: u64, data: Bytes)
  datatype Slot = Slot(subject: string, labelText: string, claimedAt: int)
  datatype ChangeSet = ChangeSet(from: u64, to: u64, blocks: seq<u64>, complete: bool)

  /** `instance` is a Go slice and may be nil, here None. Times and durations are integers of one unit. */
  datatype OpenRequest = OpenRequest(
    key: Key, owner: string, instance: Option<Bytes>, pageSize: u32, create: bool, takeover: bool,
    resume: Option<Resume>, now: int, ttl: int)
  datatype CommitRequest = CommitRequest(
    key: Key, commitID: Bytes, leaseEpoch: u64, baseVersion: u64, pageCount: u64, blocks: seq<Block>,
    now: int, ttl: int)
  datatype DeleteRequest = DeleteRequest(key: Key, takeover: bool, now: int)
  datatype ClaimRequest = ClaimRequest(owner: string, subject: string, now: int)

  datatype Error =
    | NotFound | Fenced | SlotTaken
    | LeaseHeld(since: int)
    | VersionConflict(current: u64)
    | PageSizeInvalid(size: u32)
    | PageSizeDiffers(size: u32, have: u32)
    | CommitIDEmpty
    | BlockLength(index: u64, length: nat, pageSize: u32)
    | BlockBeyond(index: u64, pageCount: u64)
    | BlockTwice(index: u64)
    | RangeBeyond(first: u64, beyond: u64, pageCount: u64)
    | VersionAhead(from: u64, current: u64)
    | Internal // an error of PostgreSQL itself; the memory store never returns it

  /** What a store call answers. */
  datatype Reply =
    | Opened(lease: Lease, state: State, revoked: bool)
    | Pages(blocks: seq<Bytes>)
    | Committed(version: u64)
    | Changed(changes: ChangeSet)
    | Done
    | Deleted(epoch: u64, wasHeld: bool)
    | Keys(keys: seq<Key>)
    | SlotIs(found: Option<Slot>)
    | Claimed(slot: Slot, replaced: Option<Slot>, purged: seq<Key>)
    | Failed(error: Error)

  predicate ValidPageSize(size: u32) {
    size in {512, 1024, 2048, 4096, 8192, 16384, 32768, 65536}
  }

  /** The bit test `size&(size-1) == 0` between the two limits picks exactly the powers of two listed above. */
  lemma PageSizeBits(size: bv32)
    ensures (512 <= size <= 65536 && size & (size - 1) == 0) <==> ValidPageSize(size as u32)
  {
    if 512 <= size <= 65536 && size & (size - 1) == 0 {
      assert size == 512 || size == 1024 || size == 2048 || size == 4096 ||
             size == 8192 || size == 16384 || size == 32768 || size == 65536;
    }
  }

  /** The range lies within the file. Written as in Go, where `first + count` could wrap. */
  function CheckRange(first: u64, count: u64, pageCount: u64): (r: Option<Error>)
    ensures r.None? <==> first + count <= pageCount
  {
    if first > pageCount || count > pageCount - first
    then Some(RangeBeyond(first, Add64(first, count), pageCount))
    else None
  }

  // ---- ValidateCommit ----

  /** What is wrong with block `n`, given the blocks before it. */
  function BlockError(pageSize: u32, pageCount: u64, blocks: seq<Block>, n: nat): Option<Error>
    requires n < |blocks|
  {
    var b := blocks[n];
    if |b.data| != pageSize then Some(BlockLength(b.index, |b.data|, pageSize))
    else if b.index >= pageCount then Some(BlockBeyond(b.index, pageCount))
    else if exists m :: 0 <= m < n && blocks[m].index == b.index then Some(BlockTwice(b.index))
    else None
  }

  function FirstBlockError(pageSize: u32, pageCount: u64, blocks: seq<Block>, n: nat): Option<Error>
    requires n <= |blocks|
    decreases |blocks| - n
  {
    if n == |blocks| then None
    else
      var e := BlockError(pageSize, pageCount, blocks, n);
      if e.Some? then e else FirstBlockError(pageSize, pageCount, blocks, n + 1)
  }

  function CommitError(pageSize: u32, q: CommitRequest): Option<Error> {
    if q.commitID == [] then Some(CommitIDEmpty)
    else FirstBlockError(pageSize, q.pageCount, q.blocks, 0)
  }

  predicate ValidCommit(pageSize: u32, q: CommitRequest) {
    && q.commitID != []
    && (forall n :: 0 <= n < |q.blocks| ==> |q.blocks[n].data| == pageSize && q.blocks[n].index < q.pageCount)
    && (forall m, n :: 0 <= m < n < |q.blocks| ==> q.blocks[m].index != q.blocks[n].index)
  }

  lemma {:induction false} FirstErrorNone(pageSize: u32, pageCount: u64, blocks: seq<Block>, n: nat)
    requires n <= |blocks|
    ensures FirstBlockError(pageSize, pageCount, blocks, n).None?
            <==> forall m :: n <= m < |blocks| ==> BlockError(pageSize, pageCount, blocks, m).None?
    decreases |blocks| - n
  {
    if n < |blocks| { FirstErrorNone(pageSize, pageCount, blocks, n + 1); }
  }

  lemma {:induction false} BlockErrorKind(pageSize: u32, pageCount: u64, blocks: seq<Block>, n: nat)
    requires n <= |blocks|
    ensures FirstBlockError(pageSize, pageCount, blocks, n) != Some(CommitIDEmpty)
    decreases |blocks| - n
  {
    if n < |blocks| { BlockErrorKind(pageSize, pageCount, blocks, n + 1); }
  }

  /** The missing commit ID is reported exactly if it is missing, whatever the blocks are. */
  lemma MissingCommitID(pageSize: u32, q: CommitRequest)
    ensures CommitError(pageSize, q) == Some(CommitIDEmpty) <==> q.commitID == []
  {
    BlockErrorKind(pageSize, q.pageCount, q.blocks, 0);
  }

  /** A commit passes exactly if it has an ID, every block is one page inside the file, and no block comes twice. */
  lemma CommitErrorNone(pageSize: u32, q: CommitRequest)
    ensures CommitError(pageSize, q).None? <==> ValidCommit(pageSize, q)
  {
    FirstErrorNone(pageSize, q.pageCount, q.blocks, 0);
    if ValidCommit(pageSize, q) {
      assert forall m :: 0 <= m < |q.blocks| ==> BlockError(pageSize, q.pageCount, q.blocks, m).None?;
    } else if q.commitID != [] && CommitError(pageSize, q).None? {
      forall m, n | 0 <= m < n < |q.blocks| ensures q.blocks[m].index != q.blocks[n].index {
        assert BlockError(pageSize, q.pageCount, q.blocks, n).None?;
      }
      forall n | 0 <= n < |q.blocks|
        ensures |q.blocks[n].data| == pageSize && q.blocks[n].index < q.pageCount
      {
        assert BlockError(pageSize, q.pageCount, q.blocks, n).None?;
      }
    }
  }

  /** Block `n` has the page size, lies in the file, and has an index that no block before it has. */
  predicate BlockFits(pageSize: u32, pageCount: u64, blocks: seq<Block>, n: nat)
    requires n < |blocks|
  {
    && |blocks[n].data| == pageSize && blocks[n].index < pageCount
    && forall m :: 0 <= m < n ==> blocks[m].index != blocks[n].index
  }

  lemma {:induction false} SkipsFitting(pageSize: u32, pageCount: u64, blocks: seq<Block>, n: nat)
    requires n <= |blocks| && forall m :: 0 <= m < n ==> BlockFits(pageSize, pageCount, blocks, m)
    ensures FirstBlockError(pageSize, pageCount, blocks, 0) == FirstBlockError(pageSize, pageCount, blocks, n)
  {
    if n > 0 {
      SkipsFitting(pageSize, pageCount, blocks, n - 1);
      assert BlockFits(pageSize, pageCount, blocks, n - 1);
    }
  }

  /** The error of a commit is that of its first block that does not fit: its length, else its index, else the repeated
      index. */
  lemma CommitErrorIsFirst(pageSize: u32, q: CommitRequest, n: nat)
    requires q.commitID != [] && n < |q.blocks|
    requires forall m :: 0 <= m < n ==> BlockFits(pageSize, q.pageCount, q.blocks, m)
    requires !BlockFits(pageSize, q.pageCount, q.blocks, n)
    ensures var b := q.blocks[n];
            CommitError(pageSize, q)
            == Some(if |b.data| != pageSize then BlockLength(b.index, |b.data|, pageSize)
                    else if b.index >= q.pageCount then BlockBeyond(b.index, q.pageCount)
                    else BlockTwice(b.index))
  {
    SkipsFitting(pageSize, q.pageCount, q.blocks, n);
  }

  /** store.ValidateCommit: one pass with the set of indexes seen so far. */
  method ValidateCommit(pageSize: u32, q: CommitRequest) returns (err: Option<Error>)
    ensures err == CommitError(pageSize, q)
    ensures err.None? <==> ValidCommit(pageSize, q)
  {
    CommitErrorNone(pageSize, q);
    if |q.commitID| == 0 { return Some(CommitIDEmpty); }
    var seen: set<u64> := {};
    var n := 0;
    while n < |q.blocks|
      invariant n <= |q.blocks|
      invariant forall i :: i in seen <==> exists m :: 0 <= m < n && q.blocks[m].index == i
      invariant CommitError(pageSize, q) == FirstBlockError(pageSize, q.pageCount, q.blocks, n)
    {
      var block := q.blocks[n];
      if |block.data| != pageSize { return Some(BlockLength(block.index, |block.data|, pageSize)); }
      if block.index >= q.pageCount { return Some(BlockBeyond(block.index, q.pageCount)); }
      if block.index in seen { return Some(BlockTwice(block.index)); }
      seen := seen + {block.index};
      n := n + 1;
    }
    return None;
  }
}
