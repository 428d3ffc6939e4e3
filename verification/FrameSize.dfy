/** The encoded size of Pages and Changes frames, by the rules of the protobuf wire format, against the frame limit. */
module FrameSize {
  import opened Basics
  import opened Store
  import opened Memory
  import opened Runs
  import opened Fencing
  import opened ChangeLog
  import opened FetchFrames

  const PAGES_FRAME_OVERHEAD: int := 64
  const PAGES_BLOCK_OVERHEAD: int := 8
  const CHANGES_FRAME_OVERHEAD: int := 64
  /** Config.Validate: 1 KiB more than the largest page. */
  const MIN_MAX_FRAME_BYTES: int := 65536 + 1024

  const REQUEST_ID_FIELD := 1
  const PAGES_FIELD := 12
  const CHANGES_FIELD := 19

  // ---- the wire format ----

  function VarintSize(n: nat): (r: nat)
    ensures r >= 1
  {
    if n < 128 then 1 else 1 + VarintSize(n / 128)
  }

  /** A field's tag is the varint of its number times 8 plus the wire type, 0 for a varint and 2 for bytes. */
  function TagSize(field: nat, wire: nat): nat { VarintSize(field * 8 + wire) }

  /** An integer field; proto3 leaves out zero. */
  function IntField(field: nat, n: nat): nat { if n == 0 then 0 else TagSize(field, 0) + VarintSize(n) }

  function BoolField(field: nat, b: bool): nat { IntField(field, if b then 1 else 0) }

  /** A length-delimited field. */
  function BytesField(field: nat, size: nat): nat { TagSize(field, 2) + VarintSize(size) + size }

  function BlocksSize(blocks: seq<Bytes>): nat {
    if blocks == [] then 0 else BlocksSize(blocks[..|blocks| - 1]) + BytesField(2, |blocks[|blocks| - 1]|)
  }

  function PagesBody(f: PagesFrame): nat {
    IntField(1, f.first) + BlocksSize(f.blocks) + BoolField(3, f.last)
  }

  /** The size of a ServerFrame with a Pages body. */
  function PagesFrameSize(id: u64, f: PagesFrame): nat {
    IntField(REQUEST_ID_FIELD, id) + BytesField(PAGES_FIELD, PagesBody(f))
  }

  function PackedSize(indexes: seq<u64>): nat {
    if indexes == [] then 0 else PackedSize(indexes[..|indexes| - 1]) + VarintSize(indexes[|indexes| - 1])
  }

  function ChangesBody(c: ChangeSet): nat {
    IntField(1, c.from) + IntField(2, c.to) +
    (if c.blocks == [] then 0 else BytesField(3, PackedSize(c.blocks))) + BoolField(4, c.complete)
  }

  /** The size of a ServerFrame with a Changes body. */
  function ChangesFrameSize(id: u64, c: ChangeSet): nat {
    IntField(REQUEST_ID_FIELD, id) + BytesField(CHANGES_FIELD, ChangesBody(c))
  }

  // ---- the code ----

  /** How many blocks fetch puts into one frame, for the page size recorded when the database was opened. */
  function BlocksPerFrame(maxFrame: u32, pageSize: u32): (n: nat)
    requires maxFrame >= MIN_MAX_FRAME_BYTES
    ensures n > 0
  {
    Max(1, (maxFrame - PAGES_FRAME_OVERHEAD) / (pageSize + PAGES_BLOCK_OVERHEAD))
  }

  function ChangesPerFrame(maxFrame: u32): nat
    requires maxFrame >= MIN_MAX_FRAME_BYTES
  {
    Max(1, (maxFrame - CHANGES_FRAME_OVERHEAD) / 10)
  }

  /** changed: a list that does not fit is sent as an incomplete change set. */
  function SentChanges(maxFrame: u32, c: ChangeSet): ChangeSet
    requires maxFrame >= MIN_MAX_FRAME_BYTES
  {
    if |c.blocks| > ChangesPerFrame(maxFrame) then ChangeSet(c.from, c.to, [], false) else c
  }

  // ---- the bounds ----

  lemma {:induction false} VarintBound(n: nat, groups: nat, limit: nat)
    requires n < limit && limit == Pow128(groups) && groups > 0
    ensures VarintSize(n) <= groups
  {
    if n >= 128 {
      assert groups > 1;
      VarintBound(n / 128, groups - 1, Pow128(groups - 1));
    }
  }

  function Pow128(n: nat): nat { if n == 0 then 1 else 128 * Pow128(n - 1) }

  lemma Pow128Values()
    ensures Pow128(2) == 0x4000 && Pow128(3) == 0x20_0000 && Pow128(5) == 0x8_0000_0000
    ensures Pow128(10) > MAX64
  {
    assert Pow128(2) == 0x4000 && Pow128(3) == 0x20_0000 && Pow128(4) == 0x1000_0000 && Pow128(5) == 0x8_0000_0000;
    assert Pow128(6) == 0x400_0000_0000 && Pow128(7) == 0x2_0000_0000_0000 && Pow128(8) == 0x100_0000_0000_0000;
    assert Pow128(9) == 0x8000_0000_0000_0000;
  }

  /** A varint has one byte for every seven bits of its number. */
  lemma {:induction false} VarintExactly(n: nat, groups: nat)
    requires groups > 1
    ensures VarintSize(n) == groups <==> Pow128(groups - 1) <= n < Pow128(groups)
  {
    if groups > 2 {
      VarintExactly(n / 128, groups - 1);
    } else {
      assert Pow128(1) == 128 && Pow128(2) == 128 * 128;
    }
  }

  lemma VarintSizes(n: nat)
    ensures n <= MAX64 ==> VarintSize(n) <= 10
    ensures n < 0x8_0000_0000 ==> VarintSize(n) <= 5
    ensures n < 0x20_0000 ==> VarintSize(n) <= 3
    ensures n < 0x4000 ==> VarintSize(n) <= 2
  {
    Pow128Values();
    if n <= MAX64 { VarintBound(n, 10, Pow128(10)); }
    if n < 0x8_0000_0000 { VarintBound(n, 5, 0x8_0000_0000); }
    if n < 0x20_0000 { VarintBound(n, 3, 0x20_0000); }
    if n < 0x4000 { VarintBound(n, 2, 0x4000); }
  }

  lemma {:induction false} BlocksBound(blocks: seq<Bytes>, pageSize: u32)
    requires ValidPageSize(pageSize) && forall i :: 0 <= i < |blocks| ==> |blocks[i]| <= pageSize
    ensures BlocksSize(blocks) <= |blocks| * (pageSize + 4)
  {
    if blocks != [] {
      BlocksBound(blocks[..|blocks| - 1], pageSize);
      VarintSizes(|blocks[|blocks| - 1]|);
      assert (|blocks| - 1) * (pageSize + 4) + pageSize + 4 == |blocks| * (pageSize + 4);
    }
  }

  lemma {:induction false} PackedBound(indexes: seq<u64>)
    ensures PackedSize(indexes) <= 10 * |indexes|
  {
    if indexes != [] {
      PackedBound(indexes[..|indexes| - 1]);
      VarintSizes(indexes[|indexes| - 1]);
    }
  }

  lemma IntFieldBound(field: nat, n: nat)
    requires field < 16 && n <= MAX64
    ensures IntField(field, n) <= 11
  {
    VarintSizes(n);
  }

  lemma BytesFieldBound(field: nat, size: nat, bound: nat)
    requires field < 32 && size <= bound < 0x8_0000_0000
    ensures BytesField(field, size) <= bound + 7
  {
    VarintSizes(size);
    VarintSizes(field * 8 + 2);
  }

  lemma FieldsFit(frame: nat, id: u64, field: nat, body: nat, bound: nat)
    requires field < 32 && body <= bound < 0x8_0000_0000
    requires frame == IntField(REQUEST_ID_FIELD, id) + BytesField(field, body)
    ensures frame <= bound + 18
  {
    IntFieldBound(REQUEST_ID_FIELD, id);
    BytesFieldBound(field, body, bound);
  }

  lemma PagesBodyBound(f: PagesFrame, pageSize: u32)
    requires ValidPageSize(pageSize) && forall i :: 0 <= i < |f.blocks| ==> |f.blocks[i]| <= pageSize
    ensures PagesBody(f) <= |f.blocks| * (pageSize + 4) + 22
  {
    IntFieldBound(1, f.first);
    IntFieldBound(3, if f.last then 1 else 0);
    BlocksBound(f.blocks, pageSize);
  }

  lemma RoomFor(n: nat, limit: nat, pageSize: nat)
    requires n <= Max(1, limit / (pageSize + 8)) && pageSize + 8 <= limit
    ensures n * (pageSize + 4) <= limit
  {
    var fit := limit / (pageSize + 8);
    assert fit * (pageSize + 8) <= limit;
    assert n * (pageSize + 8) <= fit * (pageSize + 8) by { assert n <= fit; }
    assert n * (pageSize + 4) <= n * (pageSize + 8);
  }

  /** Every Pages frame of a fetch fits the frame limit, for every valid limit, page size and request ID, if the fetched
      blocks are no larger than the page size that was recorded when the database was opened. */
  lemma PagesFrameFits(maxFrame: u32, pageSize: u32, id: u64, f: PagesFrame)
    requires maxFrame >= MIN_MAX_FRAME_BYTES && ValidPageSize(pageSize)
    requires |f.blocks| <= BlocksPerFrame(maxFrame, pageSize)
    requires forall i :: 0 <= i < |f.blocks| ==> |f.blocks[i]| <= pageSize
    ensures PagesFrameSize(id, f) <= maxFrame
  {
    RoomFor(|f.blocks|, maxFrame - PAGES_FRAME_OVERHEAD, pageSize);
    PagesBodyBound(f, pageSize);
    FieldsFit(PagesFrameSize(id, f), id, PAGES_FIELD, PagesBody(f), maxFrame - PAGES_FRAME_OVERHEAD + 22);
  }

  lemma ChangesBodyBound(c: ChangeSet)
    requires 10 * |c.blocks| < MAX32
    ensures ChangesBody(c) <= 10 * |c.blocks| + 40
  {
    IntFieldBound(1, c.from);
    IntFieldBound(2, c.to);
    IntFieldBound(4, if c.complete then 1 else 0);
    PackedBound(c.blocks);
    BytesFieldBound(3, PackedSize(c.blocks), 10 * |c.blocks|);
  }

  /** What is sent is the change set itself if its encoding is sure to fit, at 10 bytes per index; otherwise an incomplete
      one with the same versions. */
  lemma SentExactly(maxFrame: u32, c: ChangeSet)
    requires maxFrame >= MIN_MAX_FRAME_BYTES
    ensures SentChanges(maxFrame, c)
            == if 10 * |c.blocks| + 64 <= maxFrame then c else ChangeSet(c.from, c.to, [], false)
  {
  }

  /** What a client gets for the store's answer: the answer, or an incomplete change set if its list could be too long. */
  predicate Passes(maxFrame: u32, answer: Reply, sent: Reply) {
    if answer.Changed? then
      var c := answer.changes;
      sent == Changed(if 10 * |c.blocks| + 64 <= maxFrame then c else ChangeSet(c.from, c.to, [], false))
    else answer.Failed? && Shows(answer, sent)
  }

  /** In every run of the store, a complete change set that a client gets lists exactly the blocks written since, and any
      other block reads as it did or, where the file was shorter in between, as zeros. */
  lemma SentListsEveryWrite(run: Run, k: Key, i: nat, j: nat, index: u64, maxFrame: u32, sent: Reply)
    requires History(run) && AsksSince(run, k, i, j) && Passes(maxFrame, run.replies[j], sent)
    requires sent.Changed? && sent.changes.complete
    ensures CatchesUp(sent.changes, Records(run, k, i, j), Commits(run, k, i, j), index)
  {
    CompleteListsEveryWrite(run, k, i, j, index);
  }

  /** It is complete exactly if the database was not deleted since, at most 1024 commits were applied since, and the list
      is short enough for a frame. */
  lemma SentCompleteExactly(run: Run, k: Key, i: nat, j: nat, maxFrame: u32, sent: Reply)
    requires History(run) && AsksSince(run, k, i, j) && !run.states[j].dbs[k].deleted
    requires Passes(maxFrame, run.replies[j], sent)
    ensures run.replies[j].Changed? && sent.Changed?
    ensures var recs := Records(run, k, i, j);
            sent.changes.complete
            <==> (forall m :: 0 <= m <= j - i ==> !recs[m].deleted)
                 && recs[j - i].state.version - recs[0].state.version <= 1024
                 && 10 * |run.replies[j].changes.blocks| + 64 <= maxFrame
  {
    CompleteExactlyInWindow(run, k, i, j);
  }

  /** Every Changes frame fits, for every change set. */
  lemma ChangesFrameFits(maxFrame: u32, id: u64, c: ChangeSet)
    requires maxFrame >= MIN_MAX_FRAME_BYTES
    ensures ChangesFrameSize(id, SentChanges(maxFrame, c)) <= maxFrame
  {
    var sent := SentChanges(maxFrame, c);
    ChangesBodyBound(sent);
    FieldsFit(ChangesFrameSize(id, sent), id, CHANGES_FIELD, ChangesBody(sent), 10 * |sent.blocks| + 40);
  }

  lemma {:induction false} BlocksAtLeast(blocks: seq<Bytes>, pageSize: nat)
    requires forall i :: 0 <= i < |blocks| ==> |blocks[i]| == pageSize
    ensures BlocksSize(blocks) >= |blocks| * pageSize
  {
    if blocks != [] {
      BlocksAtLeast(blocks[..|blocks| - 1], pageSize);
      assert (|blocks| - 1) * pageSize + pageSize == |blocks| * pageSize;
    }
  }

  /** Two or more blocks that nearly fill `limit` exceed it by far when they double in size. */
  lemma DoubledExceeds(n: nat, limit: nat, pageSize: nat)
    requires n >= 2 && pageSize >= 512 && limit >= 0x1_0000 && limit < n * (pageSize + 8) + (pageSize + 8)
    ensures n * (2 * pageSize) > limit + 64
  {
    var x := n * pageSize;
    assert n * (pageSize + 8) == x + 8 * n;
    assert x >= 512 * n;
    assert 2 * (pageSize + 8) <= x + 8 * n by { assert 2 * (pageSize + 8) <= n * (pageSize + 8); }
    assert n * (2 * pageSize) == 2 * x;
  }

  lemma NextPageSize(pageSize: u32, size: u32)
    requires ValidPageSize(pageSize) && ValidPageSize(size) && size > pageSize
    ensures 512 <= pageSize <= 0x8000 && size >= 2 * pageSize
  {
  }

  lemma QuotientBounds(limit: nat, room: nat)
    requires 0 < 2 * room <= limit
    ensures limit / room >= 2 && limit < (limit / room) * room + room
  {
  }

  lemma MulAtLeast(n: nat, a: nat, b: nat)
    requires a <= b
    ensures n * a <= n * b
  {
  }

  /** At least two blocks of a page size below the largest go into a frame, and they nearly fill it. */
  lemma NearlyFull(maxFrame: u32, pageSize: u32)
    requires maxFrame >= MIN_MAX_FRAME_BYTES && ValidPageSize(pageSize) && pageSize <= 0x8000
    ensures var n, room := BlocksPerFrame(maxFrame, pageSize), pageSize + PAGES_BLOCK_OVERHEAD;
            n >= 2 && maxFrame - PAGES_FRAME_OVERHEAD < n * room + room
  {
    QuotientBounds(maxFrame - PAGES_FRAME_OVERHEAD, pageSize + PAGES_BLOCK_OVERHEAD);
  }

  lemma FullBlocksExceed(n: nat, maxFrame: u32, pageSize: u32, size: u32)
    requires maxFrame >= MIN_MAX_FRAME_BYTES && ValidPageSize(pageSize) && ValidPageSize(size) && size > pageSize
    requires n == BlocksPerFrame(maxFrame, pageSize)
    ensures n * size > maxFrame
  {
    NextPageSize(pageSize, size);
    NearlyFull(maxFrame, pageSize);
    DoubledExceeds(n, maxFrame - PAGES_FRAME_OVERHEAD, pageSize);
    MulAtLeast(n, 2 * pageSize, size);
  }

  /** The page size must be the recorded one, or smaller. A database that is deleted and created again with larger
      pages is still fetched through the old open, and exactly then a full frame exceeds the limit. */
  lemma FullFrameFits(maxFrame: u32, pageSize: u32, size: u32, id: u64, f: PagesFrame)
    requires maxFrame >= MIN_MAX_FRAME_BYTES && ValidPageSize(pageSize) && ValidPageSize(size)
    requires |f.blocks| == BlocksPerFrame(maxFrame, pageSize)
    requires forall i :: 0 <= i < |f.blocks| ==> |f.blocks[i]| == size
    ensures PagesFrameSize(id, f) <= maxFrame <==> size <= pageSize
  {
    if size <= pageSize {
      PagesFrameFits(maxFrame, pageSize, id, f);
    } else {
      FullBlocksExceed(|f.blocks|, maxFrame, pageSize, size);
      BlocksAtLeast(f.blocks, size);
    }
  }

  // ---- the frames of a run ----

  /** The key's database is neither purged nor deleted between the states `i` and `j`. */
  ghost predicate Live(run: Run, k: Key, i: nat, j: nat)
    requires i <= j < |run.states|
  {
    Kept(run, k, i, j) && forall m :: i <= m <= j ==> !run.states[m].dbs[k].deleted
  }

  lemma {:induction false} PageSizeStays(recs: seq<Record>, commits: seq<Option<CommitRequest>>, j: nat)
    requires Life(recs, commits) && j < |recs| && forall m :: 0 <= m <= j ==> !recs[m].deleted
    ensures recs[j].state.pageSize == recs[0].state.pageSize
  {
    if j > 0 {
      PageSizeStays(recs, commits, j - 1);
      MoveAt(recs, commits, j - 1);
    }
  }

  lemma ReadSize(db: Record, first: u64, count: u64, i: nat)
    requires Good(db) && first + count <= MAX64 && i < count
    ensures |ReadRange(db, first, count)[i]| == db.state.pageSize
  {
    assert ReadRange(db, first, count)[i] == Read(db, first + i);
  }

  /** The open at `start` recorded the page size of the record it left behind. */
  lemma OpenRecords(run: Run, start: nat, k: Key)
    requires History(run) && start < |run.events| && run.replies[start].Opened?
    requires run.events[start].Open? && run.events[start].open.key == k
    ensures k in run.states[start + 1].dbs && ValidPageSize(run.replies[start].state.pageSize)
    ensures run.replies[start].state.pageSize == run.states[start + 1].dbs[k].state.pageSize
  {
    StepAt(run, start);
    RunGood(run, start + 1);
  }

  lemma SizeAtFetch(run: Run, k: Key, start: nat, j: nat)
    requires History(run) && start < j < |run.events| && Live(run, k, start + 1, j)
    requires run.events[start].Open? && run.events[start].open.key == k && run.replies[start].Opened?
    ensures Good(run.states[j].dbs[k]) && run.states[j].dbs[k].state.pageSize == run.replies[start].state.pageSize
    ensures ValidPageSize(run.replies[start].state.pageSize)
  {
    OpenRecords(run, start, k);
    RunGood(run, j);
    LifeOf(run, k, start + 1, j);
    PageSizeStays(Records(run, k, start + 1, j), Commits(run, k, start + 1, j), j - start - 1);
  }

  /** Every frame of the answer is within the limit. */
  ghost predicate AllFit(ranges: seq<Range>, runs: seq<seq<Bytes>>, maxFrame: u32, pageSize: u32, id: u64)
    requires maxFrame >= MIN_MAX_FRAME_BYTES && ValidPageSize(pageSize) && Fetched(ranges, runs)
  {
    var frames := Frames(ranges, runs, BlocksPerFrame(maxFrame, pageSize), |ranges|);
    forall i :: 0 <= i < |frames| ==> PagesFrameSize(id, frames[i]) <= maxFrame
  }

  /** All fetched blocks have `size` bytes. */
  ghost predicate Sized(runs: seq<seq<Bytes>>, size: nat) {
    forall n, i :: 0 <= n < |runs| && 0 <= i < |runs[n]| ==> |runs[n][i]| == size
  }

  lemma SmallBlocksFit(ranges: seq<Range>, runs: seq<seq<Bytes>>, size: nat, maxFrame: u32, pageSize: u32, id: u64)
    requires maxFrame >= MIN_MAX_FRAME_BYTES && ValidPageSize(pageSize) && Fetched(ranges, runs)
    requires Sized(runs, size) && size <= pageSize
    ensures AllFit(ranges, runs, maxFrame, pageSize, id)
  {
    var perFrame := BlocksPerFrame(maxFrame, pageSize);
    var frames := Frames(ranges, runs, perFrame, |ranges|);
    forall i | 0 <= i < |frames| ensures PagesFrameSize(id, frames[i]) <= maxFrame {
      FramesInRange(ranges, runs, perFrame, |ranges|, i);
      var m :| 0 <= m < |ranges| && InRange(frames[i], ranges[m], runs[m], perFrame);
      forall b | 0 <= b < |frames[i].blocks| ensures |frames[i].blocks[b]| <= pageSize {
        assert frames[i].blocks[b] == runs[m][frames[i].first - ranges[m].first + b];
      }
      PagesFrameFits(maxFrame, pageSize, id, frames[i]);
    }
  }

  /** A long enough range starts with a full frame. */
  lemma {:induction false} FullFrameSent(ranges: seq<Range>, runs: seq<seq<Bytes>>, perFrame: nat, n: nat, m: nat)
      returns (i: nat)
    requires perFrame > 0 && Fetched(ranges, runs) && m < n <= |ranges| && |runs[m]| >= perFrame
    ensures i < |Frames(ranges, runs, perFrame, n)|
    ensures Frames(ranges, runs, perFrame, n)[i].blocks == runs[m][..perFrame]
  {
    var before := Frames(ranges, runs, perFrame, n - 1);
    if m < n - 1 {
      i := FullFrameSent(ranges, runs, perFrame, n - 1, m);
    } else {
      i := |before|;
      var chunks := Chunks(ranges[m].first, runs[m], 0, perFrame, n == |ranges|);
      assert chunks[0].blocks == runs[m][0..perFrame];
    }
  }

  lemma LargeBlocksExceed(ranges: seq<Range>, runs: seq<seq<Bytes>>, size: u32, maxFrame: u32, pageSize: u32, id: u64,
                          m: nat)
    requires maxFrame >= MIN_MAX_FRAME_BYTES && ValidPageSize(pageSize) && ValidPageSize(size) && size > pageSize
    requires Fetched(ranges, runs) && Sized(runs, size)
    requires m < |ranges| && |runs[m]| >= BlocksPerFrame(maxFrame, pageSize)
    ensures !AllFit(ranges, runs, maxFrame, pageSize, id)
  {
    var perFrame := BlocksPerFrame(maxFrame, pageSize);
    var i := FullFrameSent(ranges, runs, perFrame, |ranges|, m);
    var f := Frames(ranges, runs, perFrame, |ranges|)[i];
    forall b | 0 <= b < |f.blocks| ensures |f.blocks[b]| == size {
      assert f.blocks[b] == runs[m][b];
    }
    FullFrameFits(maxFrame, pageSize, size, id, f);
  }

  lemma SnapshotSized(db: Record, ranges: seq<Range>, runs: seq<seq<Bytes>>)
    requires Good(db) && Fetched(ranges, runs)
    requires forall n :: 0 <= n < |ranges| ==> runs[n] == ReadRange(db, ranges[n].first, ranges[n].count)
    ensures Sized(runs, db.state.pageSize)
  {
    forall n, i | 0 <= n < |runs| && 0 <= i < |runs[n]| ensures |runs[n][i]| == db.state.pageSize {
      ReadSize(db, ranges[n].first, ranges[n].count, i);
    }
  }

  /** Call `start` opened `k`, and the store answered the fetch of the ranges at the positions `at`. */
  ghost predicate Answered(run: Run, k: Key, start: nat, version: u64, ranges: seq<Range>, at: seq<nat>,
                           runs: seq<seq<Bytes>>)
    requires IsRun(run)
  {
    && start < |run.events| && run.events[start].Open? && run.events[start].open.key == k && run.replies[start].Opened?
    && NoOverlap(ranges) && AsksRanges(run, k, version, ranges, at) && start < at[0]
    && Kept(run, k, at[0], at[|at| - 1])
    && |runs| == |ranges| && forall n :: 0 <= n < |at| ==> run.replies[at[n]] == Reply.Pages(runs[n])
  }

  /** What is known of an answered fetch: blocks of one size, that of the snapshot. */
  lemma AnsweredSized(run: Run, k: Key, start: nat, version: u64, ranges: seq<Range>, at: seq<nat>,
                      runs: seq<seq<Bytes>>)
    requires History(run) && Answered(run, k, start, version, ranges, at, runs)
    ensures k in run.states[at[0]].dbs && ValidPageSize(run.states[at[0]].dbs[k].state.pageSize)
    ensures ValidPageSize(run.replies[start].state.pageSize) && Fetched(ranges, runs)
    ensures Sized(runs, run.states[at[0]].dbs[k].state.pageSize)
  {
    AnswerIsOneSnapshot(run, k, version, ranges, at, runs, 1);
    OpenRecords(run, start, k);
    RunGood(run, at[0]);
    SnapshotSized(run.states[at[0]].dbs[k], ranges, runs);
  }

  /** In every run, the frames that answer a fetch fit if the snapshot's pages are no larger than the page size that the
      open recorded; and exactly then if a range is long enough for a full frame. */
  lemma AnswerFitsExactly(run: Run, k: Key, start: nat, version: u64, ranges: seq<Range>, at: seq<nat>,
                          runs: seq<seq<Bytes>>, maxFrame: u32, id: u64)
    requires History(run) && maxFrame >= MIN_MAX_FRAME_BYTES && Answered(run, k, start, version, ranges, at, runs)
    ensures k in run.states[at[0]].dbs && ValidPageSize(run.replies[start].state.pageSize) && Fetched(ranges, runs)
    ensures var recorded, size := run.replies[start].state.pageSize, run.states[at[0]].dbs[k].state.pageSize;
            && (size <= recorded ==> AllFit(ranges, runs, maxFrame, recorded, id))
            && ((exists m :: 0 <= m < |ranges| && ranges[m].count >= BlocksPerFrame(maxFrame, recorded)) ==>
                  (AllFit(ranges, runs, maxFrame, recorded, id) <==> size <= recorded))
  {
    AnsweredSized(run, k, start, version, ranges, at, runs);
    var recorded, size := run.replies[start].state.pageSize, run.states[at[0]].dbs[k].state.pageSize;
    if size <= recorded {
      SmallBlocksFit(ranges, runs, size, maxFrame, recorded, id);
    } else if m :| 0 <= m < |ranges| && ranges[m].count >= BlocksPerFrame(maxFrame, recorded) {
      LargeBlocksExceed(ranges, runs, size, maxFrame, recorded, id, m);
    }
  }

  /** So they fit if the database stays live from the open to the fetch. */
  lemma AnswerFits(run: Run, k: Key, start: nat, version: u64, ranges: seq<Range>, at: seq<nat>,
                   runs: seq<seq<Bytes>>, maxFrame: u32, id: u64)
    requires History(run) && maxFrame >= MIN_MAX_FRAME_BYTES && Answered(run, k, start, version, ranges, at, runs)
    requires Live(run, k, start + 1, at[0])
    ensures ValidPageSize(run.replies[start].state.pageSize) && Fetched(ranges, runs)
    ensures AllFit(ranges, runs, maxFrame, run.replies[start].state.pageSize, id)
  {
    SizeAtFetch(run, k, start, at[0]);
    AnswerFitsExactly(run, k, start, version, ranges, at, runs, maxFrame, id);
  }

  // ---- a database created anew with larger pages ----

  const LARGER := Open(OpenRequest(LOST, "", Some([2]), 65536, true, false, None, 0, 10), [2])
  const LONG := CommitRequest(LOST, CommitID(1), 3, 1, 2016, [], 0, 10)
  const LARGE := Remove(Created([1]).dbs[LOST]).(deleted := false, state := State(65536, 0, 1, []),
                   lease := Lease([2], 3), holder := Some([2]), grantedAt := 0, expiresAt := 10)

  lemma LargerStep()
    ensures Step(DELETED, LARGER) == (StoreState(map[LOST := LARGE], map[]), Opened(Lease([2], 3), State(65536, 0, 1, []), false))
  {
    assert DELETED.dbs[LOST := LARGE] == map[LOST := LARGE];
  }

  lemma LongStep(s: StoreState)
    requires s == StoreState(map[LOST := LARGE], map[])
    ensures Step(s, Commit(LONG)).1 == Committed(2)
    ensures var s' := Step(s, Commit(LONG)).0;
            LOST in s'.dbs && s'.dbs[LOST].state == State(65536, 2016, 2, CommitID(1)) && !s'.dbs[LOST].deleted
  {
    CommitErrorNone(65536, LONG);
  }

  lemma FetchStep(s: StoreState)
    requires LOST in s.dbs && s.dbs[LOST].state == State(65536, 2016, 2, CommitID(1)) && !s.dbs[LOST].deleted
    ensures Step(s, Memory.Fetch(LOST, 2, 0, 2016)) == (s, Reply.Pages(ReadRange(s.dbs[LOST], 0, 2016)))
  {
    assert s.dbs[LOST := s.dbs[LOST]] == s.dbs;
  }

  lemma LargeRun() returns (run: Run)
    ensures History(run) && |run.events| == 3 && run.events[0] == Create([1])
    ensures run.replies[0] == Opened(Lease([1], 1), State(512, 0, 0, []), false)
    ensures Last(run) == StoreState(map[LOST := LARGE], map[])
  {
    CreateStep([1]);
    DeleteStep();
    LargerStep();
    run := Extended(START, Create([1]), Created([1]), Opened(Lease([1], 1), State(512, 0, 0, []), false));
    run := Extended(run, DELETION, DELETED, Deleted(2, true));
    run := Extended(run, LARGER, StoreState(map[LOST := LARGE], map[]), Opened(Lease([2], 3), State(65536, 0, 1, []), false));
  }

  lemma LongRun() returns (run: Run, runs: seq<seq<Bytes>>)
    ensures History(run) && |run.events| == 5 && run.events[0] == Create([1])
    ensures run.replies[0] == Opened(Lease([1], 1), State(512, 0, 0, []), false)
    ensures run.events[4] == Memory.Fetch(LOST, 2, 0, 2016) && |runs| == 1 && run.replies[4] == Reply.Pages(runs[0])
    ensures LOST in run.states[4].dbs && run.states[4].dbs[LOST].state.pageSize == 65536
  {
    run := LargeRun();
    LongStep(Last(run));
    run := Extended(run, Commit(LONG), Step(Last(run), Commit(LONG)).0, Committed(2));
    FetchStep(Last(run));
    runs := [ReadRange(Last(run).dbs[LOST], 0, 2016)];
    run := Extended(run, Memory.Fetch(LOST, 2, 0, 2016), Last(run), Reply.Pages(runs[0]));
  }

  /** A client opens a database with pages of 512 bytes. Others delete it by force, create it with pages of 65536 bytes and
      make it 2016 pages long. The client then fetches 2016 pages, and with a limit of 1 MiB a frame is too large. */
  lemma LargerPagesExceed(id: u64) returns (run: Run, runs: seq<seq<Bytes>>)
    ensures History(run) && Answered(run, LOST, 0, 2, [Range(0, 2016)], [4], runs)
    ensures run.replies[0].state.pageSize == 512 && Fetched([Range(0, 2016)], runs)
    ensures !AllFit([Range(0, 2016)], runs, 0x10_0000, 512, id)
  {
    run, runs := LongRun();
    AnswerFitsExactly(run, LOST, 0, 2, [Range(0, 2016)], [4], runs, 0x10_0000, id);
    assert [Range(0, 2016)][0].count >= BlocksPerFrame(0x10_0000, 512);
  }
}
