/** internal/protocol/connection.go, fetch: the check of the ranges, and the split of the fetched blocks into frames. */
module FetchFrames {
  import opened Basics
  import opened Store
  import opened Memory
  import opened Runs
  import opened Fencing

  const MAX_FETCH_RANGES: nat := 4096

  datatype Range = Range(first: u64, count: u64)
  datatype PagesFrame = PagesFrame(first: u64, blocks: seq<Bytes>, last: bool)
  datatype FetchOutcome =
    | TooManyRanges
    | OutOfOrder(n: nat)
    | StoreFailed(error: Error)
    | Sent(frames: seq<PagesFrame>)

  // ---- the order of the ranges ----

  /** Range `n` starts before the end of the one before it, as computed with uint64 arithmetic. */
  predicate Overlaps(ranges: seq<Range>, n: nat)
    requires 0 < n < |ranges|
  {
    ranges[n].first < Add64(ranges[n - 1].first, ranges[n - 1].count)
  }

  /** The first range that overlaps the one before it. */
  method CheckOrder(ranges: seq<Range>) returns (bad: Option<nat>)
    ensures bad.None? ==> NoOverlap(ranges)
    ensures bad.Some? ==> 0 < bad.value < |ranges| && Overlaps(ranges, bad.value)
    ensures bad.Some? ==> forall n :: 0 < n < bad.value ==> !Overlaps(ranges, n)
  {
    var reached: u64 := 0;
    var n := 0;
    while n < |ranges|
      invariant n <= |ranges| && (n > 0 ==> reached == Add64(ranges[n - 1].first, ranges[n - 1].count))
      invariant forall m :: 0 < m < n ==> !Overlaps(ranges, m)
    {
      if n > 0 && ranges[n].first < reached { return Some(n); }
      reached := Add64(ranges[n].first, ranges[n].count);
      n := n + 1;
    }
    return None;
  }

  /** Sorted and disjoint as true integers. */
  predicate SortedDisjoint(ranges: seq<Range>) {
    forall m, n :: 0 <= m < n < |ranges| ==> ranges[m].first + ranges[m].count <= ranges[n].first
  }

  predicate NoOverlap(ranges: seq<Range>) {
    forall n :: 0 < n < |ranges| ==> !Overlaps(ranges, n)
  }

  /** No range but the last ends beyond 2^64 - 1. */
  predicate NoWrap(ranges: seq<Range>) {
    forall i :: 0 <= i < |ranges| - 1 ==> ranges[i].first + ranges[i].count <= MAX64
  }

  lemma {:induction false} OrderIsTrue(ranges: seq<Range>, m: nat, n: nat)
    requires NoOverlap(ranges) && NoWrap(ranges) && m < n < |ranges|
    ensures ranges[m].first + ranges[m].count <= ranges[n].first
  {
    assert !Overlaps(ranges, n);
    if m + 1 < n { OrderIsTrue(ranges, m, n - 1); }
  }

  /** What the check is worth: sorted and disjoint ranges pass it, and ranges that pass it are sorted and disjoint exactly
      if no end wraps around. No range inside a file does. */
  lemma CheckIsExact(ranges: seq<Range>)
    ensures SortedDisjoint(ranges) <==> NoOverlap(ranges) && NoWrap(ranges)
  {
    if NoOverlap(ranges) && NoWrap(ranges) {
      forall m, n | 0 <= m < n < |ranges| ensures ranges[m].first + ranges[m].count <= ranges[n].first {
        OrderIsTrue(ranges, m, n);
      }
    }
    if SortedDisjoint(ranges) {
      forall i | 0 <= i < |ranges| - 1 ensures ranges[i].first + ranges[i].count <= MAX64 {
        assert ranges[i].first + ranges[i].count <= ranges[i + 1].first;
      }
      forall n | 0 < n < |ranges| ensures !Overlaps(ranges, n) {
        assert ranges[n - 1].first + ranges[n - 1].count <= ranges[n].first;
      }
    }
  }

  lemma WrappedEndPasses()
    ensures !Overlaps([Range(10, MAX64 - 5), Range(4, 1)], 1) && !SortedDisjoint([Range(10, MAX64 - 5), Range(4, 1)])
  {}

  // ---- splitting into frames ----

  /** The frames of one range from block `start` on. */
  function Chunks(first: u64, blocks: seq<Bytes>, start: nat, perFrame: nat, lastRun: bool): seq<PagesFrame>
    requires perFrame > 0 && start <= |blocks| && first + |blocks| <= MAX64
    decreases |blocks| - start
  {
    var end := Min(start + perFrame, |blocks|);
    var frame := PagesFrame(first + start, blocks[start..end], lastRun && end == |blocks|);
    if end == |blocks| then [frame] else [frame] + Chunks(first, blocks, end, perFrame, lastRun)
  }

  /** The blocks fetched for the ranges, as many as asked for and below 2^64. */
  predicate Fetched(ranges: seq<Range>, runs: seq<seq<Bytes>>) {
    && |runs| == |ranges|
    && forall n :: 0 <= n < |ranges| ==> |runs[n]| == ranges[n].count && ranges[n].first + ranges[n].count <= MAX64
  }

  /** The frames of the first `n` ranges. */
  function Frames(ranges: seq<Range>, runs: seq<seq<Bytes>>, perFrame: nat, n: nat): seq<PagesFrame>
    requires perFrame > 0 && Fetched(ranges, runs) && n <= |ranges|
  {
    if n == 0 then []
    else Frames(ranges, runs, perFrame, n - 1) + Chunks(ranges[n - 1].first, runs[n - 1], 0, perFrame, n == |ranges|)
  }

  /** The loops of fetch that send the frames. */
  method SendFrames(ranges: seq<Range>, runs: seq<seq<Bytes>>, perFrame: nat) returns (frames: seq<PagesFrame>)
    requires perFrame > 0 && Fetched(ranges, runs)
    ensures frames == Frames(ranges, runs, perFrame, |ranges|)
  {
    frames := [];
    var n := 0;
    while n < |runs|
      invariant n <= |runs| && frames == Frames(ranges, runs, perFrame, n)
    {
      var first, blocks := ranges[n].first, runs[n];
      var lastRun := n == |runs| - 1;
      ghost var before := frames;
      var start := 0;
      while true
        invariant 0 <= start <= |blocks|
        invariant before + Chunks(first, blocks, 0, perFrame, lastRun)
                  == frames + Chunks(first, blocks, start, perFrame, lastRun)
        decreases |blocks| - start
      {
        var end := Min(start + perFrame, |blocks|);
        ghost var rest := Chunks(first, blocks, start, perFrame, lastRun);
        var frame := PagesFrame(first + start, blocks[start..end], lastRun && end == |blocks|);
        assert frames + rest == (frames + [frame]) + rest[1..];
        frames := frames + [frame];
        if end == |blocks| { break; }
        start := end;
      }
      n := n + 1;
    }
  }

  // ---- what the client can rebuild ----

  /** A block with its index. */
  datatype Page = Page(index: int, data: Bytes)

  function Numbered(first: int, blocks: seq<Bytes>): seq<Page> {
    seq(|blocks|, i requires 0 <= i < |blocks| => Page(first + i, blocks[i]))
  }

  /** What a client reads from the frames: the blocks of each from its first index on. */
  function Rebuilt(frames: seq<PagesFrame>): seq<Page> {
    if frames == [] then [] else Numbered(frames[0].first, frames[0].blocks) + Rebuilt(frames[1..])
  }

  /** What the request asked for: the blocks of each range in order. */
  function Requested(ranges: seq<Range>, runs: seq<seq<Bytes>>, n: nat): seq<Page>
    requires |runs| == |ranges| && n <= |ranges|
  {
    if n == 0 then [] else Requested(ranges, runs, n - 1) + Numbered(ranges[n - 1].first, runs[n - 1])
  }

  lemma {:induction false} RebuiltAppend(a: seq<PagesFrame>, b: seq<PagesFrame>)
    ensures Rebuilt(a + b) == Rebuilt(a) + Rebuilt(b)
  {
    if a == [] {
      assert a + b == b;
    } else {
      assert (a + b)[1..] == a[1..] + b;
      RebuiltAppend(a[1..], b);
    }
  }

  lemma NumberedSplit(first: int, blocks: seq<Bytes>, start: nat, end: nat)
    requires start <= end <= |blocks|
    ensures Numbered(first + start, blocks[start..])
            == Numbered(first + start, blocks[start..end]) + Numbered(first + end, blocks[end..])
  {
  }

  lemma RebuiltFirst(frame: PagesFrame, rest: seq<PagesFrame>)
    ensures Rebuilt([frame] + rest) == Numbered(frame.first, frame.blocks) + Rebuilt(rest)
  {
    assert ([frame] + rest)[1..] == rest;
  }

  lemma {:induction false} ChunksRebuild(first: u64, blocks: seq<Bytes>, start: nat, perFrame: nat, lastRun: bool)
    requires perFrame > 0 && start <= |blocks| && first + |blocks| <= MAX64
    ensures Rebuilt(Chunks(first, blocks, start, perFrame, lastRun)) == Numbered(first + start, blocks[start..])
    decreases |blocks| - start
  {
    var end := Min(start + perFrame, |blocks|);
    var frame := PagesFrame(first + start, blocks[start..end], lastRun && end == |blocks|);
    if end < |blocks| {
      ChunksRebuild(first, blocks, end, perFrame, lastRun);
      RebuiltFirst(frame, Chunks(first, blocks, end, perFrame, lastRun));
      NumberedSplit(first, blocks, start, end);
    } else {
      RebuiltFirst(frame, []);
      assert [frame] + [] == [frame] && blocks[start..end] == blocks[start..];
    }
  }

  /** The frames rebuild exactly the requested blocks, at their indexes and in order. */
  lemma {:induction false} FramesRebuild(ranges: seq<Range>, runs: seq<seq<Bytes>>, perFrame: nat, n: nat)
    requires perFrame > 0 && Fetched(ranges, runs) && n <= |ranges|
    ensures Rebuilt(Frames(ranges, runs, perFrame, n)) == Requested(ranges, runs, n)
  {
    if n > 0 {
      FramesRebuild(ranges, runs, perFrame, n - 1);
      var chunks := Chunks(ranges[n - 1].first, runs[n - 1], 0, perFrame, n == |ranges|);
      RebuiltAppend(Frames(ranges, runs, perFrame, n - 1), chunks);
      ChunksRebuild(ranges[n - 1].first, runs[n - 1], 0, perFrame, n == |ranges|);
      assert runs[n - 1][0..] == runs[n - 1];
    }
  }

  /** The frame lies in range `n`, has at most `perFrame` blocks, and they are blocks of that range. */
  predicate InRange(f: PagesFrame, r: Range, blocks: seq<Bytes>, perFrame: nat) {
    && r.first <= f.first && f.first + |f.blocks| <= r.first + |blocks| && |f.blocks| <= perFrame
    && f.blocks == blocks[f.first - r.first..f.first - r.first + |f.blocks|]
  }

  lemma {:induction false} ChunksInRange(first: u64, blocks: seq<Bytes>, start: nat, perFrame: nat, lastRun: bool)
    requires perFrame > 0 && start <= |blocks| && first + |blocks| <= MAX64
    ensures var chunks := Chunks(first, blocks, start, perFrame, lastRun);
            && chunks != []
            && (forall i :: 0 <= i < |chunks| ==> InRange(chunks[i], Range(first, |blocks|), blocks, perFrame))
            && (forall i :: 0 <= i < |chunks| ==> (chunks[i].last <==> lastRun && i == |chunks| - 1))
    decreases |blocks| - start
  {
    var end := Min(start + perFrame, |blocks|);
    if end < |blocks| { ChunksInRange(first, blocks, end, perFrame, lastRun); }
  }

  /** No frame spans two ranges or exceeds `perFrame` blocks, and exactly the final frame is marked as last. */
  lemma {:induction false} FramesInRange(ranges: seq<Range>, runs: seq<seq<Bytes>>, perFrame: nat, n: nat, i: nat)
    requires perFrame > 0 && Fetched(ranges, runs) && n <= |ranges| && i < |Frames(ranges, runs, perFrame, n)|
    ensures exists m :: 0 <= m < n && InRange(Frames(ranges, runs, perFrame, n)[i], ranges[m], runs[m], perFrame)
    ensures Frames(ranges, runs, perFrame, n)[i].last <==> n == |ranges| && i == |Frames(ranges, runs, perFrame, n)| - 1
  {
    var before := Frames(ranges, runs, perFrame, n - 1);
    ChunksInRange(ranges[n - 1].first, runs[n - 1], 0, perFrame, n == |ranges|);
    if i < |before| {
      FramesInRange(ranges, runs, perFrame, n - 1, i);
    } else {
      assert InRange(Frames(ranges, runs, perFrame, n)[i], ranges[n - 1], runs[n - 1], perFrame);
    }
  }

  // ---- the whole request ----

  /** What the store answers to a range, given the record of the database. */
  function Answer(r: Option<Record>, version: u64, range: Range): Reply {
    FetchRecord(r, version, range.first, range.count)
  }

  lemma AnswerShape(r: Option<Record>, version: u64, range: Range)
    ensures var reply := Answer(r, version, range);
            || reply.Failed?
            || (reply.Pages? && |reply.blocks| == range.count && range.first + range.count <= MAX64)
  {
  }

  /** The blocks of the first ranges, as the store answers them. */
  ghost predicate AnswersFirst(r: Option<Record>, version: u64, ranges: seq<Range>, runs: seq<seq<Bytes>>) {
    |runs| <= |ranges| && forall n :: 0 <= n < |runs| ==> Answer(r, version, ranges[n]) == Reply.Pages(runs[n])
  }

  /** What a client that has the database open is told: the store's answer, except that a database that is gone was
      deleted while it was open, so the lease has ended. */
  predicate Shows(answer: Reply, told: Reply) {
    told == if answer == Failed(NotFound) then Failed(Fenced) else answer
  }

  /** What a fetch comes to: too many ranges; otherwise the first range that overlaps the one before it; otherwise the
      first error of the store; otherwise the frames of all ranges. */
  ghost predicate ComesTo(r: Option<Record>, version: u64, ranges: seq<Range>, perFrame: nat, out: FetchOutcome)
    requires perFrame > 0
  {
    match out
    case TooManyRanges => |ranges| > 4096
    case OutOfOrder(n) =>
      && |ranges| <= 4096 && 0 < n < |ranges| && Overlaps(ranges, n)
      && forall m :: 0 < m < n ==> !Overlaps(ranges, m)
    case StoreFailed(e) =>
      && |ranges| <= 4096 && NoOverlap(ranges)
      && exists runs: seq<seq<Bytes>> :: AnswersFirst(r, version, ranges, runs) && |runs| < |ranges| &&
                                         Shows(Answer(r, version, ranges[|runs|]), Failed(e))
    case Sent(frames) =>
      && |ranges| <= 4096 && NoOverlap(ranges)
      && exists runs: seq<seq<Bytes>> :: AnswersFirst(r, version, ranges, runs) && Fetched(ranges, runs) &&
                                         frames == Frames(ranges, runs, perFrame, |ranges|)
  }

  lemma AllAnswered(r: Option<Record>, version: u64, ranges: seq<Range>, runs: seq<seq<Bytes>>, perFrame: nat)
    requires perFrame > 0 && |ranges| <= MAX_FETCH_RANGES && NoOverlap(ranges)
    requires AnswersFirst(r, version, ranges, runs) && Fetched(ranges, runs)
    ensures ComesTo(r, version, ranges, perFrame, Sent(Frames(ranges, runs, perFrame, |ranges|)))
  {
  }

  lemma OneFailed(r: Option<Record>, version: u64, ranges: seq<Range>, runs: seq<seq<Bytes>>, e: Error, perFrame: nat)
    requires perFrame > 0 && |ranges| <= MAX_FETCH_RANGES && NoOverlap(ranges)
    requires AnswersFirst(r, version, ranges, runs) && |runs| < |ranges|
    requires Shows(Answer(r, version, ranges[|runs|]), Failed(e))
    ensures ComesTo(r, version, ranges, perFrame, StoreFailed(e))
  {
  }

  // ---- what the client has after an answered request ----

  predicate Inside(r: Range, index: int) {
    r.first <= index < r.first + r.count
  }

  lemma {:induction false} RequestedHas(ranges: seq<Range>, runs: seq<seq<Bytes>>, n: nat, p: Page)
    requires Fetched(ranges, runs) && n <= |ranges|
    ensures p in Requested(ranges, runs, n)
            <==> exists m :: 0 <= m < n && Inside(ranges[m], p.index) && runs[m][p.index - ranges[m].first] == p.data
  {
    if n > 0 {
      var r, numbered := ranges[n - 1], Numbered(ranges[n - 1].first, runs[n - 1]);
      RequestedHas(ranges, runs, n - 1, p);
      if Inside(r, p.index) { assert numbered[p.index - r.first] == Page(p.index, runs[n - 1][p.index - r.first]); }
      assert p in numbered <==> Inside(r, p.index) && runs[n - 1][p.index - r.first] == p.data;
    }
  }

  /** A block inside one of the ranges, with the data that it has in the record. */
  ghost predicate Wanted(db: Record, ranges: seq<Range>, p: Page) {
    && (exists m :: 0 <= m < |ranges| && Inside(ranges[m], p.index))
    && 0 <= p.index <= MAX64 && p.data == Read(db, p.index)
  }

  /** The client has exactly the wanted blocks. */
  ghost predicate Delivers(db: Record, ranges: seq<Range>, frames: seq<PagesFrame>) {
    forall p: Page :: p in Rebuilt(frames) <==> Wanted(db, ranges, p)
  }

  lemma SentDelivers(r: Option<Record>, version: u64, ranges: seq<Range>, perFrame: nat, out: FetchOutcome)
    requires perFrame > 0 && ComesTo(r, version, ranges, perFrame, out) && out.Sent? && ranges != []
    ensures r.Some? && Delivers(r.value, ranges, out.frames)
  {
    var runs: seq<seq<Bytes>> :| AnswersFirst(r, version, ranges, runs) && Fetched(ranges, runs) &&
                                 out.frames == Frames(ranges, runs, perFrame, |ranges|);
    FramesRebuild(ranges, runs, perFrame, |ranges|);
    assert Answer(r, version, ranges[0]) == Reply.Pages(runs[0]);
    forall p: Page ensures p in Rebuilt(out.frames) <==> Wanted(r.value, ranges, p) {
      PageDelivered(r, version, ranges, runs, p);
    }
  }

  lemma PageDelivered(r: Option<Record>, version: u64, ranges: seq<Range>, runs: seq<seq<Bytes>>, p: Page)
    requires r.Some? && AnswersFirst(r, version, ranges, runs) && Fetched(ranges, runs)
    ensures p in Requested(ranges, runs, |ranges|) <==> Wanted(r.value, ranges, p)
  {
    RequestedHas(ranges, runs, |ranges|, p);
    forall m | 0 <= m < |ranges| && Inside(ranges[m], p.index)
      ensures 0 <= p.index <= MAX64 && runs[m][p.index - ranges[m].first] == Read(r.value, p.index)
    {
      assert Answer(r, version, ranges[m]) == Reply.Pages(runs[m]);
      assert runs[m] == ReadRange(r.value, ranges[m].first, ranges[m].count);
    }
  }

  /** The store calls of the request, at positions `at` of a run of the store, with any other calls between them. */
  ghost predicate AsksRanges(run: Run, k: Key, version: u64, ranges: seq<Range>, at: seq<nat>)
    requires IsRun(run)
  {
    && |at| == |ranges| > 0 && FetchesOne(run, k, version, at)
    && forall n :: 0 <= n < |at| ==> run.events[at[n]] == Memory.Fetch(k, version, ranges[n].first, ranges[n].count)
  }

  /** If a fetch is answered with frames, they hold exactly the requested blocks of one snapshot of the database, at
      their indexes; and the ranges were sorted and disjoint, although the check alone does not ensure it. */
  lemma AnswerIsOneSnapshot(run: Run, k: Key, version: u64, ranges: seq<Range>, at: seq<nat>,
                            runs: seq<seq<Bytes>>, perFrame: nat)
    requires History(run) && AsksRanges(run, k, version, ranges, at) && Kept(run, k, at[0], at[|at| - 1])
    requires NoOverlap(ranges) && perFrame > 0
    requires |runs| == |ranges| && forall n :: 0 <= n < |at| ==> run.replies[at[n]] == Reply.Pages(runs[n])
    ensures Fetched(ranges, runs) && SortedDisjoint(ranges)
    ensures Rebuilt(Frames(ranges, runs, perFrame, |ranges|)) == Requested(ranges, runs, |ranges|)
    ensures forall n :: 0 <= n < |ranges| ==>
              && ranges[n].first + ranges[n].count <= run.states[at[0]].dbs[k].state.pageCount
              && runs[n] == ReadRange(run.states[at[0]].dbs[k], ranges[n].first, ranges[n].count)
  {
    forall n | 0 <= n < |ranges|
      ensures ranges[n].first + ranges[n].count <= run.states[at[0]].dbs[k].state.pageCount
      ensures runs[n] == ReadRange(run.states[at[0]].dbs[k], ranges[n].first, ranges[n].count)
    {
      FetchesReadOneSnapshot(run, k, version, at, n);
    }
    CheckIsExact(ranges);
    FramesRebuild(ranges, runs, perFrame, |ranges|);
  }
}
