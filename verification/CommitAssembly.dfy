/** internal/protocol/connection.go, commit: a commit arrives in parts, one frame each, and only the last part makes the
    connection call the store. */
module CommitAssembly {
  import opened Basics
  import opened Store

  datatype Header = Header(commitID: Bytes, leaseEpoch: u64, baseVersion: u64, pageCount: u64)
  datatype Frame = Frame(header: Header, blocks: seq<Block>, more: bool, part: u32)
  datatype Pending = Pending(header: Header, nextPart: u32, blocks: seq<Block>, size: u64)
  datatype Outcome =
    | BadCommitID
    | NotContinuing
    | TooLarge
    | Waiting                                       // more parts follow, no answer yet
    | Issue(header: Header, blocks: seq<Block>)     // the store call

  function DataSize(blocks: seq<Block>): nat {
    if blocks == [] then 0 else DataSize(blocks[..|blocks| - 1]) + |blocks[|blocks| - 1].data|
  }

  function Wrap64(n: nat): u64 { n % (MAX64 + 1) }

  function Inc32(n: u32): u32 { if n == MAX32 then 0 else n + 1 }

  function Accept(p: Pending, f: Frame, limit: u64): (Option<Pending>, Outcome) {
    var q := Pending(p.header, Inc32(p.nextPart), p.blocks + f.blocks, Wrap64(p.size + DataSize(f.blocks)));
    if q.size > limit then (None, TooLarge)
    else if f.more then (Some(q), Waiting)
    else (None, Issue(q.header, q.blocks))
  }

  /** One Commit frame for an open database with pending commit `p`. */
  function Feed(p: Option<Pending>, f: Frame, limit: u64): (Option<Pending>, Outcome) {
    if |f.header.commitID| != COMMIT_ID_BYTES then (None, BadCommitID)
    else if f.part == 0 then Accept(Pending(f.header, 0, [], 0), f, limit)
    else if p.None? || f.part != p.value.nextPart || p.value.header != f.header then (None, NotContinuing)
    else Accept(p.value, f, limit)
  }

  /** What is pending after the frames `fs`, all Commit frames for the database since it was opened. */
  function PendingAfter(fs: seq<Frame>, limit: u64): Option<Pending> {
    if fs == [] then None else Feed(PendingAfter(fs[..|fs| - 1], limit), fs[|fs| - 1], limit).0
  }

  /** What the last of the frames does. */
  function LastOutcome(fs: seq<Frame>, limit: u64): Outcome
    requires fs != []
  {
    Feed(PendingAfter(fs[..|fs| - 1], limit), fs[|fs| - 1], limit).1
  }

  // ---- what the protocol promises ----

  function AllBlocks(fs: seq<Frame>, i: nat, j: nat): seq<Block>
    requires i <= j <= |fs|
    decreases j
  {
    if i == j then [] else AllBlocks(fs, i, j - 1) + fs[j - 1].blocks
  }

  function Total(fs: seq<Frame>, i: nat, j: nat): nat
    requires i <= j <= |fs|
    decreases j
  {
    if i == j then 0 else Total(fs, i, j - 1) + DataSize(fs[j - 1].blocks)
  }

  /** The frames from `i` to the end are the parts 0, 1, 2, ... of one commit, with the same header, and all but perhaps
      the last announce more. */
  predicate Consecutive(fs: seq<Frame>, i: nat)
    requires i < |fs|
  {
    && |fs[i].header.commitID| == COMMIT_ID_BYTES
    && (forall j :: i <= j < |fs| ==> fs[j].part == j - i && fs[j].header == fs[i].header)
    && (forall j :: i <= j < |fs| - 1 ==> fs[j].more)
  }

  /** And each prefix of them is within the limit, as the uint64 sum shows it. */
  predicate PartsFrom(fs: seq<Frame>, i: nat, limit: u64)
    requires i < |fs|
  {
    Consecutive(fs, i) && forall j :: i < j <= |fs| ==> Wrap64(Total(fs, i, j)) <= limit
  }

  /** Where the commit of the last frame would have started, by its part number. */
  function Start(fs: seq<Frame>): int
    requires fs != []
  {
    |fs| - 1 - fs[|fs| - 1].part
  }

  predicate Good(fs: seq<Frame>, limit: u64) {
    fs != [] && Start(fs) >= 0 && PartsFrom(fs, Start(fs), limit)
  }

  lemma {:induction false} PrefixSums(fs: seq<Frame>, i: nat, j: nat, n: nat)
    requires i <= j <= n <= |fs|
    ensures Total(fs[..n], i, j) == Total(fs, i, j) && AllBlocks(fs[..n], i, j) == AllBlocks(fs, i, j)
    decreases j
  {
    if i < j { PrefixSums(fs, i, j - 1, n); }
  }

  /** Dropping the last of several good parts leaves good parts, all of which announce more. */
  lemma GoodPrefix(fs: seq<Frame>, limit: u64)
    requires Good(fs, limit) && fs[|fs| - 1].part > 0
    ensures var init := fs[..|fs| - 1];
            Good(init, limit) && Start(init) == Start(fs) && init[|init| - 1].more
  {
    var n := |fs| - 1;
    var init, i := fs[..n], Start(fs);
    assert fs[n - 1].part == n - 1 - i;
    forall j | i < j <= n ensures Wrap64(Total(init, i, j)) <= limit { PrefixSums(fs, i, j, n); }
  }

  /** Adding the next part to good parts that announce more. */
  lemma GoodNext(fs: seq<Frame>, limit: u64)
    requires |fs| > 1
    requires var init, last := fs[..|fs| - 1], fs[|fs| - 1];
             Good(init, limit) && init[|init| - 1].more && last.part == |init| - Start(init)
             && last.header == fs[Start(init)].header
    ensures Start(fs) == Start(fs[..|fs| - 1])
    ensures Good(fs, limit) <==> Wrap64(Total(fs, Start(fs), |fs|)) <= limit
  {
    var n := |fs| - 1;
    var init, i := fs[..n], Start(fs);
    forall j | i < j <= n ensures Wrap64(Total(fs, i, j)) <= limit { PrefixSums(fs, i, j, n); }
    forall j | i <= j < |fs| ensures fs[j].part == j - i && fs[j].header == fs[i].header {
      if j < n { assert init[j] == fs[j]; }
    }
    forall j | i <= j < n ensures fs[j].more {
      assert init[j] == fs[j];
    }
  }

  /** The pending commit of good parts that announce more. */
  function Collected(fs: seq<Frame>, i: nat, n: nat, nextPart: u32): Pending
    requires i < n <= |fs| || i == n < |fs|
  {
    Pending(fs[i].header, nextPart, AllBlocks(fs, i, n), Wrap64(Total(fs, i, n)))
  }

  lemma WrapAdd(a: nat, b: nat)
    ensures Wrap64(Wrap64(a) + b) == Wrap64(a + b)
  {
  }

  lemma AcceptNext(fs: seq<Frame>, i: nat, nextPart: u32, limit: u64)
    requires i < |fs|
    ensures Accept(Collected(fs, i, |fs| - 1, nextPart), fs[|fs| - 1], limit)
            == if Wrap64(Total(fs, i, |fs|)) > limit then (None, TooLarge)
               else if fs[|fs| - 1].more then (Some(Collected(fs, i, |fs|, Inc32(nextPart))), Waiting)
               else (None, Issue(fs[i].header, AllBlocks(fs, i, |fs|)))
  {
    WrapAdd(Total(fs, i, |fs| - 1), DataSize(fs[|fs| - 1].blocks));
  }

  /** What Feed answers to the last of the frames, in terms of the frames alone. */
  ghost predicate FeedsParts(fs: seq<Frame>, limit: u64)
    requires fs != []
  {
    var (p, out) := Feed(PendingAfter(fs[..|fs| - 1], limit), fs[|fs| - 1], limit);
    if !Good(fs, limit) then p.None? && !out.Issue? && !out.Waiting?
    else
      var i: nat := Start(fs);
      (p, out) == if fs[|fs| - 1].more
                  then (Some(Collected(fs, i, |fs|, Inc32(|fs| - 1 - i))), Waiting)
                  else (None, Issue(fs[i].header, AllBlocks(fs, i, |fs|)))
  }

  lemma FirstPart(fs: seq<Frame>, limit: u64)
    requires fs != []
    requires |fs[|fs| - 1].header.commitID| == COMMIT_ID_BYTES && fs[|fs| - 1].part == 0
    ensures FeedsParts(fs, limit)
  {
    var n := |fs| - 1;
    assert Start(fs) == n && Total(fs, n, n) == 0 && AllBlocks(fs, n, n) == [];
    assert Good(fs, limit) <==> Wrap64(Total(fs, n, n + 1)) <= limit;
    AcceptNext(fs, n, 0, limit);
  }

  /** The last frame continues the pending commit. */
  lemma NextPart(fs: seq<Frame>, limit: u64)
    requires |fs| > 1
    requires Good(fs[..|fs| - 1], limit) && fs[|fs| - 2].more
    requires var i: nat := Start(fs[..|fs| - 1]);
             && PendingAfter(fs[..|fs| - 1], limit) == Some(Collected(fs[..|fs| - 1], i, |fs| - 1, Inc32(|fs| - 2 - i)))
             && fs[|fs| - 1].header == fs[i].header && |fs[i].header.commitID| == COMMIT_ID_BYTES
             && fs[|fs| - 1].part == Inc32(|fs| - 2 - i) != 0
    ensures FeedsParts(fs, limit)
  {
    var n := |fs| - 1;
    var i: nat := Start(fs[..n]);
    GoodNext(fs, limit);
    PrefixSums(fs, i, n, n);
    AcceptNext(fs, i, n - i, limit);
  }

  lemma {:induction false} FeedIsParts(fs: seq<Frame>, limit: u64)
    requires fs != []
    ensures FeedsParts(fs, limit)
    decreases |fs|
  {
    var n := |fs| - 1;
    var init, last := fs[..n], fs[n];
    if |last.header.commitID| == COMMIT_ID_BYTES && last.part == 0 {
      FirstPart(fs, limit);
    } else {
      if n > 0 { FeedIsParts(init, limit); }
      if Good(fs, limit) { GoodParts(fs, limit); }
      var p := PendingAfter(init, limit);
      if p.Some? && last.part == p.value.nextPart && p.value.header == last.header && last.part > 0 {
        NextPart(fs, limit);
      }
    }
  }

  /** In good parts the last one is not part 0 only if it directly follows good parts with its header. */
  lemma GoodParts(fs: seq<Frame>, limit: u64)
    requires Good(fs, limit)
    ensures |fs[|fs| - 1].header.commitID| == COMMIT_ID_BYTES
    ensures fs[|fs| - 1].part > 0 ==>
              var init := fs[..|fs| - 1];
              && |fs| > 1 && Good(init, limit) && init[|init| - 1].more && Start(init) == Start(fs)
              && fs[Start(fs)].header == fs[|fs| - 1].header
  {
    assert fs[|fs| - 1].header == fs[Start(fs)].header;
    if fs[|fs| - 1].part > 0 { GoodPrefix(fs, limit); }
  }

  /** The store is called exactly when the last frame completes the parts 0 to n of one commit, sent in consecutive
      frames with one header and within the limit. The call carries that header and exactly the blocks of all parts in
      order. Nothing else, no lost, repeated or foreign part, ever completes a commit, whatever the limit is and also
      when part numbers or the sum of the sizes wrap. */
  lemma NoPartialCommit(fs: seq<Frame>, limit: u64)
    requires fs != []
    ensures LastOutcome(fs, limit).Issue?
            <==> Start(fs) >= 0 && PartsFrom(fs, Start(fs), limit) && !fs[|fs| - 1].more
    ensures LastOutcome(fs, limit).Issue? ==>
              && LastOutcome(fs, limit).header == fs[Start(fs)].header
              && LastOutcome(fs, limit).blocks == AllBlocks(fs, Start(fs), |fs|)
  {
    FeedIsParts(fs, limit);
  }

  /** The last frame completes a commit. */
  predicate Completes(fs: seq<Frame>, limit: u64) {
    Good(fs, limit) && !fs[|fs| - 1].more
  }

  lemma {:induction false} AllBlocksHas(fs: seq<Frame>, i: nat, j: nat, m: nat, b: Block)
    requires i <= m < j <= |fs| && b in fs[m].blocks
    ensures b in AllBlocks(fs, i, j)
    decreases j
  {
    if m < j - 1 { AllBlocksHas(fs, i, j - 1, m, b); }
  }

  /** The last frame continues good parts, or starts new ones, and with it they are too large. */
  predicate Exceeds(fs: seq<Frame>, limit: u64) {
    && fs != [] && Start(fs) >= 0 && Consecutive(fs, Start(fs)) && Wrap64(Total(fs, Start(fs), |fs|)) > limit
    && forall j :: Start(fs) < j < |fs| ==> Wrap64(Total(fs, Start(fs), j)) <= limit
  }

  lemma GoodBefore(fs: seq<Frame>, limit: u64)
    requires Exceeds(fs, limit) && fs[|fs| - 1].part > 0
    ensures var init := fs[..|fs| - 1];
            Good(init, limit) && Start(init) == Start(fs) && init[|init| - 1].more
  {
    var n := |fs| - 1;
    var init, i := fs[..n], Start(fs);
    assert fs[n - 1].part == n - 1 - i;
    forall j | i < j <= n ensures Wrap64(Total(init, i, j)) <= limit { PrefixSums(fs, i, j, n); }
  }

  lemma TooLargeNext(fs: seq<Frame>, limit: u64)
    requires |fs| > 1
    requires Good(fs[..|fs| - 1], limit) && fs[|fs| - 2].more
    requires var i: nat := Start(fs[..|fs| - 1]);
             fs[|fs| - 1].part == |fs| - 1 - i && fs[|fs| - 1].header == fs[i].header
    ensures Exceeds(fs, limit) <==> !Good(fs, limit)
  {
    GoodNext(fs, limit);
    var n, i: nat := |fs| - 1, Start(fs);
    forall j | i < j < |fs| ensures Wrap64(Total(fs, i, j)) <= limit { PrefixSums(fs, i, j, n); }
    forall j | i <= j < |fs| ensures fs[j].part == j - i && fs[j].header == fs[i].header {
      if j < n { assert fs[..n][j] == fs[j]; }
    }
    forall j | i <= j < n ensures fs[j].more {
      assert fs[..n][j] == fs[j];
    }
  }

  lemma ExceedsFirst(fs: seq<Frame>, limit: u64)
    requires fs != [] && fs[|fs| - 1].part == 0 && |fs[|fs| - 1].header.commitID| == COMMIT_ID_BYTES
    ensures LastOutcome(fs, limit).TooLarge? <==> Exceeds(fs, limit)
  {
    var n := |fs| - 1;
    assert Total(fs, n, n) == 0 && Total(fs, n, n + 1) == DataSize(fs[n].blocks);
  }

  lemma ExceedsNext(fs: seq<Frame>, limit: u64)
    requires fs != [] && fs[|fs| - 1].part > 0 && |fs[|fs| - 1].header.commitID| == COMMIT_ID_BYTES
    ensures LastOutcome(fs, limit).TooLarge? <==> Exceeds(fs, limit)
  {
    var init, last := fs[..|fs| - 1], fs[|fs| - 1];
    FeedIsParts(fs, limit);
    if init != [] { FeedIsParts(init, limit); }
    var p := PendingAfter(init, limit);
    if p.Some? && last.part == p.value.nextPart && p.value.header == last.header {
      TooLargeNext(fs, limit);
    }
    if Exceeds(fs, limit) {
      GoodBefore(fs, limit);
      assert fs[|fs| - 1].header == fs[Start(fs)].header;
    }
  }

  /** Why a frame gets no acknowledgement, in terms of the frames alone. What is none of these does not continue a
      commit. */
  lemma RejectedExactly(fs: seq<Frame>, limit: u64)
    requires fs != []
    ensures var out := LastOutcome(fs, limit);
            && (out.BadCommitID? <==> |fs[|fs| - 1].header.commitID| != 16)
            && (out.TooLarge? <==> Exceeds(fs, limit))
            && (out.Waiting? <==> Good(fs, limit) && fs[|fs| - 1].more)
  {
    FeedIsParts(fs, limit);
    if Good(fs, limit) { GoodParts(fs, limit); }
    if |fs[|fs| - 1].header.commitID| == COMMIT_ID_BYTES {
      if fs[|fs| - 1].part == 0 { ExceedsFirst(fs, limit); } else { ExceedsNext(fs, limit); }
    }
  }

  // ---- the size limit ----

  /** No addition of a frame's bytes wraps around. */
  predicate NoneWraps(fs: seq<Frame>, i: nat)
    requires i < |fs|
  {
    forall j :: i <= j < |fs| ==> Wrap64(Total(fs, i, j)) + DataSize(fs[j].blocks) <= MAX64
  }

  lemma WrapSmall(n: nat)
    ensures Wrap64(n) <= n && (n <= MAX64 ==> Wrap64(n) == n)
  {
  }

  lemma {:induction false} SumsExact(fs: seq<Frame>, i: nat, j: nat)
    requires i < |fs| && i <= j <= |fs| && NoneWraps(fs, i)
    ensures Total(fs, i, j) <= MAX64
    decreases j
  {
    if i < j {
      SumsExact(fs, i, j - 1);
      WrapSmall(Total(fs, i, j - 1));
      assert Wrap64(Total(fs, i, j - 1)) + DataSize(fs[j - 1].blocks) <= MAX64;
    }
  }

  /** Every prefix of the parts is within the limit in truth. */
  predicate TrulyWithin(fs: seq<Frame>, i: nat, limit: u64)
    requires i < |fs|
  {
    forall j :: i < j <= |fs| ==> Total(fs, i, j) <= limit
  }

  /** The parts that pass the check of the sums are truly within the limit exactly if no addition wraps. */
  lemma LimitHolds(fs: seq<Frame>, i: nat, limit: u64)
    requires i < |fs| && PartsFrom(fs, i, limit)
    ensures TrulyWithin(fs, i, limit) <==> NoneWraps(fs, i)
  {
    if NoneWraps(fs, i) {
      forall j | i < j <= |fs| ensures Total(fs, i, j) <= limit {
        SumsExact(fs, i, j);
        WrapSmall(Total(fs, i, j));
        assert Wrap64(Total(fs, i, j)) <= limit;
      }
    }
    if TrulyWithin(fs, i, limit) {
      forall j | i <= j < |fs| ensures Wrap64(Total(fs, i, j)) + DataSize(fs[j].blocks) <= MAX64 {
        WrapSmall(Total(fs, i, j));
        assert Total(fs, i, j + 1) <= limit;
      }
    }
  }

  /** The connection reads no frame larger than MaxFrameBytes, a uint32, so no frame carries more data. */
  predicate ReadWithin(fs: seq<Frame>, maxFrame: u32) {
    forall j :: 0 <= j < |fs| ==> DataSize(fs[j].blocks) <= maxFrame
  }

  lemma {:induction false} TotalAtMost(fs: seq<Frame>, i: nat, j: nat, maxFrame: u32)
    requires i <= j <= |fs| && ReadWithin(fs, maxFrame)
    ensures Total(fs, i, j) <= (j - i) * maxFrame
    decreases j
  {
    if i < j {
      TotalAtMost(fs, i, j - 1, maxFrame);
      assert (j - 1 - i) * maxFrame + maxFrame == (j - i) * maxFrame;
    }
  }

  lemma FewParts(parts: nat, maxFrame: u32)
    requires parts <= MAX32 + 1
    ensures parts * maxFrame <= MAX64
  {
    var rest: nat := MAX32 + 1 - parts;
    assert (MAX32 + 1) * maxFrame == parts * maxFrame + rest * maxFrame;
    assert rest * maxFrame >= 0;
  }

  /** Part numbers are uint32, so a commit has at most 2^32 parts, and the sum of their sizes stays below 2^64. */
  lemma SumFits(fs: seq<Frame>, i: nat, j: nat, maxFrame: u32)
    requires i < |fs| && i <= j <= |fs| && ReadWithin(fs, maxFrame)
    requires forall m :: i <= m < |fs| ==> fs[m].part == m - i
    ensures Total(fs, i, j) <= MAX64
  {
    if i < j {
      assert fs[j - 1].part == j - 1 - i;
      TotalAtMost(fs, i, j, maxFrame);
      FewParts(j - i, maxFrame);
    }
  }

  /** So no addition wraps, and the parts of a commit are truly within the limit, whatever the limit is. */
  lemma NeverWraps(fs: seq<Frame>, i: nat, limit: u64, maxFrame: u32)
    requires i < |fs| && PartsFrom(fs, i, limit) && ReadWithin(fs, maxFrame)
    ensures NoneWraps(fs, i) && TrulyWithin(fs, i, limit)
  {
    forall j | i <= j < |fs| ensures Wrap64(Total(fs, i, j)) + DataSize(fs[j].blocks) <= MAX64 {
      SumFits(fs, i, j + 1, maxFrame);
      WrapSmall(Total(fs, i, j));
    }
    LimitHolds(fs, i, limit);
  }

  lemma TrulyWithinPasses(fs: seq<Frame>, i: nat, limit: u64)
    requires i < |fs| && Consecutive(fs, i) && TrulyWithin(fs, i, limit)
    ensures PartsFrom(fs, i, limit)
  {
    forall j | i < j <= |fs| ensures Wrap64(Total(fs, i, j)) <= limit {
      WrapSmall(Total(fs, i, j));
      assert Total(fs, i, j) <= limit;
    }
  }

  /** For all frames that a connection can read and every limit: the store is called exactly when the last frame completes
      the parts 0 to n of one commit, in consecutive frames with one header, whose true size is within the limit, and
      was so after every part; and the call carries exactly the blocks of all parts in order. */
  lemma CommitsWithinLimit(fs: seq<Frame>, limit: u64, maxFrame: u32)
    requires fs != [] && ReadWithin(fs, maxFrame)
    ensures LastOutcome(fs, limit).Issue?
            <==> && Start(fs) >= 0 && Consecutive(fs, Start(fs)) && TrulyWithin(fs, Start(fs), limit)
                 && !fs[|fs| - 1].more
    ensures LastOutcome(fs, limit).Issue? ==>
              && LastOutcome(fs, limit).header == fs[Start(fs)].header
              && LastOutcome(fs, limit).blocks == AllBlocks(fs, Start(fs), |fs|)
              && Total(fs, Start(fs), |fs|) <= limit
  {
    NoPartialCommit(fs, limit);
    if Start(fs) >= 0 {
      if PartsFrom(fs, Start(fs), limit) { NeverWraps(fs, Start(fs), limit, maxFrame); }
      if Consecutive(fs, Start(fs)) && TrulyWithin(fs, Start(fs), limit) { TrulyWithinPasses(fs, Start(fs), limit); }
    }
  }
}
