/** internal/protocol/connection.go as objects over the memory store: the handlers that update an open database in place.
    The answers sent to the client are the results. */
module Connection {
  import opened Basics
  import opened Store
  import Memory
  import Runs
  import opened CommitAssembly
  import opened FetchFrames
  import FrameSize
  import LastWrite
  import MemoryStore
  import KeepAlive

  class OpenDB {
    const key: Key
    const epoch: u64
    const pageSize: u32
    var pending: Option<Pending>
    var renewed: int
    /** The Commit frames for this database since it was opened. */
    ghost var frames: seq<Frame>

    constructor (key: Key, epoch: u64, pageSize: u32, now: int)
      ensures this.key == key && this.epoch == epoch && this.pageSize == pageSize && renewed == now
      ensures pending == None && frames == []
    {
      this.key, this.epoch, this.pageSize, renewed, pending, frames := key, epoch, pageSize, now, None, [];
    }

    /** The pending commit is what the frames so far leave pending. */
    ghost predicate InStep(limit: u64)
      reads this`pending, this`frames
    {
      pending == PendingAfter(frames, limit)
    }

    /** commit, up to the store call. */
    method Assemble(f: Frame, limit: u64) returns (out: Outcome)
      requires InStep(limit)
      modifies this`pending, this`frames
      ensures frames == old(frames) + [f] && InStep(limit)
      ensures out == LastOutcome(frames, limit)
    {
      frames := frames + [f];
      assert frames[..|frames| - 1] == old(frames);
      if |f.header.commitID| != COMMIT_ID_BYTES {
        pending := None;
        return BadCommitID;
      }
      var p;
      if f.part == 0 {
        p := Pending(f.header, 0, [], 0);
      } else if pending == None || f.part != pending.value.nextPart || pending.value.header != f.header {
        pending := None;
        return NotContinuing;
      } else {
        p := pending.value;
      }
      p := Collect(p, f);
      if p.size > limit {
        pending := None;
        return TooLarge;
      }
      if f.more {
        pending := Some(p);
        return Waiting;
      }
      pending := None;
      return Issue(p.header, p.blocks);
    }
  }

  /** Adds the blocks of a frame to the pending commit, one by one. */
  method Collect(p: Pending, f: Frame) returns (q: Pending)
    ensures q == Pending(p.header, Inc32(p.nextPart), p.blocks + f.blocks, Wrap64(p.size + DataSize(f.blocks)))
  {
    var size, blocks := p.size, p.blocks;
    var n := 0;
    while n < |f.blocks|
      invariant n <= |f.blocks| && blocks == p.blocks + f.blocks[..n]
      invariant size == Wrap64(p.size + DataSize(f.blocks[..n]))
    {
      assert f.blocks[..n + 1][..n] == f.blocks[..n];
      WrapAdd(p.size + DataSize(f.blocks[..n]), |f.blocks[n].data|);
      size := Wrap64(size + |f.blocks[n].data|);
      blocks := blocks + [f.blocks[n]];
      n := n + 1;
    }
    assert f.blocks[..n] == f.blocks;
    return Pending(p.header, Inc32(p.nextPart), blocks, size);
  }

  // ---- ping ----

  /** What the connection remembers about the lease of an open database. */
  datatype Held = Held(epoch: u64, renewed: int)

  /** A ping extends this lease: that is due, and the lease is still held. */
  predicate Renews(s: Memory.StoreState, k: Key, h: Held, now: int, ttl: int) {
    KeepAlive.RenewDue(h.renewed, now, ttl) && k in s.dbs && Memory.Holds(s.dbs[k], h.epoch)
  }

  function Renewed(s: Memory.StoreState, k: Key, until: int): Memory.StoreState
    requires k in s.dbs
  {
    s.(dbs := s.dbs[k := s.dbs[k].(expiresAt := until)])
  }

  lemma RenewStep(s: Memory.StoreState, k: Key, epoch: u64, now: int, ttl: int)
    ensures var (s', reply) := Memory.Step(s, Memory.Renew(k, epoch, now, ttl));
            if k in s.dbs && Memory.Holds(s.dbs[k], epoch) then s' == Renewed(s, k, now + ttl) && reply == Done
            else s' == s && reply.Failed?
  {
    if k in s.dbs { assert s.dbs[k := s.dbs[k]] == s.dbs; }
  }

  /** The records after a ping has looked at all open databases but those `left`. */
  function PingedStore(s: Memory.StoreState, subject: string, opens: map<string, Held>, left: set<string>,
                       now: int, ttl: int): Memory.StoreState
  {
    s.(dbs := map k | k in s.dbs ::
         if k.subject == subject && k.dbid in opens && k.dbid !in left && Renews(s, k, opens[k.dbid], now, ttl)
         then s.dbs[k].(expiresAt := now + ttl) else s.dbs[k])
  }

  /** The leases of the connection after that. */
  function PingedOpens(s: Memory.StoreState, subject: string, opens: map<string, Held>, left: set<string>,
                       now: int, ttl: int): map<string, Held>
  {
    map d | d in opens ::
      if d !in left && Renews(s, Key(subject, d), opens[d], now, ttl) then opens[d].(renewed := now) else opens[d]
  }

  lemma PingedNone(s: Memory.StoreState, subject: string, opens: map<string, Held>, now: int, ttl: int)
    ensures PingedStore(s, subject, opens, opens.Keys, now, ttl) == s
    ensures PingedOpens(s, subject, opens, opens.Keys, now, ttl) == opens
  {
    assert PingedStore(s, subject, opens, opens.Keys, now, ttl).dbs == s.dbs;
  }

  /** One open database of a ping. */
  function RoundStore(s: Memory.StoreState, k: Key, h: Held, now: int, ttl: int): Memory.StoreState {
    if Renews(s, k, h, now, ttl) then Renewed(s, k, now + ttl) else s
  }

  function RoundOpens(s: Memory.StoreState, subject: string, opens: map<string, Held>, d: string, now: int, ttl: int)
    : map<string, Held>
    requires d in opens
  {
    if Renews(s, Key(subject, d), opens[d], now, ttl) then opens[d := opens[d].(renewed := now)] else opens
  }

  lemma PingedNext(s: Memory.StoreState, subject: string, opens: map<string, Held>, left: set<string>, d: string,
                   now: int, ttl: int)
    requires d in opens && d in left
    ensures var store, held := PingedStore(s, subject, opens, left, now, ttl),
                               PingedOpens(s, subject, opens, left, now, ttl);
            && PingedStore(s, subject, opens, left - {d}, now, ttl) == RoundStore(store, Key(subject, d), held[d], now, ttl)
            && PingedOpens(s, subject, opens, left - {d}, now, ttl) == RoundOpens(store, subject, held, d, now, ttl)
  {
    var store, k := PingedStore(s, subject, opens, left, now, ttl), Key(subject, d);
    var store' := PingedStore(s, subject, opens, left - {d}, now, ttl);
    assert PingedOpens(s, subject, opens, left, now, ttl)[d] == opens[d];
    if Renews(s, k, opens[d], now, ttl) {
      assert store'.dbs == store.dbs[k := store.dbs[k].(expiresAt := now + ttl)];
    } else {
      assert store'.dbs == store.dbs;
    }
  }

  // ---- the clients of KeepAlive ----

  /** The round for a database is a ping of its client. */
  lemma RoundIsPing(s: Memory.StoreState, k: Key, h: Held, c: KeepAlive.Client, now: int, ttl: int)
    requires c.epoch == h.epoch && c.renewed == h.renewed
    ensures KeepAlive.After(k, ttl, KeepAlive.System(s, c), KeepAlive.Ping(now)).0
            == KeepAlive.System(RoundStore(s, k, h, now, ttl),
                                KeepAlive.Client(h.epoch, if Renews(s, k, h, now, ttl) then now else h.renewed, now, now))
  {
    RenewStep(s, k, h.epoch, now, ttl);
  }

  /** The round for another database is nothing to the client, or a call that it allows others to make. */
  lemma RoundIsOther(s: Memory.StoreState, k: Key, other: Key, h: Held, c: KeepAlive.Client, now: int, ttl: int)
    requires other != k
    ensures var renewal := KeepAlive.Other(Memory.Renew(other, h.epoch, now, ttl), now);
            if KeepAlive.RenewDue(h.renewed, now, ttl) then
              && KeepAlive.Allowed(k, ttl, KeepAlive.System(s, c), renewal)
              && KeepAlive.After(k, ttl, KeepAlive.System(s, c), renewal).0.store == RoundStore(s, other, h, now, ttl)
            else RoundStore(s, other, h, now, ttl) == s
  {
    RenewStep(s, other, h.epoch, now, ttl);
  }

  /** The store call that completes a commit is a commit of the client; the connection notes the same renewal time. */
  lemma IssuedIsFrame(s: Memory.StoreState, q: CommitRequest, c: KeepAlive.Client, s': Memory.StoreState, reply: Reply)
    requires Memory.Step(s, Memory.Commit(q)) == (s', reply)
    ensures var (sys, answer) := KeepAlive.After(q.key, q.ttl, KeepAlive.System(s, c), KeepAlive.CommitFrame(q));
            && sys.store == s' && answer == reply
            && sys.client.renewed == (if reply.Failed? then c.renewed else q.now)
  {
  }

  /** So it keeps the lease alive, as the other handlers that call the store do. */
  lemma CommitKeepsAlive(s: Memory.StoreState, q: CommitRequest, c: KeepAlive.Client, s': Memory.StoreState, reply: Reply,
                         pingInterval: int)
    requires Memory.Step(s, Memory.Commit(q)) == (s', reply) && KeepAlive.ValidTimes(q.ttl, pingInterval)
    requires KeepAlive.Alive(q.key, q.ttl, KeepAlive.System(s, c))
    requires KeepAlive.InTime(c, KeepAlive.CommitFrame(q), pingInterval)
    ensures var c' := if reply.Failed? then c.(clock := q.now) else KeepAlive.Client(c.epoch, q.now, q.now, q.now);
            KeepAlive.Alive(q.key, q.ttl, KeepAlive.System(s', c'))
  {
    KeepAlive.StepAlive(q.key, q.ttl, pingInterval, KeepAlive.System(s, c), KeepAlive.CommitFrame(q));
    IssuedIsFrame(s, q, c, s', reply);
  }

  /** So a ping keeps the lease of every client of the connection alive that was alive and in time. */
  lemma PingKeepsAlive(s: Memory.StoreState, subject: string, opens: map<string, Held>, d: string, c: KeepAlive.Client,
                       now: int, ttl: int, pingInterval: int)
    requires d in opens && c.epoch == opens[d].epoch && c.renewed == opens[d].renewed
    requires KeepAlive.ValidTimes(ttl, pingInterval) && KeepAlive.Alive(Key(subject, d), ttl, KeepAlive.System(s, c))
    requires KeepAlive.InTime(c, KeepAlive.Ping(now), pingInterval)
    ensures var h := PingedOpens(s, subject, opens, {}, now, ttl)[d];
            KeepAlive.Alive(Key(subject, d), ttl,
              KeepAlive.System(PingedStore(s, subject, opens, {}, now, ttl),
                               KeepAlive.Client(h.epoch, h.renewed, now, now)))
  {
    var k := Key(subject, d);
    assert KeepAlive.RenewDue(c.renewed, now, ttl) <==> Renews(s, k, opens[d], now, ttl);
    assert PingedStore(s, subject, opens, {}, now, ttl).dbs[k]
        == if Renews(s, k, opens[d], now, ttl) then s.dbs[k].(expiresAt := now + ttl) else s.dbs[k];
  }

  lemma FetchStep(s: Memory.StoreState, k: Key, version: u64, range: Range)
    ensures Memory.Step(s, Memory.Fetch(k, version, range.first, range.count))
            == (s, Answer(Lookup(s.dbs, k), version, range))
  {
    if k in s.dbs { assert s.dbs[k := s.dbs[k]] == s.dbs; }
  }

  /** Every block of the frames from `i` on reads back with its data. */
  ghost predicate ReadsBack(db: Memory.Record, fs: seq<Frame>, i: nat) {
    forall m, b :: i <= m < |fs| && b in fs[m].blocks ==> Memory.Read(db, b.index) == b.data
  }

  /** gone */
  function Gone(e: Error): Error { if e == NotFound then Fenced else e }

  function Told(reply: Reply): Reply { if reply.Failed? then Failed(Gone(reply.error)) else reply }

  datatype Result =
    | NotOpen
    | AlreadyOpen
    | Rejected(why: Outcome)
    | NoAnswer
    | Answered(reply: Reply)

  /** The store was called exactly if the frames end with a complete commit, for this database, with the header of its
      first part and the blocks of all its parts; and the lease counts as renewed exactly if that was acknowledged. */
  ghost predicate Answers(fs: seq<Frame>, limit: u64, key: Key, now: int, ttl: int, r: Result,
                          run: Runs.Run, run': Runs.Run, renewed: int, renewed': int)
    requires fs != []
  {
    if Completes(fs, limit) then
      var h, blocks := fs[Start(fs)].header, AllBlocks(fs, Start(fs), |fs|);
      var q := CommitRequest(key, h.commitID, h.leaseEpoch, h.baseVersion, h.pageCount, blocks, now, ttl);
      && r.Answered? && run'.states != [] && run'.replies != []
      && run' == Runs.Extend(run, Memory.Commit(q), Runs.Last(run'), run'.replies[|run'.replies| - 1])
      && Shows(run'.replies[|run'.replies| - 1], r.reply)
      && renewed' == if r.reply.Failed? then renewed else now
    else
      && r == (if CommitAssembly.Good(fs, limit) then NoAnswer else Rejected(LastOutcome(fs, limit)))
      && run' == run && renewed' == renewed
  }

  /** If the commit was applied, and not a repetition, every block of its frames reads back from the store. */
  ghost predicate Lands(fs: seq<Frame>, limit: u64, key: Key, r: Result, s: Memory.StoreState, s': Memory.StoreState) {
    Completes(fs, limit) && r.Answered? && r.reply.Committed? && key in s.dbs &&
    s.dbs[key].state.version == fs[Start(fs)].header.baseVersion ==>
      && key in s'.dbs && s'.dbs[key].state.pageCount == fs[Start(fs)].header.pageCount
      && ReadsBack(s'.dbs[key], fs, Start(fs))
  }

  lemma FramesLand(fs: seq<Frame>, limit: u64, q: CommitRequest, s: Memory.StoreState, s': Memory.StoreState, reply: Reply)
    requires Completes(fs, limit) && q.blocks == AllBlocks(fs, Start(fs), |fs|)
    requires q.baseVersion == fs[Start(fs)].header.baseVersion && q.pageCount == fs[Start(fs)].header.pageCount
    requires Memory.Step(s, Memory.Commit(q)) == (s', reply)
    ensures Lands(fs, limit, q.key, Answered(Told(reply)), s, s')
  {
    if reply.Committed? && q.key in s.dbs && s.dbs[q.key].state.version == q.baseVersion {
      LastWrite.AppliedState(s, q, s', reply);
      forall m, b | Start(fs) <= m < |fs| && b in fs[m].blocks ensures Memory.Read(s'.dbs[q.key], b.index) == b.data {
        AllBlocksHas(fs, Start(fs), |fs|, m, b);
      }
    }
  }

  lemma NotIssued(fs: seq<Frame>, limit: u64, key: Key, now: int, ttl: int, out: Outcome, run: Runs.Run, renewed: int,
                  s: Memory.StoreState)
    requires fs != [] && out == LastOutcome(fs, limit)
    ensures out.Issue? <==> Completes(fs, limit)
    ensures out.Issue? ==> out.header == fs[Start(fs)].header && out.blocks == AllBlocks(fs, Start(fs), |fs|)
    ensures !out.Issue? ==>
              var r := if out.Waiting? then NoAnswer else Rejected(out);
              Answers(fs, limit, key, now, ttl, r, run, run, renewed, renewed) && Lands(fs, limit, key, r, s, s)
  {
    NoPartialCommit(fs, limit);
    RejectedExactly(fs, limit);
  }

  lemma Issued(fs: seq<Frame>, limit: u64, q: CommitRequest, reply: Reply, run: Runs.Run, run': Runs.Run,
               renewed: int, renewed': int)
    requires Completes(fs, limit) && q.blocks == AllBlocks(fs, Start(fs), |fs|)
    requires Header(q.commitID, q.leaseEpoch, q.baseVersion, q.pageCount) == fs[Start(fs)].header
    requires run'.states != [] && run' == Runs.Extend(run, Memory.Commit(q), Runs.Last(run'), reply)
    requires renewed' == if reply.Failed? then renewed else q.now
    ensures Answers(fs, limit, q.key, q.now, q.ttl, Answered(Told(reply)), run, run', renewed, renewed')
  {
  }

  class Conn {
    const st: MemoryStore.Storage
    const subject: string
    const owner: string
    const instance: Bytes
    const ttl: int
    const maxCommit: u64
    var dbs: map<string, OpenDB>

    constructor (st: MemoryStore.Storage, subject: string, owner: string, instance: Bytes, ttl: int, maxCommit: u64)
      ensures this.st == st && this.subject == subject && this.owner == owner && this.instance == instance
      ensures this.ttl == ttl && this.maxCommit == maxCommit && dbs == map[] && Valid()
    {
      this.st, this.subject, this.owner, this.instance := st, subject, owner, instance;
      this.ttl, this.maxCommit, dbs := ttl, maxCommit, map[];
    }

    ghost predicate Apart()
      reads this`dbs
    {
      forall c, d :: c in dbs && d in dbs && c != d ==> dbs[c] != dbs[d]
    }

    ghost predicate Valid()
      reads this`dbs, dbs.Values`pending, dbs.Values`frames
    {
      Apart() && forall d :: d in dbs ==> dbs[d].key == Key(subject, d) && dbs[d].InStep(maxCommit)
    }

    /** The store call of commit. */
    method Call(db: OpenDB, q: CommitRequest) returns (reply: Reply)
      requires st.Valid()
      modifies db`renewed, st`run, st.dbs.Values
      ensures st.Valid() && st.run == Runs.Extend(old(st.run), Memory.Commit(q), st.Contents(), reply)
      ensures Memory.Step(old(st.Contents()), Memory.Commit(q)) == (st.Contents(), reply)
      ensures db.renewed == if reply.Failed? then old(db.renewed) else q.now
    {
      reply := st.Commit(q);
      if !reply.Failed? { db.renewed := q.now; }
    }

    /** The store call for the frames of a complete commit. */
    method Issue(db: OpenDB, h: Header, blocks: seq<Block>, now: int) returns (reply: Reply)
      requires st.Valid() && Completes(db.frames, maxCommit)
      requires h == db.frames[Start(db.frames)].header && blocks == AllBlocks(db.frames, Start(db.frames), |db.frames|)
      modifies db`renewed, st`run, st.dbs.Values
      ensures st.Valid()
      ensures Answers(db.frames, maxCommit, db.key, now, ttl, Answered(reply),
                      old(st.run), st.run, old(db.renewed), db.renewed)
      ensures Lands(db.frames, maxCommit, db.key, Answered(reply), old(st.Contents()), st.Contents())
    {
      ghost var s, run, renewed := st.Contents(), st.run, db.renewed;
      var q := CommitRequest(db.key, h.commitID, h.leaseEpoch, h.baseVersion, h.pageCount, blocks, now, ttl);
      reply := Call(db, q);
      FramesLand(db.frames, maxCommit, q, s, st.Contents(), reply);
      Issued(db.frames, maxCommit, q, reply, run, st.run, renewed, db.renewed);
      reply := Told(reply);
    }

    /** The frame is handled, and what it completed is stored. */
    twostate predicate Handled(db: OpenDB, f: Frame, now: int, r: Result)
      reads db, st, st.dbs.Values
    {
      && db.frames == old(db.frames) + [f]
      && Answers(db.frames, maxCommit, db.key, now, ttl, r, old(st.run), st.run, old(db.renewed), db.renewed)
      && Lands(db.frames, maxCommit, db.key, r, old(st.Contents()), st.Contents())
    }

    method CommitTo(db: OpenDB, f: Frame, now: int) returns (r: Result)
      requires st.Valid() && db.InStep(maxCommit)
      modifies db, st`run, st.dbs.Values
      ensures st.Valid() && db.InStep(maxCommit) && Handled(db, f, now, r)
    {
      var out := db.Assemble(f, maxCommit);
      NotIssued(db.frames, maxCommit, db.key, now, ttl, out, st.run, db.renewed, st.Contents());
      if !out.Issue? {
        return if out.Waiting? then NoAnswer else Rejected(out);
      }
      var reply := Issue(db, out.header, out.blocks, now);
      return Answered(reply);
    }

    /** A Commit frame. */
    method Commit(dbID: string, f: Frame, now: int) returns (r: Result)
      requires Valid() && st.Valid()
      modifies if dbID in dbs then {dbs[dbID]} else {}, st`run, st.dbs.Values
      ensures Valid() && st.Valid()
      ensures if dbID in dbs then Handled(dbs[dbID], f, now, r) else r == NotOpen && st.run == old(st.run)
    {
      if dbID !in dbs { return NotOpen; }
      r := CommitTo(dbs[dbID], f, now);
    }

    // ---- fetch ----

    ghost function Stored(k: Key): Option<Memory.Record>
      reads st, st.dbs.Values
    {
      Lookup(st.Contents().dbs, k)
    }

    method Ask(k: Key, version: u64, range: Range) returns (reply: Reply)
      requires st.Valid()
      modifies st`run
      ensures st.Valid() && st.Contents() == old(st.Contents()) && reply == Answer(Stored(k), version, range)
    {
      FetchStep(st.Contents(), k, version, range);
      reply := st.Fetch(k, version, range.first, range.count);
    }

    /** Asks for one range after the other until the store fails. */
    method AskAll(k: Key, version: u64, ranges: seq<Range>) returns (runs: seq<seq<Bytes>>, failed: Option<Error>)
      requires st.Valid()
      modifies st`run
      ensures st.Valid() && st.Contents() == old(st.Contents())
      ensures AnswersFirst(Stored(k), version, ranges, runs)
      ensures failed.None? ==> Fetched(ranges, runs)
      ensures failed.Some? ==> |runs| < |ranges| && Answer(Stored(k), version, ranges[|runs|]) == Failed(failed.value)
    {
      runs, failed := [], None;
      while |runs| < |ranges|
        invariant st.Valid() && st.Contents() == old(st.Contents())
        invariant AnswersFirst(Stored(k), version, ranges, runs)
        invariant forall n :: 0 <= n < |runs| ==> |runs[n]| == ranges[n].count && ranges[n].first + ranges[n].count <= MAX64
        decreases |ranges| - |runs|
      {
        var n := |runs|;
        AnswerShape(Stored(k), version, ranges[n]);
        var reply := Ask(k, version, ranges[n]);
        if reply.Failed? { return runs, Some(reply.error); }
        runs := runs + [reply.blocks];
      }
    }

    /** fetch, once the ranges are known. */
    method FetchRanges(k: Key, version: u64, ranges: seq<Range>, perFrame: nat) returns (out: FetchOutcome)
      requires st.Valid() && perFrame > 0 && ranges != []
      modifies st`run
      ensures st.Valid() && st.Contents() == old(st.Contents())
      ensures ComesTo(Stored(k), version, ranges, perFrame, out)
    {
      if |ranges| > MAX_FETCH_RANGES { return TooManyRanges; }
      var bad := CheckOrder(ranges);
      if bad.Some? { return OutOfOrder(bad.value); }
      out := FetchSorted(k, version, ranges, perFrame);
    }

    /** fetch, after the checks. */
    method FetchSorted(k: Key, version: u64, ranges: seq<Range>, perFrame: nat) returns (out: FetchOutcome)
      requires st.Valid() && perFrame > 0 && |ranges| <= MAX_FETCH_RANGES && NoOverlap(ranges)
      modifies st`run
      ensures st.Valid() && st.Contents() == old(st.Contents())
      ensures ComesTo(Stored(k), version, ranges, perFrame, out)
    {
      var runs, failed := AskAll(k, version, ranges);
      if failed.Some? {
        OneFailed(Stored(k), version, ranges, runs, Gone(failed.value), perFrame);
        return StoreFailed(Gone(failed.value));
      }
      AllAnswered(Stored(k), version, ranges, runs, perFrame);
      var frames := SendFrames(ranges, runs, perFrame);
      return Sent(frames);
    }

    /** A Fetch frame for an open database; None if the database is not open. A request without a list of ranges asks for
        the single range in its other fields. */
    method Fetch(dbID: string, version: u64, given: seq<Range>, single: Range, maxFrame: u32)
      returns (out: Option<FetchOutcome>)
      requires Valid() && st.Valid() && maxFrame >= FrameSize.MIN_MAX_FRAME_BYTES
      modifies st`run
      ensures st.Valid() && st.Contents() == old(st.Contents())
      ensures out.Some? <==> dbID in dbs
      ensures dbID in dbs && given != [] ==> Responds(dbID, version, given, maxFrame, out.value)
      ensures dbID in dbs && given == [] ==> Responds(dbID, version, [single], maxFrame, out.value)
    {
      if dbID !in dbs { return None; }
      var db := dbs[dbID];
      var ranges := given;
      if |ranges| == 0 { ranges := [single]; }
      var perFrame := FrameSize.BlocksPerFrame(maxFrame, db.pageSize);
      var r := FetchRanges(db.key, version, ranges, perFrame);
      if r.Sent? { SentDelivers(Stored(db.key), version, ranges, perFrame, r); }
      return Some(r);
    }

    /** The outcome is what these ranges of the database come to; if frames were sent, the client has exactly the blocks
        of the ranges, as they are stored. */
    ghost predicate Responds(dbID: string, version: u64, ranges: seq<Range>, maxFrame: u32, out: FetchOutcome)
      requires dbID in dbs && maxFrame >= FrameSize.MIN_MAX_FRAME_BYTES
      reads this`dbs, st, st.dbs.Values
    {
      var r := Stored(Key(subject, dbID));
      && ComesTo(r, version, ranges, FrameSize.BlocksPerFrame(maxFrame, dbs[dbID].pageSize), out)
      && (out.Sent? ==> r.Some? && Delivers(r.value, ranges, out.frames))
    }

    // ---- changed ----

    /** A Changed frame: the client gets what Passes makes of the store's answer. */
    method Changed(dbID: string, from: u64, maxFrame: u32) returns (r: Result)
      requires Valid() && st.Valid() && maxFrame >= FrameSize.MIN_MAX_FRAME_BYTES
      modifies st`run
      ensures st.Valid() && st.Contents() == old(st.Contents())
      ensures dbID !in dbs ==> r == NotOpen && st.run == old(st.run)
      ensures dbID in dbs ==>
        && |st.run.events| == |old(st.run.events)| + 1 && r.Answered?
        && var answer := st.run.replies[|old(st.run.events)|];
           && st.run == Runs.Extend(old(st.run), Memory.Changes(Key(subject, dbID), from), st.Contents(), answer)
           && FrameSize.Passes(maxFrame, answer, r.reply)
    {
      if dbID !in dbs { return NotOpen; }
      var reply := AskChanges(dbs[dbID].key, from);
      if reply.Failed? { return Answered(Failed(Gone(reply.error))); }
      FrameSize.SentExactly(maxFrame, reply.changes);
      return Answered(Reply.Changed(FrameSize.SentChanges(maxFrame, reply.changes)));
    }

    method AskChanges(k: Key, from: u64) returns (reply: Reply)
      requires st.Valid()
      modifies st`run
      ensures st.Valid() && st.Contents() == old(st.Contents())
      ensures st.run == Runs.Extend(old(st.run), Memory.Changes(k, from), st.Contents(), reply)
      ensures reply.Failed? || reply.Changed?
    {
      reply := st.Changes(k, from);
    }

    /** The store call of open. */
    method CallOpen(q: OpenRequest, id: Bytes) returns (reply: Reply)
      requires st.Valid()
      modifies st, st.dbs.Values
      ensures st.Valid() && st.run == Runs.Extend(old(st.run), Memory.Open(q, id), st.Contents(), reply)
      ensures reply.Failed? || reply.Opened?
    {
      reply := st.Open(q, id);
    }

    /** Adds an open database with the lease and state that the store answered with. */
    method Remember(dbID: string, lease: Lease, state: State, now: int)
      requires Valid() && dbID !in dbs
      modifies this`dbs
      ensures Valid() && dbID in dbs && dbs == old(dbs)[dbID := dbs[dbID]] && fresh(dbs[dbID])
      ensures dbs[dbID].epoch == lease.epoch && dbs[dbID].pageSize == state.pageSize
      ensures dbs[dbID].renewed == now && dbs[dbID].frames == []
    {
      var db := new OpenDB(Key(subject, dbID), lease.epoch, state.pageSize, now);
      dbs := dbs[dbID := db];
    }

    /** Opens a database once per connection, and remembers the lease and the page size that the store answers with. */
    method Open(dbID: string, pageSize: u32, create: bool, takeover: bool, resume: Option<Resume>, now: int, id: Bytes)
      returns (r: Result)
      requires Valid() && st.Valid()
      modifies this`dbs, st, st.dbs.Values
      ensures Valid() && st.Valid()
      ensures dbID in old(dbs) ==> r == AlreadyOpen && dbs == old(dbs) && st.run == old(st.run)
      ensures dbID !in old(dbs) ==>
        var q := OpenRequest(Key(subject, dbID), owner, Some(instance), pageSize, create, takeover, resume, now, ttl);
        && r.Answered? && st.run == Runs.Extend(old(st.run), Memory.Open(q, id), st.Contents(), r.reply)
        && (r.reply.Failed? ==> dbs == old(dbs))
        && (!r.reply.Failed? ==>
              && r.reply.Opened? && dbID in dbs && dbs == old(dbs)[dbID := dbs[dbID]] && fresh(dbs[dbID])
              && dbs[dbID].epoch == r.reply.lease.epoch && dbs[dbID].pageSize == r.reply.state.pageSize
              && dbs[dbID].renewed == now && dbs[dbID].frames == [])
    {
      if dbID in dbs { return AlreadyOpen; }
      var reply := CallOpen(
        OpenRequest(Key(subject, dbID), owner, Some(instance), pageSize, create, takeover, resume, now, ttl), id);
      if reply.Failed? { return Answered(reply); }
      Remember(dbID, reply.lease, reply.state, now);
      return Answered(reply);
    }

    /** The store call of closeDB. */
    method CallRelease(key: Key, epoch: u64) returns (reply: Reply)
      requires st.Valid()
      modifies st, st.dbs.Values
      ensures st.Valid() && st.run == Runs.Extend(old(st.run), Memory.Release(key, epoch), st.Contents(), reply)
    {
      reply := st.Release(key, epoch);
    }

    /** Releases the lease under the epoch that the client names, and forgets the database if that succeeds. */
    method CloseDB(dbID: string, epoch: u64) returns (r: Result)
      requires Valid() && st.Valid()
      modifies this`dbs, st, st.dbs.Values
      ensures Valid() && st.Valid()
      ensures dbID !in old(dbs) ==> r == NotOpen && dbs == old(dbs) && st.run == old(st.run)
      ensures dbID in old(dbs) ==>
        && r.Answered? && st.run == Runs.Extend(old(st.run), Memory.Release(Key(subject, dbID), epoch), st.Contents(), r.reply)
        && dbs == if r.reply.Failed? then old(dbs) else old(dbs) - {dbID}
    {
      if dbID !in dbs { return NotOpen; }
      var reply := CallRelease(dbs[dbID].key, epoch);
      if !reply.Failed? { dbs := dbs - {dbID}; }
      return Answered(reply);
    }

    ghost function Opens(): map<string, Held>
      reads this, dbs.Values
    {
      map d | d in dbs :: Held(dbs[d].epoch, dbs[d].renewed)
    }

    twostate lemma OpensAt(d: string)
      requires dbs == old(dbs) && d in dbs
      requires forall c :: c in dbs && c != d ==> dbs[c].renewed == old(dbs[c].renewed)
      ensures Opens() == old(Opens())[d := Held(dbs[d].epoch, dbs[d].renewed)]
      ensures dbs[d].renewed == old(dbs[d].renewed) ==> Opens() == old(Opens())
    {
    }

    /** Extends a lease in the store, if it is held. */
    method Extend(key: Key, epoch: u64, now: int) returns (done: bool)
      requires st.Valid()
      modifies st, st.dbs.Values
      ensures st.Valid() && st.dbs == old(st.dbs)
      ensures done <==> key in old(st.Contents()).dbs && Memory.Holds(old(st.Contents()).dbs[key], epoch)
      ensures st.Contents() == if done then Renewed(old(st.Contents()), key, now + ttl) else old(st.Contents())
    {
      RenewStep(st.Contents(), key, epoch, now, ttl);
      var reply := st.Renew(key, epoch, now, ttl);
      return !reply.Failed?;
    }

    /** One database of a ping. */
    method PingOne(db: OpenDB, now: int) returns (done: bool)
      requires st.Valid()
      modifies db`renewed, st, st.dbs.Values
      ensures st.Valid() && st.dbs == old(st.dbs)
      ensures done <==> Renews(old(st.Contents()), db.key, Held(db.epoch, old(db.renewed)), now, ttl)
      ensures st.Contents() == RoundStore(old(st.Contents()), db.key, Held(db.epoch, old(db.renewed)), now, ttl)
      ensures db.renewed == if done then now else old(db.renewed)
    {
      if !KeepAlive.RenewDue(db.renewed, now, ttl) { return false; }
      done := Extend(db.key, db.epoch, now);
      if done { db.renewed := now; }
    }

    /** The same, on the leases of the connection. */
    method PingAt(d: string, now: int)
      requires Valid() && st.Valid() && d in dbs
      modifies dbs.Values`renewed, st, st.dbs.Values
      ensures Valid() && st.Valid() && st.dbs == old(st.dbs)
      ensures st.Contents() == RoundStore(old(st.Contents()), Key(subject, d), old(Opens())[d], now, ttl)
      ensures Opens() == RoundOpens(old(st.Contents()), subject, old(Opens()), d, now, ttl)
    {
      ghost var held := Opens();
      assert held[d] == Held(dbs[d].epoch, dbs[d].renewed);
      var done := PingOne(dbs[d], now);
      OpensAt(d);
    }

    /** A ping renews exactly the leases that are due and still held, in the store and on the connection, in whatever
        order the map is read, and changes nothing else. */
    method Ping(now: int)
      requires Valid() && st.Valid()
      modifies dbs.Values`renewed, st, st.dbs.Values
      ensures Valid() && st.Valid() && st.dbs == old(st.dbs)
      ensures st.Contents() == PingedStore(old(st.Contents()), subject, old(Opens()), {}, now, ttl)
      ensures Opens() == PingedOpens(old(st.Contents()), subject, old(Opens()), {}, now, ttl)
    {
      ghost var s, opens := st.Contents(), Opens();
      var left := dbs.Keys;
      PingedNone(s, subject, opens, now, ttl);
      while left != {}
        invariant left <= dbs.Keys == opens.Keys
        invariant Valid() && st.Valid() && st.dbs == old(st.dbs)
        invariant st.Contents() == PingedStore(s, subject, opens, left, now, ttl)
        invariant Opens() == PingedOpens(s, subject, opens, left, now, ttl)
      {
        var d :| d in left;
        PingedNext(s, subject, opens, left, d, now, ttl);
        PingAt(d, now);
        left := left - {d};
      }
    }
  }
}
