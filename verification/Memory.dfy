/** internal/store/memory/memory.go as a state machine on values: one step per call. MemoryStore has the same
    operations as methods that update objects in place, proved against the functions here. */
module Memory {
  import opened Basics
  import opened Store

  datatype Change = Change(version: u64, blocks: seq<u64>)

  /** The value of one `database` struct. */
  datatype Record = Record(
    deleted: bool, state: State, blocks: map<u64, Bytes>, changes: seq<Change>,
    lease: Lease, holder: Option<Bytes>, grantedAt: int, expiresAt: int)

  datatype StoreState = StoreState(dbs: map<Key, Record>, slots: map<string, Slot>)

  const EMPTY := StoreState(map[], map[])

  /** One call. A random lease ID and the order of databases with the same expiry are part of the event. */
  datatype Event =
    | Open(open: OpenRequest, leaseID: Bytes)
    | Fetch(fetchKey: Key, version: u64, first: u64, count: u64)
    | Commit(commit: CommitRequest)
    | Changes(changesKey: Key, from: u64)
    | Renew(renewKey: Key, renewEpoch: u64, now: int, ttl: int)
    | Release(releaseKey: Key, releaseEpoch: u64)
    | Delete(delete: DeleteRequest)
    | DeleteUnused(cutoff: int, limit: nat, chosen: seq<Key>)
    | GetSlot(owner: string)
    | ClaimSlot(claim: ClaimRequest)
    | SetSlotLabel(labelOwner: string, labelSubject: string, labelText: string)
    | DeleteSlot(slotOwner: string, slotSubject: string)

  /** The calls that concern one database. */
  predicate OnDatabase(e: Event) {
    e.Open? || e.Fetch? || e.Commit? || e.Changes? || e.Renew? || e.Release? || e.Delete?
  }

  function KeyOf(e: Event): Key
    requires OnDatabase(e)
  {
    match e
    case Open(q, _) => q.key
    case Fetch(k, _, _, _) => k
    case Commit(q) => q.key
    case Changes(k, _) => k
    case Renew(k, _, _, _) => k
    case Release(k, _) => k
    case Delete(q) => q.key
  }

  // ---- Open ----

  function Fresh(pageSize: u32): Record {
    Record(false, State(pageSize, 0, 0, []), map[], [], Lease([], 0), None, 0, 0)
  }

  datatype Prepared = Ready(db: Record) | Refused(error: Error)

  /** The record an open works on: the live one, a new one, or the deleted one created anew. */
  function Prepare(r: Option<Record>, q: OpenRequest): Prepared {
    if r.None? then
      if !q.create || q.resume.Some? then Refused(NotFound)
      else if !ValidPageSize(q.pageSize) then Refused(PageSizeInvalid(q.pageSize))
      else Ready(Fresh(q.pageSize))
    else if r.value.deleted then
      if q.resume.Some? then Refused(Fenced)
      else if !q.create then Refused(NotFound)
      else if !ValidPageSize(q.pageSize) then Refused(PageSizeInvalid(q.pageSize))
      else Ready(r.value.(deleted := false, state := r.value.state.(pageSize := q.pageSize)))
    else if q.pageSize != 0 && q.pageSize != r.value.state.pageSize then
      Refused(PageSizeDiffers(q.pageSize, r.value.state.pageSize))
    else Ready(r.value)
  }

  predicate Active(db: Record, now: int) {
    db.holder.Some? && now < db.expiresAt
  }

  /** bytes.Equal on slices that may be nil. */
  predicate SameBytes(a: Option<Bytes>, b: Option<Bytes>) {
    (if a.Some? then a.value else []) == (if b.Some? then b.value else [])
  }

  predicate Holds(db: Record, epoch: u64) {
    db.holder.Some? && db.lease.epoch == epoch
  }

  function Grant(db: Record, q: OpenRequest, id: Bytes): Record {
    db.(lease := Lease(id, Inc(db.lease.epoch)), holder := q.instance, grantedAt := q.now, expiresAt := q.now + q.ttl)
  }

  /** Resumes or grants the lease of a prepared record. */
  function TakeLease(db: Record, q: OpenRequest, id: Bytes): (Record, Reply) {
    if q.resume.Some? then
      if !Holds(db, q.resume.value.leaseEpoch) || db.lease.id != q.resume.value.leaseID then (db, Failed(Fenced))
      else (db.(expiresAt := q.now + q.ttl), Opened(db.lease, db.state, false))
    else if Active(db, q.now) && !q.takeover && !SameBytes(db.holder, q.instance)
    then (db, Failed(LeaseHeld(db.grantedAt)))
    else (Grant(db, q, id), Opened(Lease(id, Inc(db.lease.epoch)), db.state, Active(db, q.now)))
  }

  function OpenRecord(r: Option<Record>, q: OpenRequest, id: Bytes): (Option<Record>, Reply) {
    match Prepare(r, q)
    case Refused(e) => (r, Failed(e))
    case Ready(db) =>
      var (taken, reply) := TakeLease(db, q, id);
      (Some(taken), reply)
  }

  // ---- Fetch ----

  /** `pageSize` zero bytes. */
  function Zeros(pageSize: u32): (z: Bytes)
    ensures |z| == pageSize && forall i :: 0 <= i < |z| ==> z[i] == 0
  {
    seq(pageSize, i => 0)
  }

  /** A block without data stands for a page of zero bytes. */
  function Read(db: Record, index: u64): Bytes {
    if index in db.blocks then db.blocks[index] else Zeros(db.state.pageSize)
  }

  function ReadRange(db: Record, first: u64, count: u64): seq<Bytes>
    requires first + count <= MAX64
  {
    seq(count, i requires 0 <= i < count => Read(db, first + i))
  }

  function FetchRecord(r: Option<Record>, version: u64, first: u64, count: u64): Reply {
    if r.None? || r.value.deleted then Failed(NotFound)
    else if version != r.value.state.version then Failed(VersionConflict(r.value.state.version))
    else
      var e := CheckRange(first, count, r.value.state.pageCount);
      if e.Some? then Failed(e.value) else Pages(ReadRange(r.value, first, count))
  }

  // ---- Commit ----

  function WriteBlocks(m: map<u64, Bytes>, blocks: seq<Block>): map<u64, Bytes> {
    if blocks == [] then m
    else WriteBlocks(m, blocks[..|blocks| - 1])[blocks[|blocks| - 1].index := blocks[|blocks| - 1].data]
  }

  function Truncate(m: map<u64, Bytes>, pageCount: u64): map<u64, Bytes> {
    map i | i in m && i < pageCount :: m[i]
  }

  function Indexes(blocks: seq<Block>): set<u64> {
    set b | b in blocks :: b.index
  }

  ghost function SortedIndexes(s: set<u64>): (r: seq<u64>)
    ensures Ascending(r, Below) && forall x :: x in r <==> x in s
  {
    Orders();
    SortedSet(s, Below)
  }

  /** The last CHANGE_WINDOW entries. */
  function Trim(log: seq<Change>): seq<Change> {
    if |log| > CHANGE_WINDOW then log[|log| - CHANGE_WINDOW..] else log
  }

  ghost function Apply(db: Record, q: CommitRequest): Record {
    var version := Inc(db.state.version);
    db.(state := State(db.state.pageSize, q.pageCount, version, q.commitID),
        blocks := Truncate(WriteBlocks(db.blocks, q.blocks), q.pageCount),
        changes := Trim(db.changes + [Change(version, SortedIndexes(Indexes(q.blocks)))]),
        expiresAt := q.now + q.ttl)
  }

  /** The request repeats the commit that produced the current version. */
  predicate Repeats(db: Record, q: CommitRequest) {
    db.state.version == Inc(q.baseVersion) && |q.commitID| > 0 && db.state.lastCommitID == q.commitID
  }

  ghost function CommitRecord(r: Option<Record>, q: CommitRequest): (Option<Record>, Reply) {
    if r.None? then (r, Failed(NotFound))
    else
      var db := r.value;
      if !Holds(db, q.leaseEpoch) then (r, Failed(Fenced))
      else if Repeats(db, q) then (Some(db.(expiresAt := q.now + q.ttl)), Committed(db.state.version))
      else if db.state.version != q.baseVersion then (r, Failed(VersionConflict(db.state.version)))
      else
        var e := CommitError(db.state.pageSize, q);
        if e.Some? then (r, Failed(e.value)) else (Some(Apply(db, q)), Committed(Inc(db.state.version)))
  }

  // ---- Changes ----

  /** The indexes in the log entries after version `from`. */
  function WrittenAfter(log: seq<Change>, from: u64): set<u64> {
    set n, i | 0 <= n < |log| && log[n].version > from && i in log[n].blocks :: i
  }

  ghost function ChangesRecord(r: Option<Record>, from: u64): Reply {
    if r.None? || r.value.deleted then Failed(NotFound)
    else
      var db := r.value;
      if from > db.state.version then Failed(VersionAhead(from, db.state.version))
      else if from == db.state.version then Changed(ChangeSet(from, db.state.version, [], true))
      else if |db.changes| == 0 || db.changes[0].version > Inc(from)
      then Changed(ChangeSet(from, db.state.version, [], false))
      else Changed(ChangeSet(from, db.state.version, SortedIndexes(WrittenAfter(db.changes, from)), true))
  }

  // ---- Renew, Release, Delete ----

  function RenewRecord(r: Option<Record>, epoch: u64, now: int, ttl: int): (Option<Record>, Reply) {
    if r.None? then (r, Failed(NotFound))
    else if !Holds(r.value, epoch) then (r, Failed(Fenced))
    else (Some(r.value.(expiresAt := now + ttl)), Done)
  }

  function ReleaseRecord(r: Option<Record>, epoch: u64): (Option<Record>, Reply) {
    if r.None? then (r, Failed(NotFound))
    else if !Holds(r.value, epoch) then (r, Failed(Fenced))
    else (Some(r.value.(holder := None)), Done)
  }

  /** What a deletion leaves: an empty record with higher counters and without a holder. */
  function Remove(db: Record): Record {
    db.(deleted := true, blocks := map[], changes := [],
        state := State(db.state.pageSize, 0, Inc(db.state.version), []),
        lease := Lease([], Inc(db.lease.epoch)), holder := None)
  }

  function DeleteRecord(r: Option<Record>, q: DeleteRequest): (Option<Record>, Reply) {
    if r.None? || r.value.deleted then (r, Deleted(0, false))
    else
      var active := Active(r.value, q.now);
      if active && !q.takeover then (r, Failed(LeaseHeld(r.value.grantedAt)))
      else (Some(Remove(r.value)), Deleted(Inc(r.value.lease.epoch), active))
  }

  // ---- DeleteUnused ----

  predicate Unused(s: StoreState, cutoff: int, k: Key) {
    k in s.dbs && !s.dbs[k].deleted && s.dbs[k].expiresAt < cutoff
  }

  /** `chosen` lists up to `limit` unused databases, oldest first; what it leaves out is at least as recent. */
  ghost predicate OldestUnused(s: StoreState, cutoff: int, limit: nat, chosen: seq<Key>) {
    && Distinct(chosen) && |chosen| <= limit
    && (forall i :: 0 <= i < |chosen| ==> Unused(s, cutoff, chosen[i]))
    && (forall i, j :: 0 <= i < j < |chosen| ==> s.dbs[chosen[i]].expiresAt <= s.dbs[chosen[j]].expiresAt)
    && (forall k :: Unused(s, cutoff, k) && k !in chosen ==> |chosen| == limit)
    && (forall c, k :: c in chosen && Unused(s, cutoff, k) && k !in chosen
                       ==> s.dbs[c].expiresAt <= s.dbs[k].expiresAt)
  }

  predicate HoldsSlot(slots: map<string, Slot>, subject: string) {
    exists o :: o in slots && slots[o].subject == subject
  }

  predicate HasDatabases(dbs: map<Key, Record>, subject: string) {
    exists k :: k in dbs && k.subject == subject && !dbs[k].deleted
  }

  /** Removes the chosen databases: without a record if their key holds a slot. */
  function SweepDbs(s: StoreState, chosen: seq<Key>): map<Key, Record> {
    map k | k in s.dbs && !(k in chosen && HoldsSlot(s.slots, k.subject)) ::
      if k in chosen then Remove(s.dbs[k]) else s.dbs[k]
  }

  /** Keeps a slot claimed at or after the cutoff, or whose key still has a database. */
  function KeptSlots(slots: map<string, Slot>, dbs: map<Key, Record>, cutoff: int): map<string, Slot> {
    map o | o in slots && !(slots[o].claimedAt < cutoff && !HasDatabases(dbs, slots[o].subject)) :: slots[o]
  }

  function SweepStep(s: StoreState, cutoff: int, chosen: seq<Key>): StoreState {
    var dbs := SweepDbs(s, chosen);
    StoreState(dbs, KeptSlots(s.slots, dbs, cutoff))
  }

  /** One database of a sweep. */
  function SweepOne(s: StoreState, k: Key): StoreState
    requires k in s.dbs
  {
    if HoldsSlot(s.slots, k.subject) then s.(dbs := s.dbs - {k}) else s.(dbs := s.dbs[k := Remove(s.dbs[k])])
  }

  /** The chosen databases one after the other. */
  function SweepAll(s: StoreState, chosen: seq<Key>): (r: StoreState)
    requires Distinct(chosen) && forall k :: k in chosen ==> k in s.dbs
    ensures r.slots == s.slots && forall k :: k in s.dbs && k !in chosen ==> k in r.dbs
  {
    if chosen == [] then s else SweepOne(SweepAll(s, chosen[..|chosen| - 1]), chosen[|chosen| - 1])
  }

  lemma SweepDbsLast(s: StoreState, init: seq<Key>, k: Key)
    requires k !in init && k in s.dbs
    ensures SweepDbs(s, init + [k]) == SweepOne(s.(dbs := SweepDbs(s, init)), k).dbs
  {
    assert forall x :: x in init + [k] <==> x in init || x == k;
  }

  lemma {:induction false} SweepAllIsSweepDbs(s: StoreState, chosen: seq<Key>)
    requires Distinct(chosen) && forall k :: k in chosen ==> k in s.dbs
    ensures SweepAll(s, chosen) == s.(dbs := SweepDbs(s, chosen))
  {
    if chosen != [] {
      var init, k := chosen[..|chosen| - 1], chosen[|chosen| - 1];
      SweepAllIsSweepDbs(s, init);
      assert chosen == init + [k];
      SweepDbsLast(s, init, k);
    } else {
      assert SweepDbs(s, chosen) == s.dbs;
    }
  }

  // ---- slots ----

  predicate LockedOut(s: StoreState, q: OpenRequest) {
    q.owner != "" && q.owner in s.slots && s.slots[q.owner].subject != q.key.subject
  }

  function WithoutSubject(dbs: map<Key, Record>, subject: string): map<Key, Record> {
    map k | k in dbs && k.subject != subject :: dbs[k]
  }

  function LiveIDs(dbs: map<Key, Record>, subject: string): set<string> {
    set k | k in dbs && k.subject == subject && !dbs[k].deleted :: k.dbid
  }

  function KeysWith(subject: string, ids: seq<string>): (r: seq<Key>)
    ensures |r| == |ids| && forall i :: 0 <= i < |ids| ==> r[i] == Key(subject, ids[i])
  {
    seq(|ids|, i requires 0 <= i < |ids| => Key(subject, ids[i]))
  }

  lemma KeysWithHas(subject: string, ids: seq<string>, k: Key)
    ensures k in KeysWith(subject, ids) <==> k.subject == subject && k.dbid in ids
  {
    var r := KeysWith(subject, ids);
    if k.subject == subject && k.dbid in ids {
      var i :| 0 <= i < |ids| && ids[i] == k.dbid;
      assert r[i] == k;
    }
  }

  lemma LiveIDsHas(dbs: map<Key, Record>, subject: string, k: Key)
    requires k.subject == subject
    ensures k.dbid in LiveIDs(dbs, subject) <==> k in dbs && !dbs[k].deleted
  {
    assert k == Key(subject, k.dbid);
  }

  ghost function KeysFor(ids: set<string>, subject: string): seq<Key> {
    Orders();
    KeysWith(subject, SortedSet(ids, Before))
  }

  /** The live databases of a subject, sorted by ID. */
  ghost function LiveKeys(dbs: map<Key, Record>, subject: string): (r: seq<Key>)
    ensures Distinct(r)
    ensures forall k :: k in r <==> k in dbs && k.subject == subject && !dbs[k].deleted
    ensures forall i, j :: 0 <= i < j < |r| ==> Before(r[i].dbid, r[j].dbid)
  {
    Orders();
    var ids := SortedSet(LiveIDs(dbs, subject), Before);
    var r := KeysFor(LiveIDs(dbs, subject), subject);
    assert forall k :: k in r <==> k in dbs && k.subject == subject && !dbs[k].deleted by {
      forall k ensures k in r <==> k in dbs && k.subject == subject && !dbs[k].deleted {
        KeysWithHas(subject, ids, k);
        if k.subject == subject { LiveIDsHas(dbs, subject, k); }
      }
    }
    r
  }

  ghost function ClaimStep(s: StoreState, q: ClaimRequest): (StoreState, Reply) {
    var held := Lookup(s.slots, q.owner);
    if held.Some? && held.value.subject == q.subject then (s, Claimed(held.value, None, []))
    else
      var slot := Slot(q.subject, "", q.now);
      var dbs := if held.Some? then WithoutSubject(s.dbs, held.value.subject) else s.dbs;
      var purged := if held.Some? then LiveKeys(s.dbs, held.value.subject) else [];
      (StoreState(dbs, s.slots[q.owner := slot]), Claimed(slot, held, purged))
  }

  function LabelStep(s: StoreState, owner: string, subject: string, text: string): (StoreState, Reply) {
    if owner !in s.slots then (s, Failed(NotFound))
    else if s.slots[owner].subject != subject then (s, Failed(SlotTaken))
    else
      var slot := s.slots[owner].(labelText := text);
      (s.(slots := s.slots[owner := slot]), Claimed(slot, None, []))
  }

  ghost function DeleteSlotStep(s: StoreState, owner: string, subject: string): (StoreState, Reply) {
    if owner in s.slots && s.slots[owner].subject != subject then (s, Failed(SlotTaken))
    else (StoreState(WithoutSubject(s.dbs, subject), s.slots - {owner}), Keys(LiveKeys(s.dbs, subject)))
  }

  // ---- one step of the store ----

  ghost function RecordStep(r: Option<Record>, e: Event): (Option<Record>, Reply)
    requires OnDatabase(e)
  {
    match e
    case Open(q, id) => OpenRecord(r, q, id)
    case Fetch(_, version, first, count) => (r, FetchRecord(r, version, first, count))
    case Commit(q) => CommitRecord(r, q)
    case Changes(_, from) => (r, ChangesRecord(r, from))
    case Renew(_, epoch, now, ttl) => RenewRecord(r, epoch, now, ttl)
    case Release(_, epoch) => ReleaseRecord(r, epoch)
    case Delete(q) => DeleteRecord(r, q)
  }

  function Put(dbs: map<Key, Record>, k: Key, r: Option<Record>): map<Key, Record> {
    if r.None? then dbs else dbs[k := r.value]
  }

  ghost predicate Legal(s: StoreState, e: Event) {
    e.DeleteUnused? ==> OldestUnused(s, e.cutoff, e.limit, e.chosen)
  }

  ghost function Step(s: StoreState, e: Event): (StoreState, Reply) {
    if OnDatabase(e) then
      if e.Open? && LockedOut(s, e.open) then (s, Failed(SlotTaken))
      else
        var k := KeyOf(e);
        var (r, reply) := RecordStep(Lookup(s.dbs, k), e);
        (s.(dbs := Put(s.dbs, k, r)), reply)
    else
      match e
      case DeleteUnused(cutoff, _, chosen) => (SweepStep(s, cutoff, chosen), Keys(chosen))
      case GetSlot(owner) => (s, SlotIs(Lookup(s.slots, owner)))
      case ClaimSlot(q) => ClaimStep(s, q)
      case SetSlotLabel(owner, subject, text) => LabelStep(s, owner, subject, text)
      case DeleteSlot(owner, subject) => DeleteSlotStep(s, owner, subject)
  }
}
