/** Pages and Changes frames as bytes. A reader gets back what was written, and the sizes that FrameSize computes are the
    lengths of these bytes. */
module FrameCodec {
  import opened Basics
  import opened Store
  import opened Wire
  import opened FetchFrames
  import opened FrameSize

  /** proto3 leaves out a zero. */
  function Scalar(number: nat, n: nat): seq<Field> { if n == 0 then [] else [Field(number, Number(n))] }

  function Flag(b: bool): nat { if b then 1 else 0 }

  /** A ServerFrame with this body. */
  function Message(id: u64, number: nat, body: seq<Field>): seq<Field> {
    Scalar(1, id) + [Field(number, Data(EncodeAll(body)))]
  }

  // ---- reading ----

  /** The numbers of a field, in order. */
  function Numbers(fs: seq<Field>, number: nat): seq<nat> {
    if fs == [] then []
    else (if fs[0].number == number && fs[0].value.Number? then [fs[0].value.n] else []) + Numbers(fs[1..], number)
  }

  /** The byte strings of a field, in order. */
  function Strings(fs: seq<Field>, number: nat): seq<Bytes> {
    if fs == [] then []
    else (if fs[0].number == number && fs[0].value.Data? then [fs[0].value.b] else []) + Strings(fs[1..], number)
  }

  /** The last number of a field counts; without one it is zero. */
  function NumberOf(fs: seq<Field>, number: nat): nat {
    var ns := Numbers(fs, number);
    if ns == [] then 0 else ns[|ns| - 1]
  }

  lemma {:induction false} NumbersAppend(a: seq<Field>, b: seq<Field>, number: nat)
    ensures Numbers(a + b, number) == Numbers(a, number) + Numbers(b, number)
  {
    if a == [] {
      assert a + b == b;
    } else {
      NumbersAppend(a[1..], b, number);
      assert (a + b)[0] == a[0] && (a + b)[1..] == a[1..] + b;
      var first: seq<nat> := if a[0].number == number && a[0].value.Number? then [a[0].value.n] else [];
      Regrouped(first, Numbers(a[1..], number), Numbers(b, number));
    }
  }

  lemma {:induction false} StringsAppend(a: seq<Field>, b: seq<Field>, number: nat)
    ensures Strings(a + b, number) == Strings(a, number) + Strings(b, number)
  {
    if a == [] {
      assert a + b == b;
    } else {
      StringsAppend(a[1..], b, number);
      assert (a + b)[0] == a[0] && (a + b)[1..] == a[1..] + b;
      var first: seq<Bytes> := if a[0].number == number && a[0].value.Data? then [a[0].value.b] else [];
      Regrouped(first, Strings(a[1..], number), Strings(b, number));
    }
  }

  lemma ReadAppend(a: seq<Field>, b: seq<Field>, number: nat)
    ensures Numbers(a + b, number) == Numbers(a, number) + Numbers(b, number)
    ensures Strings(a + b, number) == Strings(a, number) + Strings(b, number)
  {
    NumbersAppend(a, b, number);
    StringsAppend(a, b, number);
  }

  lemma ScalarRead(field: nat, n: nat, number: nat)
    ensures Numbers(Scalar(field, n), number) == if number == field && n != 0 then [n] else []
    ensures Strings(Scalar(field, n), number) == []
  {
    if n != 0 { assert Scalar(field, n)[1..] == []; }
  }

  lemma StringRead(field: nat, b: Bytes, number: nat)
    ensures Numbers([Field(field, Data(b))], number) == []
    ensures Strings([Field(field, Data(b))], number) == if number == field then [b] else []
  {
    assert [Field(field, Data(b))][1..] == [];
  }

  /** The request ID and the body of a ServerFrame. */
  datatype Unwrapped = Unwrapped(id: nat, body: seq<Field>)

  function OpenFrame(b: Bytes, number: nat): Option<Unwrapped> {
    var fs := Parse(b);
    if fs.None? || |Strings(fs.value, number)| != 1 then None
    else
      var body := Parse(Strings(fs.value, number)[0]);
      if body.None? then None else Some(Unwrapped(NumberOf(fs.value, 1), body.value))
  }

  lemma MessageOpened(id: u64, number: nat, body: seq<Field>)
    requires number > 1
    ensures OpenFrame(EncodeAll(Message(id, number, body)), number) == Some(Unwrapped(id, body))
  {
    var b := EncodeAll(body);
    EncodedParsed(Message(id, number, body));
    EncodedParsed(body);
    ReadAppend(Scalar(1, id), [Field(number, Data(b))], number);
    ReadAppend(Scalar(1, id), [Field(number, Data(b))], 1);
    ScalarRead(1, id, number);
    ScalarRead(1, id, 1);
    StringRead(number, b, number);
    StringRead(number, b, 1);
  }

  // ---- Pages ----

  function BlockFields(blocks: seq<Bytes>): seq<Field> {
    if blocks == [] then [] else BlockFields(blocks[..|blocks| - 1]) + [Field(2, Data(blocks[|blocks| - 1]))]
  }

  function PagesFields(f: PagesFrame): seq<Field> {
    Scalar(1, f.first) + BlockFields(f.blocks) + Scalar(3, Flag(f.last))
  }

  function EncodePages(id: u64, f: PagesFrame): Bytes { EncodeAll(Message(id, PAGES_FIELD, PagesFields(f))) }

  datatype ReadPages = ReadPages(id: nat, first: nat, blocks: seq<Bytes>, last: bool)

  function DecodePages(b: Bytes): Option<ReadPages> {
    var m := OpenFrame(b, 12);
    if m.None? then None
    else
      var body := m.value.body;
      Some(ReadPages(m.value.id, NumberOf(body, 1), Strings(body, 2), NumberOf(body, 3) != 0))
  }

  lemma {:induction false} NoNumbers(blocks: seq<Bytes>, number: nat)
    ensures Numbers(BlockFields(blocks), number) == []
  {
    if blocks != [] {
      var init, last := blocks[..|blocks| - 1], blocks[|blocks| - 1];
      NoNumbers(init, number);
      NumbersAppend(BlockFields(init), [Field(2, Data(last))], number);
      StringRead(2, last, number);
    }
  }

  lemma {:induction false} BlocksRead(blocks: seq<Bytes>, number: nat)
    ensures Strings(BlockFields(blocks), number) == if number == 2 then blocks else []
  {
    if blocks != [] {
      var init, last := blocks[..|blocks| - 1], blocks[|blocks| - 1];
      BlocksRead(init, number);
      NextBlockRead(BlockFields(init), init, last, number);
      assert blocks == init + [last];
    }
  }

  lemma NextBlockRead(fields: seq<Field>, init: seq<Bytes>, last: Bytes, number: nat)
    requires Strings(fields, number) == if number == 2 then init else []
    ensures Strings(fields + [Field(2, Data(last))], number) == if number == 2 then init + [last] else []
  {
    StringsAppend(fields, [Field(2, Data(last))], number);
    StringRead(2, last, number);
  }

  lemma PagesRead(f: PagesFrame, number: nat)
    ensures Numbers(PagesFields(f), number)
            == if number == 1 && f.first != 0 then [f.first] else if number == 3 && f.last then [1] else []
    ensures Strings(PagesFields(f), number) == if number == 2 then f.blocks else []
  {
    ReadAppend(Scalar(1, f.first) + BlockFields(f.blocks), Scalar(3, Flag(f.last)), number);
    ReadAppend(Scalar(1, f.first), BlockFields(f.blocks), number);
    ScalarRead(1, f.first, number);
    ScalarRead(3, Flag(f.last), number);
    NoNumbers(f.blocks, number);
    BlocksRead(f.blocks, number);
  }

  /** A client reads the frame that was sent. */
  lemma PagesRoundTrip(id: u64, f: PagesFrame)
    ensures DecodePages(EncodePages(id, f)) == Some(ReadPages(id, f.first, f.blocks, f.last))
  {
    MessageOpened(id, 12, PagesFields(f));
    PagesRead(f, 1);
    PagesRead(f, 2);
    PagesRead(f, 3);
  }

  // ---- sizes ----

  lemma {:induction false} VarintLength(n: nat)
    ensures |Varint(n)| == VarintSize(n)
  {
    if n >= 128 { VarintLength(n / 128); }
  }

  lemma ScalarLength(number: nat, n: nat)
    ensures |EncodeAll(Scalar(number, n))| == IntField(number, n)
  {
    if n != 0 {
      EncodeOne(Field(number, Number(n)));
      VarintLength(number * 8);
      VarintLength(n);
    }
  }

  lemma StringLength(number: nat, b: Bytes)
    ensures |EncodeAll([Field(number, Data(b))])| == BytesField(number, |b|)
  {
    EncodeOne(Field(number, Data(b)));
    VarintLength(number * 8 + 2);
    VarintLength(|b|);
  }

  lemma MessageLength(id: u64, number: nat, body: seq<Field>)
    ensures |EncodeAll(Message(id, number, body))| == IntField(1, id) + BytesField(number, |EncodeAll(body)|)
  {
    EncodeAppend(Scalar(1, id), [Field(number, Data(EncodeAll(body)))]);
    ScalarLength(1, id);
    StringLength(number, EncodeAll(body));
  }

  lemma {:induction false} BlocksLength(blocks: seq<Bytes>)
    ensures |EncodeAll(BlockFields(blocks))| == BlocksSize(blocks)
  {
    if blocks != [] {
      var init, last := blocks[..|blocks| - 1], blocks[|blocks| - 1];
      BlocksLength(init);
      EncodeAppend(BlockFields(init), [Field(2, Data(last))]);
      StringLength(2, last);
    }
  }

  lemma PagesBodyLength(f: PagesFrame)
    ensures |EncodeAll(PagesFields(f))| == PagesBody(f)
  {
    EncodeAppend(Scalar(1, f.first) + BlockFields(f.blocks), Scalar(3, Flag(f.last)));
    EncodeAppend(Scalar(1, f.first), BlockFields(f.blocks));
    ScalarLength(1, f.first);
    ScalarLength(3, Flag(f.last));
    BlocksLength(f.blocks);
  }

  /** The computed size of a Pages frame is the length of its bytes. */
  lemma PagesLength(id: u64, f: PagesFrame)
    ensures |EncodePages(id, f)| == PagesFrameSize(id, f)
  {
    PagesBodyLength(f);
    MessageLength(id, PAGES_FIELD, PagesFields(f));
  }

  // ---- Changes ----

  function Packed(indexes: seq<u64>): Bytes {
    if indexes == [] then [] else Packed(indexes[..|indexes| - 1]) + Varint(indexes[|indexes| - 1])
  }

  function Unpack(b: Bytes): Option<seq<nat>>
    decreases |b|
  {
    if b == [] then Some([])
    else
      var t := TakeVarint(b);
      if t.None? then None
      else
        var more := Unpack(b[t.value.size..]);
        if more.None? then None else Some([t.value.n] + more.value)
  }

  lemma UnpackFirst(n: nat, rest: Bytes, more: seq<nat>)
    requires Unpack(rest) == Some(more)
    ensures Unpack(Varint(n) + rest) == Some([n] + more)
  {
    VarintTaken(n, rest);
    assert (Varint(n) + rest)[|Varint(n)|..] == rest;
  }

  lemma {:induction false} UnpackAfter(indexes: seq<u64>, rest: Bytes, more: seq<nat>)
    requires Unpack(rest) == Some(more)
    ensures Unpack(Packed(indexes) + rest) == Some(indexes + more)
  {
    if indexes == [] {
      assert Packed(indexes) + rest == rest && indexes + more == more;
    } else {
      var init, last := indexes[..|indexes| - 1], indexes[|indexes| - 1];
      UnpackFirst(last, rest, more);
      UnpackAfter(init, Varint(last) + rest, [last] + more);
      Regrouped(Packed(init), Varint(last), rest);
      Regrouped<nat>(init, [last], more);
      assert indexes == init + [last];
    }
  }

  lemma Unpacked(indexes: seq<u64>)
    ensures Unpack(Packed(indexes)) == Some(indexes)
  {
    UnpackAfter(indexes, [], []);
    assert Packed(indexes) + [] == Packed(indexes) && indexes + [] == indexes;
  }

  function IndexFields(indexes: seq<u64>): seq<Field> {
    if indexes == [] then [] else [Field(3, Data(Packed(indexes)))]
  }

  function ChangesFields(c: ChangeSet): seq<Field> {
    Scalar(1, c.from) + Scalar(2, c.to) + IndexFields(c.blocks) + Scalar(4, Flag(c.complete))
  }

  function EncodeChanges(id: u64, c: ChangeSet): Bytes { EncodeAll(Message(id, CHANGES_FIELD, ChangesFields(c))) }

  datatype ReadChanges = ReadChanges(id: nat, from: nat, to: nat, blocks: seq<nat>, complete: bool)

  function DecodeChanges(b: Bytes): Option<ReadChanges> {
    var m := OpenFrame(b, 19);
    if m.None? then None else BodyChanges(m.value.id, m.value.body)
  }

  lemma IndexesRead(indexes: seq<u64>, number: nat)
    ensures Numbers(IndexFields(indexes), number) == []
    ensures Strings(IndexFields(indexes), number) == if number == 3 && indexes != [] then [Packed(indexes)] else []
  {
    if indexes != [] { StringRead(3, Packed(indexes), number); }
  }

  lemma FourRead(a: seq<Field>, b: seq<Field>, c: seq<Field>, d: seq<Field>, number: nat)
    ensures Numbers(a + b + c + d, number)
            == Numbers(a, number) + Numbers(b, number) + Numbers(c, number) + Numbers(d, number)
    ensures Strings(a + b + c + d, number)
            == Strings(a, number) + Strings(b, number) + Strings(c, number) + Strings(d, number)
  {
    ReadAppend(a + b + c, d, number);
    ReadAppend(a + b, c, number);
    ReadAppend(a, b, number);
  }

  lemma ChangesRead(c: ChangeSet, number: nat)
    ensures Numbers(ChangesFields(c), number)
            == if number == 1 && c.from != 0 then [c.from] else if number == 2 && c.to != 0 then [c.to]
               else if number == 4 && c.complete then [1] else []
    ensures Strings(ChangesFields(c), number) == if number == 3 && c.blocks != [] then [Packed(c.blocks)] else []
  {
    FourRead(Scalar(1, c.from), Scalar(2, c.to), IndexFields(c.blocks), Scalar(4, Flag(c.complete)), number);
    IndexesRead(c.blocks, number);
    ScalarRead(1, c.from, number);
    ScalarRead(2, c.to, number);
    ScalarRead(4, Flag(c.complete), number);
  }

  /** The packed indexes in a body. */
  function IndexesOf(body: seq<Field>): Option<seq<nat>> {
    var lists := Strings(body, 3);
    if lists == [] then Some([]) else Unpack(lists[|lists| - 1])
  }

  /** The body of a Changes frame, read. */
  function BodyChanges(id: nat, body: seq<Field>): Option<ReadChanges> {
    var blocks := IndexesOf(body);
    if blocks.None? then None
    else Some(ReadChanges(id, NumberOf(body, 1), NumberOf(body, 2), blocks.value, NumberOf(body, 4) != 0))
  }

  lemma BodyRead(id: nat, c: ChangeSet)
    ensures BodyChanges(id, ChangesFields(c)) == Some(ReadChanges(id, c.from, c.to, c.blocks, c.complete))
  {
    NumberRead(c, 1);
    NumberRead(c, 2);
    NumberRead(c, 4);
    ListRead(c);
  }

  lemma NumberRead(c: ChangeSet, number: nat)
    ensures NumberOf(ChangesFields(c), number)
            == if number == 1 then c.from else if number == 2 then c.to else if number == 4 then Flag(c.complete) else 0
  {
    ChangesRead(c, number);
  }

  lemma ListRead(c: ChangeSet)
    ensures IndexesOf(ChangesFields(c)) == Some(c.blocks)
  {
    ChangesRead(c, 3);
    Unpacked(c.blocks);
  }

  /** A client reads the change set that was sent. */
  lemma ChangesRoundTrip(id: u64, c: ChangeSet)
    ensures DecodeChanges(EncodeChanges(id, c)) == Some(ReadChanges(id, c.from, c.to, c.blocks, c.complete))
  {
    MessageOpened(id, 19, ChangesFields(c));
    BodyRead(id, c);
  }

  lemma {:induction false} PackedLength(indexes: seq<u64>)
    ensures |Packed(indexes)| == PackedSize(indexes)
  {
    if indexes != [] {
      PackedLength(indexes[..|indexes| - 1]);
      VarintLength(indexes[|indexes| - 1]);
    }
  }

  lemma FourLength(a: seq<Field>, b: seq<Field>, c: seq<Field>, d: seq<Field>)
    ensures |EncodeAll(a + b + c + d)| == |EncodeAll(a)| + |EncodeAll(b)| + |EncodeAll(c)| + |EncodeAll(d)|
  {
    EncodeAppend(a + b + c, d);
    EncodeAppend(a + b, c);
    EncodeAppend(a, b);
  }

  lemma IndexesLength(indexes: seq<u64>)
    ensures |EncodeAll(IndexFields(indexes))| == if indexes == [] then 0 else BytesField(3, PackedSize(indexes))
  {
    if indexes != [] { StringLength(3, Packed(indexes)); }
    PackedLength(indexes);
  }

  lemma ChangesBodyLength(c: ChangeSet)
    ensures |EncodeAll(ChangesFields(c))| == ChangesBody(c)
  {
    FourLength(Scalar(1, c.from), Scalar(2, c.to), IndexFields(c.blocks), Scalar(4, Flag(c.complete)));
    ScalarLength(1, c.from);
    ScalarLength(2, c.to);
    ScalarLength(4, Flag(c.complete));
    IndexesLength(c.blocks);
  }

  /** The computed size of a Changes frame is the length of its bytes. */
  lemma ChangesLength(id: u64, c: ChangeSet)
    ensures |EncodeChanges(id, c)| == ChangesFrameSize(id, c)
  {
    ChangesBodyLength(c);
    MessageLength(id, CHANGES_FIELD, ChangesFields(c));
  }

  /** So no frame that the server sends is longer than the limit. */
  lemma FramesFit(maxFrame: u32, id: u64, c: ChangeSet, pageSize: u32, f: PagesFrame)
    requires maxFrame >= MIN_MAX_FRAME_BYTES && ValidPageSize(pageSize)
    requires |f.blocks| <= BlocksPerFrame(maxFrame, pageSize)
    requires forall i :: 0 <= i < |f.blocks| ==> |f.blocks[i]| <= pageSize
    ensures |EncodeChanges(id, SentChanges(maxFrame, c))| <= maxFrame && |EncodePages(id, f)| <= maxFrame
  {
    ChangesLength(id, SentChanges(maxFrame, c));
    ChangesFrameFits(maxFrame, id, c);
    PagesLength(id, f);
    PagesFrameFits(maxFrame, pageSize, id, f);
  }
}
