/** The protobuf wire format, as far as the server's frames use it: varints and length-delimited fields, written and read
    back. */
module Wire {
  import opened Basics

  datatype Value = Number(n: nat) | Data(b: Bytes)
  datatype Field = Field(number: nat, value: Value)

  /** Seven bits per byte, the lowest first; the top bit says that more follow. */
  function Varint(n: nat): (b: Bytes)
    ensures b != []
  {
    if n < 128 then [n] else [n % 128 + 128] + Varint(n / 128)
  }

  datatype Taken = Taken(n: nat, size: nat)

  /** The varint at the start, and how many bytes it takes. */
  function TakeVarint(b: Bytes): (t: Option<Taken>)
    ensures t.Some? ==> 0 < t.value.size <= |b|
  {
    if b == [] then None
    else if b[0] < 128 then Some(Taken(b[0], 1))
    else
      var t := TakeVarint(b[1..]);
      if t.None? then None else Some(Taken(t.value.n * 128 + (b[0] - 128), t.value.size + 1))
  }

  lemma {:induction false} VarintTaken(n: nat, rest: Bytes)
    ensures TakeVarint(Varint(n) + rest) == Some(Taken(n, |Varint(n)|))
  {
    var b := Varint(n) + rest;
    if n >= 128 {
      VarintTaken(n / 128, rest);
      assert b[1..] == Varint(n / 128) + rest;
    }
  }

  // ---- fields ----

  function Wired(v: Value): nat { if v.Number? then 0 else 2 }

  function EncodeValue(v: Value): Bytes {
    match v
    case Number(n) => Varint(n)
    case Data(b) => Varint(|b|) + b
  }

  function Encode(f: Field): Bytes { Varint(f.number * 8 + Wired(f.value)) + EncodeValue(f.value) }

  function EncodeAll(fs: seq<Field>): Bytes {
    if fs == [] then [] else Encode(fs[0]) + EncodeAll(fs[1..])
  }

  datatype TakenValue = TakenValue(value: Value, size: nat)

  function TakeValue(wire: nat, b: Bytes): (t: Option<TakenValue>)
    ensures t.Some? ==> t.value.size <= |b|
  {
    var n := TakeVarint(b);
    if n.None? then None
    else if wire == 0 then Some(TakenValue(Number(n.value.n), n.value.size))
    else if wire == 2 && n.value.size + n.value.n <= |b| then
      Some(TakenValue(Data(b[n.value.size..n.value.size + n.value.n]), n.value.size + n.value.n))
    else None
  }

  datatype TakenField = TakenField(field: Field, size: nat)

  function TakeField(b: Bytes): (t: Option<TakenField>)
    ensures t.Some? ==> 0 < t.value.size <= |b|
  {
    var tag := TakeVarint(b);
    if tag.None? then None else Tagged(tag.value, TakeValue(tag.value.n % 8, b[tag.value.size..]))
  }

  function Tagged(tag: Taken, v: Option<TakenValue>): Option<TakenField> {
    if v.None? then None else Some(TakenField(Field(tag.n / 8, v.value.value), tag.size + v.value.size))
  }

  /** Reads fields until the end. */
  function Parse(b: Bytes): Option<seq<Field>>
    decreases |b|
  {
    if b == [] then Some([])
    else
      var t := TakeField(b);
      if t.None? then None
      else
        var more := Parse(b[t.value.size..]);
        if more.None? then None else Some([t.value.field] + more.value)
  }

  lemma ValueTaken(v: Value, rest: Bytes)
    ensures TakeValue(Wired(v), EncodeValue(v) + rest) == Some(TakenValue(v, |EncodeValue(v)|))
  {
    match v
    case Number(n) => VarintTaken(n, rest);
    case Data(b) =>
      VarintTaken(|b|, b + rest);
      assert EncodeValue(v) + rest == Varint(|b|) + (b + rest);
      assert (Varint(|b|) + (b + rest))[|Varint(|b|)|..|Varint(|b|)| + |b|] == b;
  }

  lemma TagSplit(number: nat, wire: nat)
    requires wire < 8
    ensures (number * 8 + wire) / 8 == number && (number * 8 + wire) % 8 == wire
  {
  }

  lemma FieldTaken(f: Field, rest: Bytes)
    ensures TakeField(Encode(f) + rest) == Some(TakenField(f, |Encode(f)|))
  {
    var number := f.number * 8 + Wired(f.value);
    var tag, v := Varint(number), EncodeValue(f.value);
    TagSplit(f.number, Wired(f.value));
    VarintTaken(number, v + rest);
    ValueTaken(f.value, rest);
    Regrouped(tag, v, rest);
    assert (tag + (v + rest))[|tag|..] == v + rest;
    assert Tagged(Taken(number, |tag|), Some(TakenValue(f.value, |v|))) == Some(TakenField(f, |tag| + |v|));
  }

  lemma FieldParsed(f: Field, rest: Bytes, more: seq<Field>)
    requires Parse(rest) == Some(more)
    ensures Parse(Encode(f) + rest) == Some([f] + more)
  {
    FieldTaken(f, rest);
    assert (Encode(f) + rest)[|Encode(f)|..] == rest;
  }

  lemma Regrouped<T>(a: seq<T>, b: seq<T>, c: seq<T>)
    ensures (a + b) + c == a + (b + c)
  {
  }

  /** What is written is read back. */
  lemma {:induction false} EncodedParsed(fs: seq<Field>)
    ensures Parse(EncodeAll(fs)) == Some(fs)
  {
    if fs != [] {
      EncodedParsed(fs[1..]);
      FieldParsed(fs[0], EncodeAll(fs[1..]), fs[1..]);
      assert fs == [fs[0]] + fs[1..];
    }
  }

  lemma EncodeFirst(f: Field, rest: seq<Field>)
    ensures EncodeAll([f] + rest) == Encode(f) + EncodeAll(rest)
  {
    assert ([f] + rest)[1..] == rest;
  }

  lemma FirstAppended(f: Field, rest: seq<Field>, b: seq<Field>, x: Bytes, y: Bytes)
    requires EncodeAll(rest) == x && EncodeAll(b) == y && EncodeAll(rest + b) == x + y
    ensures EncodeAll(([f] + rest) + b) == EncodeAll([f] + rest) + y
  {
    EncodeFirst(f, rest + b);
    EncodeFirst(f, rest);
    Regrouped([f], rest, b);
    Regrouped(Encode(f), x, y);
  }

  lemma {:induction false} EncodeAppend(a: seq<Field>, b: seq<Field>)
    ensures EncodeAll(a + b) == EncodeAll(a) + EncodeAll(b)
  {
    if a == [] {
      assert a + b == b;
    } else {
      var f, rest := a[0], a[1..];
      EncodeAppend(rest, b);
      FirstAppended(f, rest, b, EncodeAll(rest), EncodeAll(b));
      assert a == [f] + rest;
    }
  }

  lemma EncodeOne(f: Field)
    ensures EncodeAll([f]) == Encode(f)
  {
    assert [f][1..] == [];
  }
}
