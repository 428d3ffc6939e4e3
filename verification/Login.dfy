/** internal/protocol/login.go: the bytes that a client signs at login, and the bytes whose hash is a subject. */
module Login {
  import opened Basics

  const TRANSCRIPT_LABEL := "sqlite-remote-auth-v1"
  const SUBJECT_LABEL := "sqlite-remote-subject-v1"

  /** A string of ASCII characters as bytes. */
  function Ascii(s: string): (b: Bytes)
    requires forall i :: 0 <= i < |s| ==> s[i] as int < 128
    ensures |b| == |s| && forall i :: 0 <= i < |s| ==> b[i] == s[i] as int
  {
    seq(|s|, i requires 0 <= i < |s| => s[i] as int)
  }

  /** binary.BigEndian.AppendUint32 to nothing. */
  function BigEndian(n: u32): (b: Bytes)
    ensures |b| == 4
  {
    [n / 256 / 256 / 256, n / 256 / 256 % 256, n / 256 % 256, n % 256]
  }

  function FromBigEndian(b: Bytes): u32
    requires |b| == 4
  {
    (((b[0] as int) * 256 + b[1]) * 256 + b[2]) * 256 + b[3]
  }

  /** The first byte is the most significant. */
  lemma BigEndianValue(n: u32)
    ensures var b := BigEndian(n);
            n == (b[0] as int) * 0x100_0000 + (b[1] as int) * 0x1_0000 + (b[2] as int) * 0x100 + b[3]
  {
  }

  lemma BigEndianRoundTrip(n: u32)
    ensures FromBigEndian(BigEndian(n)) == n
  {
  }

  /** The conversion of a length to uint32 keeps its low 32 bits. */
  function Length(part: Bytes): u32 { |part| % (MAX32 + 1) }

  function Framed(parts: seq<Bytes>): Bytes {
    if parts == [] then []
    else Framed(parts[..|parts| - 1]) + BigEndian(Length(parts[|parts| - 1])) + parts[|parts| - 1]
  }

  function Parts(serverID: Bytes, nonce: Bytes, instanceID: Bytes, alg: u32, publicKey: Bytes): seq<Bytes> {
    [Ascii(TRANSCRIPT_LABEL), serverID, nonce, instanceID, BigEndian(alg), publicKey]
  }

  method Transcript(serverID: Bytes, nonce: Bytes, instanceID: Bytes, alg: u32, publicKey: Bytes) returns (out: Bytes)
    ensures out == Framed(Parts(serverID, nonce, instanceID, alg, publicKey))
  {
    var parts := Parts(serverID, nonce, instanceID, alg, publicKey);
    out := [];
    var i := 0;
    while i < |parts|
      invariant i <= |parts| && out == Framed(parts[..i])
    {
      assert parts[..i + 1][..i] == parts[..i];
      out := out + BigEndian(Length(parts[i]));
      out := out + parts[i];
      i := i + 1;
    }
    assert parts[..i] == parts;
  }

  // ---- the decoder ----

  /** Reads length-prefixed parts until the end; None if a length or a part is cut off. */
  function Decode(b: Bytes): Option<seq<Bytes>> {
    if b == [] then Some([])
    else if |b| < 4 || |b| < 4 + FromBigEndian(b[..4]) then None
    else
      var n := FromBigEndian(b[..4]);
      var rest := Decode(b[4 + n..]);
      if rest.None? then None else Some([b[4..4 + n]] + rest.value)
  }

  predicate Short(parts: seq<Bytes>) {
    forall i :: 0 <= i < |parts| ==> |parts[i]| <= MAX32
  }

  lemma LengthExact(part: Bytes)
    requires |part| <= MAX32
    ensures Length(part) == |part|
  {
  }

  /** Framing from the front. */
  lemma {:induction false} FramedFirst(parts: seq<Bytes>)
    requires parts != []
    ensures Framed(parts) == BigEndian(Length(parts[0])) + parts[0] + Framed(parts[1..])
  {
    if |parts| > 1 {
      var init := parts[..|parts| - 1];
      FramedFirst(init);
      assert init[1..] == parts[1..][..|parts| - 2] && parts[1..][|parts| - 2] == parts[|parts| - 1];
    }
  }

  lemma DecodeFirst(part: Bytes, rest: Bytes, more: seq<Bytes>)
    requires |part| <= MAX32 && Decode(rest) == Some(more)
    ensures Decode(BigEndian(|part|) + part + rest) == Some([part] + more)
  {
    var b := BigEndian(|part|) + part + rest;
    BigEndianRoundTrip(|part|);
    assert b[..4] == BigEndian(|part|) && b[4..4 + |part|] == part && b[4 + |part|..] == rest;
  }

  /** The decoder inverts the framing. */
  lemma {:induction false} DecodeFramed(parts: seq<Bytes>)
    requires Short(parts)
    ensures Decode(Framed(parts)) == Some(parts)
    decreases |parts|
  {
    if parts != [] {
      var first, more := parts[0], parts[1..];
      DecodeFramed(more);
      DecodeFirst(first, Framed(more), more);
      LengthExact(first);
      FramedFirst(parts);
      assert parts == [first] + more;
    }
  }

  /** Framing the parts of one list after those of another. */
  lemma {:induction false} FramedAppend(a: seq<Bytes>, b: seq<Bytes>)
    ensures Framed(a + b) == Framed(a) + Framed(b)
    decreases |b|
  {
    if b == [] {
      assert a + b == a;
    } else {
      var init, last := b[..|b| - 1], b[|b| - 1];
      FramedAppend(a, init);
      AppendLast(a, init, last);
      assert b == init + [last];
    }
  }

  lemma AppendLast(a: seq<Bytes>, init: seq<Bytes>, last: Bytes)
    requires Framed(a + init) == Framed(a) + Framed(init)
    ensures Framed(a + (init + [last])) == Framed(a) + Framed(init + [last])
  {
    assert a + (init + [last]) == (a + init) + [last];
    FramedLast(a + (init + [last]), a + init, last);
    FramedLast(init + [last], init, last);
    Regroup(Framed(a), Framed(init), BigEndian(Length(last)) + last);
  }

  lemma FramedLast(parts: seq<Bytes>, init: seq<Bytes>, last: Bytes)
    requires parts == init + [last]
    ensures Framed(parts) == Framed(init) + (BigEndian(Length(last)) + last)
  {
    assert parts[..|parts| - 1] == init && parts[|parts| - 1] == last;
    Regroup(Framed(init), BigEndian(Length(last)), last);
  }

  lemma Regroup(a: Bytes, b: Bytes, c: Bytes)
    ensures (a + b) + c == a + (b + c) && a + [] + c == a + c
  {
  }

  lemma FramedOne(a: Bytes)
    ensures Framed([a]) == BigEndian(Length(a)) + a
  {
    assert [a][..0] == [];
  }

  lemma FramedTwo(a: Bytes, b: Bytes)
    requires |a| <= MAX32 && |b| <= MAX32
    ensures Framed([a, b]) == BigEndian(|a|) + a + BigEndian(|b|) + b
  {
    assert [a, b][..1] == [a] && [a][..0] == [];
    LengthExact(a);
    LengthExact(b);
    assert Framed([a]) == Framed([]) + BigEndian(|a|) + a;
  }

  /** One part with its length, modulo 2^32, before it. */
  function Field(part: Bytes): Bytes { BigEndian(|part| % 0x1_0000_0000) + part }

  lemma FieldsThree(a: Bytes, b: Bytes, c: Bytes)
    ensures Framed([a, b, c]) == Field(a) + Field(b) + Field(c)
  {
    FramedOne(a);
    FramedLast([a, b], [a], b);
    FramedLast([a, b, c], [a, b], c);
  }

  /** The signed bytes: label, server ID and nonce, then instance ID, algorithm and key, each after its length. */
  lemma TranscriptLayout(s: Bytes, n: Bytes, i: Bytes, a: u32, k: Bytes)
    ensures Framed(Parts(s, n, i, a, k))
            == (Field(Ascii("sqlite-remote-auth-v1")) + Field(s) + Field(n)) + (Field(i) + Field(BigEndian(a)) + Field(k))
  {
    var front: seq<Bytes>, back: seq<Bytes> := [Ascii("sqlite-remote-auth-v1"), s, n], [i, BigEndian(a), k];
    assert Parts(s, n, i, a, k) == front + back;
    FramedAppend(front, back);
    FieldsThree(Ascii("sqlite-remote-auth-v1"), s, n);
    FieldsThree(i, BigEndian(a), k);
  }

  // ---- the transcript is unambiguous ----

  /** The parts after the server ID. */
  function Rest(nonce: Bytes, instanceID: Bytes, alg: u32, publicKey: Bytes): seq<Bytes> {
    [nonce, instanceID, BigEndian(alg), publicKey]
  }

  lemma ServerIDFirst(s: Bytes, n: Bytes, i: Bytes, a: u32, k: Bytes)
    ensures Framed(Parts(s, n, i, a, k))
            == Framed([Ascii(TRANSCRIPT_LABEL)]) + ((BigEndian(Length(s)) + s) + Framed(Rest(n, i, a, k)))
  {
    var head: seq<Bytes> := [Ascii(TRANSCRIPT_LABEL)];
    assert Parts(s, n, i, a, k) == head + ([s] + Rest(n, i, a, k));
    FramedAppend(head, [s] + Rest(n, i, a, k));
    FramedAppend([s], Rest(n, i, a, k));
    FramedOne(s);
  }

  lemma RestSize(n: Bytes, i: Bytes, a: u32, k: Bytes)
    requires |n| <= MAX32 && |i| + |k| <= MAX32
    ensures |Framed(Rest(n, i, a, k))| == 20 + |n| + |i| + |k|
  {
    var front: seq<Bytes>, back: seq<Bytes> := [n, i], [BigEndian(a), k];
    assert Rest(n, i, a, k) == front + back;
    FramedAppend(front, back);
    FramedTwo(n, i);
    FramedTwo(BigEndian(a), k);
  }

  lemma RestInjective(n1: Bytes, i1: Bytes, a1: u32, k1: Bytes, n2: Bytes, i2: Bytes, a2: u32, k2: Bytes)
    requires |n1| <= MAX32 && |i1| + |k1| <= MAX32 && |n2| <= MAX32 && |i2| + |k2| <= MAX32
    requires Framed(Rest(n1, i1, a1, k1)) == Framed(Rest(n2, i2, a2, k2))
    ensures n1 == n2 && i1 == i2 && a1 == a2 && k1 == k2
  {
    var r1, r2 := Rest(n1, i1, a1, k1), Rest(n2, i2, a2, k2);
    DecodeFramed(r1);
    DecodeFramed(r2);
    assert r1[0] == r2[0] && r1[1] == r2[1] && r1[2] == r2[2] && r1[3] == r2[3];
    BigEndianRoundTrip(a1);
    BigEndianRoundTrip(a2);
  }

  /** Equal bytes have equal length prefixes and equal remainders. */
  lemma SamePrefix(p: Bytes, b1: Bytes, s1: Bytes, r1: Bytes, b2: Bytes, s2: Bytes, r2: Bytes)
    requires |b1| == |b2| && p + ((b1 + s1) + r1) == p + ((b2 + s2) + r2)
    ensures b1 == b2 && |s1| + |r1| == |s2| + |r2| && s1 + r1 == s2 + r2
  {
    var x, y := p + ((b1 + s1) + r1), p + ((b2 + s2) + r2);
    assert x[|p|..|p| + |b1|] == b1 && y[|p|..|p| + |b1|] == b2;
    assert x[|p| + |b1|..] == s1 + r1 && y[|p| + |b1|..] == s2 + r2;
  }

  lemma SameSplit(s1: Bytes, r1: Bytes, s2: Bytes, r2: Bytes)
    requires s1 + r1 == s2 + r2 && |s1| == |s2|
    ensures s1 == s2 && r1 == r2
  {
    assert (s1 + r1)[..|s1|] == s1 && (s2 + r2)[..|s1|] == s2;
    assert (s1 + r1)[|s1|..] == r1 && (s2 + r2)[|s1|..] == r2;
  }

  lemma SameLength(s1: Bytes, s2: Bytes)
    requires Length(s1) == Length(s2) && -MAX32 <= |s1| - |s2| <= MAX32
    ensures |s1| == |s2|
  {
  }

  /** What the server and one Hello frame put into a transcript besides the server ID. */
  predicate Real(nonce: Bytes, instanceID: Bytes, publicKey: Bytes) {
    |nonce| == 32 && |instanceID| + |publicKey| <= MAX32
  }

  /** Equal transcripts have equal length prefixes, and equal bytes after them. */
  lemma SameTail(s1: Bytes, n1: Bytes, i1: Bytes, a1: u32, k1: Bytes,
                 s2: Bytes, n2: Bytes, i2: Bytes, a2: u32, k2: Bytes)
    requires Framed(Parts(s1, n1, i1, a1, k1)) == Framed(Parts(s2, n2, i2, a2, k2))
    ensures Length(s1) == Length(s2)
    ensures s1 + Framed(Rest(n1, i1, a1, k1)) == s2 + Framed(Rest(n2, i2, a2, k2))
  {
    var r1, r2 := Framed(Rest(n1, i1, a1, k1)), Framed(Rest(n2, i2, a2, k2));
    ServerIDFirst(s1, n1, i1, a1, k1);
    ServerIDFirst(s2, n2, i2, a2, k2);
    SamePrefix(Framed([Ascii(TRANSCRIPT_LABEL)]), BigEndian(Length(s1)), s1, r1, BigEndian(Length(s2)), s2, r2);
    BigEndianRoundTrip(Length(s1));
    BigEndianRoundTrip(Length(s2));
  }

  lemma SameTotal(s1: Bytes, n1: Bytes, i1: Bytes, a1: u32, k1: Bytes,
                  s2: Bytes, n2: Bytes, i2: Bytes, a2: u32, k2: Bytes)
    requires |n1| <= MAX32 && |i1| + |k1| <= MAX32 && |n2| <= MAX32 && |i2| + |k2| <= MAX32
    requires s1 + Framed(Rest(n1, i1, a1, k1)) == s2 + Framed(Rest(n2, i2, a2, k2))
    ensures |s1| + |n1| + |i1| + |k1| == |s2| + |n2| + |i2| + |k2|
  {
    RestSize(n1, i1, a1, k1);
    RestSize(n2, i2, a2, k2);
    assert |s1 + Framed(Rest(n1, i1, a1, k1))| == |s2 + Framed(Rest(n2, i2, a2, k2))|;
  }

  /** Two logins sign the same bytes only if they agree in everything, however long the server ID is: the nonce has 32
      bytes, and instance ID and public key arrive in one frame of less than 2^32 bytes. */
  lemma LoginInjective(s1: Bytes, n1: Bytes, i1: Bytes, a1: u32, k1: Bytes,
                       s2: Bytes, n2: Bytes, i2: Bytes, a2: u32, k2: Bytes)
    requires Real(n1, i1, k1) && Real(n2, i2, k2)
    requires Framed(Parts(s1, n1, i1, a1, k1)) == Framed(Parts(s2, n2, i2, a2, k2))
    ensures s1 == s2 && n1 == n2 && i1 == i2 && a1 == a2 && k1 == k2
  {
    SameTail(s1, n1, i1, a1, k1, s2, n2, i2, a2, k2);
    SameTotal(s1, n1, i1, a1, k1, s2, n2, i2, a2, k2);
    SameLength(s1, s2);
    SameSplit(s1, Framed(Rest(n1, i1, a1, k1)), s2, Framed(Rest(n2, i2, a2, k2)));
    RestInjective(n1, i1, a1, k1, n2, i2, a2, k2);
  }

  /** With any nonces, two transcripts are equal only if they agree in everything, for parts shorter than 2^32 bytes. */
  lemma TranscriptInjective(s1: Bytes, n1: Bytes, i1: Bytes, a1: u32, k1: Bytes,
                            s2: Bytes, n2: Bytes, i2: Bytes, a2: u32, k2: Bytes)
    requires Short([s1, n1, i1, k1]) && Short([s2, n2, i2, k2])
    requires Framed(Parts(s1, n1, i1, a1, k1)) == Framed(Parts(s2, n2, i2, a2, k2))
    ensures s1 == s2 && n1 == n2 && i1 == i2 && a1 == a2 && k1 == k2
  {
    PartsDecode(s1, n1, i1, a1, k1);
    PartsDecode(s2, n2, i2, a2, k2);
    BigEndianRoundTrip(a1);
    BigEndianRoundTrip(a2);
  }

  lemma PartsDecode(s: Bytes, n: Bytes, i: Bytes, a: u32, k: Bytes)
    requires Short([s, n, i, k])
    ensures Decode(Framed(Parts(s, n, i, a, k))) == Some(Parts(s, n, i, a, k))
  {
    assert |[s, n, i, k][0]| <= MAX32 && |[s, n, i, k][1]| <= MAX32;
    assert |[s, n, i, k][2]| <= MAX32 && |[s, n, i, k][3]| <= MAX32;
    DecodeFramed(Parts(s, n, i, a, k));
  }

  /** The bytes whose hash is the subject of a key. */
  function SubjectInput(alg: u32, publicKey: Bytes): Bytes {
    Framed(Parts(Ascii(SUBJECT_LABEL), [], [], alg, publicKey))
  }

  /** They are a transcript whose server ID is the label of subjects, without nonce and instance ID. */
  lemma SubjectLayout(alg: u32, publicKey: Bytes)
    ensures SubjectInput(alg, publicKey)
            == (Field(Ascii("sqlite-remote-auth-v1")) + Field(Ascii("sqlite-remote-subject-v1")) + Field([]))
               + (Field([]) + Field(BigEndian(alg)) + Field(publicKey))
  {
    TranscriptLayout(Ascii("sqlite-remote-subject-v1"), [], [], alg, publicKey);
  }

  /** Different keys, and the same key under different algorithms, have different inputs. */
  lemma SubjectInjective(a1: u32, k1: Bytes, a2: u32, k2: Bytes)
    requires Short([k1, k2]) && SubjectInput(a1, k1) == SubjectInput(a2, k2)
    ensures a1 == a2 && k1 == k2
  {
    assert |[k1, k2][0]| <= MAX32 && |[k1, k2][1]| <= MAX32;
    TranscriptInjective(Ascii(SUBJECT_LABEL), [], [], a1, k1, Ascii(SUBJECT_LABEL), [], [], a2, k2);
  }

  /** No login signs the bytes that are hashed to a subject, however long the server ID is. */
  lemma LoginIsNoSubject(s: Bytes, n: Bytes, i: Bytes, a: u32, k: Bytes, alg: u32, publicKey: Bytes)
    requires Real(n, i, k) && |publicKey| <= MAX32
    ensures Framed(Parts(s, n, i, a, k)) != SubjectInput(alg, publicKey)
  {
    var own := Ascii(SUBJECT_LABEL);
    if Framed(Parts(s, n, i, a, k)) == SubjectInput(alg, publicKey) {
      SameTail(s, n, i, a, k, own, [], [], alg, publicKey);
      SameTotal(s, n, i, a, k, own, [], [], alg, publicKey);
      SameLength(s, own);
      SameSplit(s, Framed(Rest(n, i, a, k)), own, Framed(Rest([], [], alg, publicKey)));
      RestInjective(n, i, a, k, [], [], alg, publicKey);
    }
  }

  // ---- the bare framing ----

  /** A server ID of 2^32 bytes that looks like a nonce `pad` and the length of an instance ID. */
  function LongID(pad: Bytes, inner: u32): Bytes
    requires |pad| <= MAX32
  {
    BigEndian(|pad|) + pad + BigEndian(inner)
  }

  lemma FramedThree(a: Bytes, b: Bytes, c: Bytes)
    ensures Framed([a, b, c]) == BigEndian(Length(a)) + a + Framed([b, c])
  {
    FramedAppend([a], [b, c]);
    assert [a] + [b, c] == [a, b, c];
    FramedOne(a);
  }

  lemma SplitLongID(pad: Bytes, inner: Bytes)
    requires |pad| <= MAX32 && |inner| <= MAX32
    ensures LongID(pad, |inner|) + inner == Framed([pad, inner])
  {
    FramedTwo(pad, inner);
  }

  /** The parts from the server ID to the instance ID, read in two ways. */
  lemma SameMiddle(pad: Bytes, nonce: Bytes, instanceID: Bytes)
    requires |pad| == MAX32 - 7 && |nonce| + |instanceID| <= MAX32 - 8
    ensures var inner := Framed([nonce, instanceID]);
            && |inner| <= MAX32 && |LongID(pad, |inner|)| == MAX32 + 1
            && Framed([LongID(pad, |inner|), nonce, instanceID]) == Framed([[], pad, inner])
  {
    FramedTwo(nonce, instanceID);
    var inner := Framed([nonce, instanceID]);
    var long, zero := LongID(pad, |inner|), BigEndian(0);
    LengthWraps(long);
    FramedThree(long, nonce, instanceID);
    FramedThree([], pad, inner);
    SplitLongID(pad, inner);
    Regroup(zero, long, inner);
    Regroup(zero, [], Framed([pad, inner]));
  }

  lemma LengthWraps(part: Bytes)
    requires |part| == MAX32 + 1
    ensures Length(part) == 0
  {
  }

  /** The framing alone does not separate parts of 2^32 bytes: with nonces of any length, which no server makes, two
      different lists of inputs have the same transcript. */
  lemma LongPartAmbiguous(pad: Bytes, nonce: Bytes, instanceID: Bytes, alg: u32, publicKey: Bytes)
    requires |pad| == MAX32 - 7 && |nonce| + |instanceID| <= MAX32 - 8
    ensures var inner := Framed([nonce, instanceID]);
            && |inner| <= MAX32 && LongID(pad, |inner|) != []
            && Framed(Parts(LongID(pad, |inner|), nonce, instanceID, alg, publicKey))
               == Framed(Parts([], pad, inner, alg, publicKey))
  {
    SameMiddle(pad, nonce, instanceID);
    var inner := Framed([nonce, instanceID]);
    AroundMiddle(LongID(pad, |inner|), nonce, instanceID, alg, publicKey);
    AroundMiddle([], pad, inner, alg, publicKey);
  }

  lemma AroundMiddle(s: Bytes, n: Bytes, i: Bytes, a: u32, k: Bytes)
    ensures Framed(Parts(s, n, i, a, k))
            == Framed([Ascii(TRANSCRIPT_LABEL)]) + Framed([s, n, i]) + Framed([BigEndian(a), k])
  {
    var head, middle, tail := [Ascii(TRANSCRIPT_LABEL)], [s, n, i], [BigEndian(a), k];
    assert Parts(s, n, i, a, k) == head + middle + tail;
    FramedAppend(head + middle, tail);
    FramedAppend(head, middle);
  }
}
