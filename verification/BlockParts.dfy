/** A block is stored in pieces of 1024 bytes: the split and the copy back of internal/store/postgres/postgres.go, and the
    split and join of migrations/00003_block_parts.sql. */
module BlockParts {
  import opened Basics

  const PART: int := 1024

  /** How many parts the loop `for at := 0; at < len; at += PART` makes. */
  function PartCount(data: Bytes): nat {
    (|data| + PART - 1) / PART
  }

  function Part(data: Bytes, p: nat): Bytes
    requires p < PartCount(data)
  {
    data[p * PART..Min((p + 1) * PART, |data|)]
  }

  function Split(data: Bytes): seq<Bytes> {
    seq(PartCount(data), p requires 0 <= p < PartCount(data) => Part(data, p))
  }

  /** Parts are nonempty and at most PART bytes, and only the last one may be shorter. */
  lemma PartLength(data: Bytes, p: nat)
    requires p < PartCount(data)
    ensures 0 < |Part(data, p)| <= PART
    ensures p + 1 < PartCount(data) ==> |Part(data, p)| == PART
    ensures p * PART + |Part(data, p)| <= |data|
    ensures p + 1 == PartCount(data) ==> p * PART + |Part(data, p)| == |data|
  {}

  // ---- reading back ----

  /** Go's `copy(block[at:], part)`. */
  function Overlay(block: Bytes, at: nat, part: Bytes): (r: Bytes)
    requires at <= |block|
    ensures |r| == |block|
  {
    seq(|block|, o requires 0 <= o < |block| => if at <= o < at + |part| then part[o - at] else block[o])
  }

  // ---- the migration ----

  /** SQL's substring(data FROM from FOR n): positions start at 1, what lies outside is left out. */
  function Substring(data: Bytes, from: int, n: nat): Bytes {
    var lo := Max(0, Min(from - 1, |data|));
    data[lo..Max(lo, Min(from - 1 + n, |data|))]
  }

  /** SQL's integer division truncates toward zero. */
  function SqlDiv(a: int, b: int): int
    requires b > 0
  {
    if a >= 0 then a / b else -((-a) / b)
  }

  /** generate_series(0, (length(data) - 1) / 1024), one row per part. */
  function MigrateUp(data: Bytes): seq<Bytes> {
    seq(SqlDiv(|data| - 1, PART) + 1, p => Substring(data, p * PART + 1, PART))
  }

  /** string_agg(data, '' ORDER BY part). */
  function MigrateDown(parts: seq<Bytes>): Bytes {
    if parts == [] then [] else MigrateDown(parts[..|parts| - 1]) + parts[|parts| - 1]
  }

  /** The migration splits a block as the store does, exactly if the block is not empty: for an empty block it makes one
      empty part, the store none. Blocks are never empty, the smallest page has 512 bytes. */
  lemma MigrateUpIsSplit(data: Bytes)
    ensures MigrateUp(data) == Split(data) <==> data != []
  {
    if data != [] {
      assert SqlDiv(|data| - 1, PART) + 1 == PartCount(data);
      forall p | 0 <= p < PartCount(data) ensures MigrateUp(data)[p] == Part(data, p) {
        PartLength(data, p);
      }
    } else {
      assert |MigrateUp(data)| == 1 && |Split(data)| == 0;
    }
  }

  lemma {:induction false} JoinPrefix(data: Bytes, n: nat)
    requires n <= PartCount(data)
    ensures MigrateDown(Split(data)[..n]) == data[..Min(n * PART, |data|)]
  {
    if n > 0 {
      JoinPrefix(data, n - 1);
      PartLength(data, n - 1);
      var parts := Split(data)[..n];
      assert parts[..n - 1] == Split(data)[..n - 1];
    }
  }

  /** Down undoes the store's split and its own split, for every block. */
  lemma MigrateDownJoins(data: Bytes)
    ensures MigrateDown(Split(data)) == data
    ensures MigrateDown(MigrateUp(data)) == data
  {
    JoinPrefix(data, PartCount(data));
    assert Split(data)[..PartCount(data)] == Split(data);
    MigrateUpIsSplit(data);
    if data == [] {
      assert MigrateUp(data) == [[]];
    }
  }
}
