/** Machine integers, byte strings and sorted listings of sets: what the other modules share. */
module Basics {

  const MAX32: int := 0xFFFF_FFFF
  const MAX63: int := 0x7FFF_FFFF_FFFF_FFFF
  const MAX64: int := 0xFFFF_FFFF_FFFF_FFFF

  type u32 = n: int | 0 <= n <= MAX32
  type u64 = n: int | 0 <= n <= MAX64
  type i64 = n: int | -MAX63 - 1 <= n <= MAX63
  type byte = n: int | 0 <= n < 256
  type Bytes = seq<byte>

  datatype Option<+T> = None | Some(value: T)

  /** Go's `n + 1` on a uint64. */
  function Inc(n: u64): u64 {
    if n == MAX64 then 0 else n + 1
  }

  /** Go's `a + b` on uint64. */
  function Add64(a: u64, b: u64): u64 {
    if a + b > MAX64 then a + b - MAX64 - 1 else a + b
  }

  /** Go's conversion of a uint64 to an int64. */
  function ToInt64(n: u64): i64 {
    if n > MAX63 then n - MAX64 - 1 else n
  }

  /** Go's conversion of an int64 to a uint64. */
  function ToUint64(n: i64): u64 {
    if n < 0 then n + MAX64 + 1 else n
  }

  /** The four are arithmetic modulo 2^64, in the range of their type. */
  lemma Modulo64(a: u64, b: u64, n: i64)
    ensures Inc(a) == (a + 1) % (MAX64 + 1) && Add64(a, b) == (a + b) % (MAX64 + 1)
    ensures ToUint64(n) == n % (MAX64 + 1) && ToInt64(ToUint64(n)) == n && ToUint64(ToInt64(a)) == a
  {
  }

  function Min(a: int, b: int): int { if a < b then a else b }
  function Max(a: int, b: int): int { if a < b then b else a }

  function Lookup<K, V>(m: map<K, V>, k: K): Option<V> {
    if k in m then Some(m[k]) else None
  }

  lemma SameMaps<K(!new), V>(a: map<K, V>, b: map<K, V>)
    requires forall k :: Lookup(a, k) == Lookup(b, k)
    ensures a == b
  {
    forall k ensures k in a <==> k in b { assert Lookup(a, k) == Lookup(b, k); }
    forall k | k in a ensures a[k] == b[k] { assert Lookup(a, k) == Lookup(b, k); }
  }

  predicate Distinct<T(==)>(s: seq<T>) {
    forall i, j :: 0 <= i < j < |s| ==> s[i] != s[j]
  }

  // ---- sorted listings of finite sets ----

  ghost predicate StrictOrder<T(!new)>(less: (T, T) -> bool) {
    && (forall x :: !less(x, x))
    && (forall x, y, z :: less(x, y) && less(y, z) ==> less(x, z))
    && (forall x, y :: x != y ==> less(x, y) || less(y, x))
  }

  predicate Ascending<T>(s: seq<T>, less: (T, T) -> bool) {
    forall i, j :: 0 <= i < j < |s| ==> less(s[i], s[j])
  }

  ghost predicate IsLeast<T>(m: T, s: set<T>, less: (T, T) -> bool) {
    m in s && forall x :: x in s && x != m ==> less(m, x)
  }

  lemma {:induction false} LeastExists<T(!new)>(s: set<T>, less: (T, T) -> bool)
    requires StrictOrder(less) && s != {}
    ensures exists m :: IsLeast(m, s, less)
    decreases s
  {
    var m :| m in s;
    var rest := s - {m};
    if rest == {} {
      assert s == {m} + rest == {m};
      assert IsLeast(m, s, less);
    } else {
      LeastExists(rest, less);
      var n :| IsLeast(n, rest, less);
      forall x | x in s && x != m && less(m, n) ensures less(m, x) { assert x in rest; }
      forall x | x in s && x != n && less(n, m) ensures less(n, x) { assert x == m || x in rest; }
      assert IsLeast(if less(n, m) then n else m, s, less);
    }
  }

  ghost function Least<T(!new)>(s: set<T>, less: (T, T) -> bool): (m: T)
    requires StrictOrder(less) && s != {}
    ensures IsLeast(m, s, less)
  {
    LeastExists(s, less);
    var m :| IsLeast(m, s, less);
    m
  }

  /** The elements of `s` in ascending order. */
  ghost function SortedSet<T(!new)>(s: set<T>, less: (T, T) -> bool): (r: seq<T>)
    requires StrictOrder(less)
    ensures Ascending(r, less) && |r| == |s|
    ensures forall x :: x in r <==> x in s
    decreases s
  {
    if s == {} then []
    else
      var m := Least(s, less);
      [m] + SortedSet(s - {m}, less)
  }

  lemma HeadIn<T>(s: seq<T>)
    ensures s == [] || s[0] in s
  {}

  /** An ascending listing is determined by its elements. */
  lemma {:induction false} AscendingUnique<T(!new)>(a: seq<T>, b: seq<T>, less: (T, T) -> bool)
    requires StrictOrder(less) && Ascending(a, less) && Ascending(b, less)
    requires forall x :: x in a <==> x in b
    ensures a == b
  {
    HeadIn(a);
    HeadIn(b);
    if a != [] {
      assert a[0] == b[0];
      forall x ensures x in a[1..] <==> x in b[1..] {
        if x in a[1..] { assert x in a && x != a[0]; }
        if x in b[1..] { assert x in b && x != b[0]; }
      }
      AscendingUnique(a[1..], b[1..], less);
      assert a == [a[0]] + a[1..] && b == [b[0]] + b[1..];
    }
  }

  /** Where `x` goes in an ascending list: `i` elements are below it. */
  method Place<T(==,!new)>(r: seq<T>, x: T, less: (T, T) -> bool) returns (i: nat)
    requires StrictOrder(less) && Ascending(r, less)
    ensures i <= |r|
    ensures forall j :: 0 <= j < i ==> less(r[j], x)
    ensures forall j :: i <= j < |r| ==> r[j] == x || less(x, r[j])
  {
    i := 0;
    while i < |r| && less(r[i], x)
      invariant i <= |r|
      invariant forall j :: 0 <= j < i ==> less(r[j], x)
    {
      i := i + 1;
    }
  }

  lemma Inserted<T(!new)>(r: seq<T>, x: T, i: nat, less: (T, T) -> bool)
    requires Ascending(r, less) && i <= |r|
    requires (forall j :: 0 <= j < i ==> less(r[j], x)) && (forall j :: i <= j < |r| ==> less(x, r[j]))
    ensures Ascending(r[..i] + [x] + r[i..], less)
    ensures forall y :: y in r[..i] + [x] + r[i..] <==> y in r || y == x
  {
    assert r == r[..i] + r[i..];
  }

  /** Sorts by insertion and drops repeated elements. */
  method Sort<T(==,!new)>(xs: seq<T>, less: (T, T) -> bool) returns (r: seq<T>)
    requires StrictOrder(less)
    ensures r == SortedSet((set x | x in xs), less)
  {
    r := [];
    var n := 0;
    while n < |xs|
      invariant n <= |xs|
      invariant Ascending(r, less)
      invariant forall x :: x in r <==> x in xs[..n]
    {
      var i := Place(r, xs[n], less);
      if i == |r| || r[i] != xs[n] {
        Inserted(r, xs[n], i, less);
        r := r[..i] + [xs[n]] + r[i..];
      }
      assert xs[..n + 1] == xs[..n] + [xs[n]];
      n := n + 1;
    }
    assert xs[..n] == xs;
    AscendingUnique(r, SortedSet((set x | x in xs), less), less);
  }

  /** Distinct elements in the order of their rank. */
  predicate Ranked<T(==)>(s: seq<T>, rank: map<T, int>) {
    && Distinct(s) && (forall i :: 0 <= i < |s| ==> s[i] in rank)
    && forall i, j :: 0 <= i < j < |s| ==> rank[s[i]] <= rank[s[j]]
  }

  lemma InsertRanked<T>(s: seq<T>, x: T, i: nat, rank: map<T, int>)
    requires Ranked(s, rank) && x in rank && x !in s && i <= |s|
    requires forall j :: 0 <= j < i ==> rank[s[j]] <= rank[x]
    requires i < |s| ==> rank[x] <= rank[s[i]]
    ensures Ranked(s[..i] + [x] + s[i..], rank)
    ensures forall y :: y in s[..i] + [x] + s[i..] <==> y in s || y == x
  {
    assert s == s[..i] + s[i..];
  }

  /** Sorts distinct elements by rank; elements of the same rank come in any order. */
  method SortByRank<T(==)>(xs: seq<T>, rank: map<T, int>) returns (r: seq<T>)
    requires Distinct(xs) && forall x :: x in xs ==> x in rank
    ensures Ranked(r, rank) && forall x :: x in r <==> x in xs
  {
    r := [];
    var n := 0;
    while n < |xs|
      invariant n <= |xs| && Ranked(r, rank) && (forall x :: x in r <==> x in xs[..n])
    {
      var i := 0;
      while i < |r| && rank[r[i]] <= rank[xs[n]]
        invariant i <= |r| && forall j :: 0 <= j < i ==> rank[r[j]] <= rank[xs[n]]
      {
        i := i + 1;
      }
      InsertRanked(r, xs[n], i, rank);
      r := r[..i] + [xs[n]] + r[i..];
      assert xs[..n + 1] == xs[..n] + [xs[n]];
      n := n + 1;
    }
    assert xs[..n] == xs;
  }

  // ---- the two orders in use ----

  predicate Below(x: u64, y: u64) { x < y }

  /** strings.Compare(a, b) < 0. On valid UTF-8, byte order and code point order agree. */
  predicate Before(a: string, b: string) {
    b != [] && (a == [] || a[0] < b[0] || (a[0] == b[0] && Before(a[1..], b[1..])))
  }

  lemma {:induction false} BeforeTransitive(a: string, b: string, c: string)
    requires Before(a, b) && Before(b, c)
    ensures Before(a, c)
  {
    if a != [] && a[0] == b[0] && b[0] == c[0] { BeforeTransitive(a[1..], b[1..], c[1..]); }
  }

  lemma {:induction false} BeforeTotal(a: string, b: string)
    ensures a != b ==> Before(a, b) || Before(b, a)
    ensures !Before(a, a)
  {
    if a != [] {
      BeforeTotal(a[1..], if b == [] then [] else b[1..]);
      if b != [] && a[0] == b[0] {
        assert a == [a[0]] + a[1..] && b == [b[0]] + b[1..];
      }
    }
  }

  lemma Orders()
    ensures StrictOrder<u64>(Below) && StrictOrder<string>(Before)
  {
    forall a, b: string ensures a != b ==> Before(a, b) || Before(b, a) ensures !Before(a, a) { BeforeTotal(a, b); }
    forall a, b, c | Before(a, b) && Before(b, c) ensures Before(a, c) { BeforeTransitive(a, b, c); }
  }
}
