/** cacheAge of internal/token/keys.go: how long a JWKS may be used, from its Cache-Control header. Times are in
    nanoseconds. */
module CacheControl {
  import opened Basics

  const SECOND: int := 1_000_000_000
  const MIN_CACHE_AGE: int := 10 * SECOND
  const MAX_CACHE_AGE: int := 300 * SECOND

  // ---- the string functions ----

  /** The index of the first `c`, or the length. */
  function Find(s: string, c: char): (i: nat)
    ensures i <= |s| && c !in s[..i] && (i < |s| ==> s[i] == c)
  {
    if s == [] || s[0] == c then 0 else 1 + Find(s[1..], c)
  }

  /** strings.SplitSeq at commas. */
  function Split(s: string): (parts: seq<string>)
    ensures parts != []
  {
    var i := Find(s, ',');
    if i == |s| then [s] else [s[..i]] + Split(s[i + 1..])
  }

  function TrimLeft(s: string, drop: char -> bool): string {
    if s != [] && drop(s[0]) then TrimLeft(s[1..], drop) else s
  }

  function TrimRight(s: string, drop: char -> bool): string {
    if s != [] && drop(s[|s| - 1]) then TrimRight(s[..|s| - 1], drop) else s
  }

  function Trim(s: string, drop: char -> bool): string { TrimRight(TrimLeft(s, drop), drop) }

  /** unicode.IsSpace. */
  predicate Space(c: char) {
    var n := c as int;
    || 9 <= n <= 13 || n in {0x20, 0x85, 0xA0, 0x1680, 0x2028, 0x2029, 0x202F, 0x205F, 0x3000} || 0x2000 <= n <= 0x200A
  }

  predicate Quote(c: char) { c == '"' }

  function Lower(c: char): char {
    if 'A' <= c <= 'Z' then (c as int + 32) as char else c
  }

  /** strings.EqualFold with "max-age", whose letters have no other case variants. */
  predicate IsMaxAge(name: string) {
    |name| == 7 && forall i :: 0 <= i < 7 ==> Lower(name[i]) == "max-age"[i]
  }

  predicate Digit(c: char) { '0' <= c <= '9' }

  predicate Digits(s: string) { forall i :: 0 <= i < |s| ==> Digit(s[i]) }

  function Value(digits: string): nat
    requires Digits(digits)
  {
    if digits == [] then 0
    else
      var last := digits[|digits| - 1];
      assert Digit(last);
      10 * Value(digits[..|digits| - 1]) + (last as int - '0' as int)
  }

  /** strconv.ParseInt in base 10 with 64 bits. */
  function ParseInt(s: string): Option<i64> {
    var signed := s != [] && s[0] in {'+', '-'};
    var digits := if signed then s[1..] else s;
    if digits == [] || !Digits(digits) then None
    else
      var n := if signed && s[0] == '-' then -(Value(digits) as int) else Value(digits);
      if -MAX63 - 1 <= n <= MAX63 then Some(n) else None
  }

  // ---- the age ----

  /** The product of two int64 wraps around. */
  function Wrapped(n: int): i64 {
    ToInt64(n % (MAX64 + 1))
  }

  function Clamp(age: int): (r: int)
    ensures MIN_CACHE_AGE <= r <= MAX_CACHE_AGE
  {
    Min(Max(age, MIN_CACHE_AGE), MAX_CACHE_AGE)
  }

  datatype Directive = Ignored | Malformed | MaxAge(seconds: i64)

  function Read(part: string): (d: Directive)
    ensures d.MaxAge? ==> d.seconds >= 0
  {
    var directive := Trim(part, Space);
    var i := Find(directive, '=');
    if i == |directive| || !IsMaxAge(directive[..i]) then Ignored
    else
      var seconds := ParseInt(Trim(directive[i + 1..], Quote));
      if seconds.None? || seconds.value < 0 then Malformed else MaxAge(seconds.value)
  }

  /** The first max-age decides. */
  function Age(parts: seq<string>): int {
    if parts == [] then MAX_CACHE_AGE
    else match Read(parts[0])
      case Ignored => Age(parts[1..])
      case Malformed => MAX_CACHE_AGE
      case MaxAge(seconds) => Clamp(Wrapped(seconds * SECOND))
  }

  function AgeOf(header: string): int { Age(Split(header)) }

  method CacheAge(header: string) returns (age: int)
    ensures age == AgeOf(header)
  {
    var parts := Split(header);
    var n := 0;
    while n < |parts|
      invariant n <= |parts| && AgeOf(header) == Age(parts[n..])
    {
      match Read(parts[n]) {
        case Ignored => n := n + 1;
        case Malformed => break;
        case MaxAge(seconds) => return Min(Max(Wrapped(seconds * SECOND), MIN_CACHE_AGE), MAX_CACHE_AGE);
      }
    }
    return MAX_CACHE_AGE;
  }

  /** Whatever the header says, even if the product overflows. */
  lemma {:induction false} AgeClamped(parts: seq<string>)
    ensures 10 * SECOND <= Age(parts) <= 300 * SECOND
  {
    if parts != [] { AgeClamped(parts[1..]); }
  }

  /** But the clamped value is the nearest to the true age exactly if the product does not overflow, or leaves a remainder
      modulo 2^64 between five minutes and 2^63 - 1. */
  lemma ClampIsNearest(seconds: i64)
    requires seconds >= 0
    ensures Clamp(Wrapped(seconds * SECOND)) == Clamp(seconds * SECOND)
            <==> seconds <= MAX63 / SECOND || MAX_CACHE_AGE <= seconds * SECOND % (MAX64 + 1) <= MAX63
  {
    if seconds <= MAX63 / SECOND { assert Wrapped(seconds * SECOND) == seconds * SECOND; }
  }

  /** Some 292 years become ten seconds. */
  lemma OverflowShortens()
    ensures Clamp(Wrapped(9_223_372_037 * SECOND)) == MIN_CACHE_AGE
  {
  }

  // ---- a header as RFC 9111 writes it ----

  /** The decimal digits of a number. */
  function Decimal(n: nat): string {
    if n < 10 then [(n + '0' as int) as char] else Decimal(n / 10) + [(n % 10 + '0' as int) as char]
  }

  lemma {:induction false} DecimalDigits(n: nat)
    ensures Decimal(n) != [] && Digits(Decimal(n)) && Value(Decimal(n)) == n
  {
    if n >= 10 {
      DecimalDigits(n / 10);
      assert Decimal(n)[..|Decimal(n)| - 1] == Decimal(n / 10);
    }
  }

  lemma {:induction false} FindAt(s: string, c: char, i: nat)
    requires i <= |s| && c !in s[..i] && (i < |s| ==> s[i] == c)
    ensures Find(s, c) == i
  {
    if i > 0 {
      assert s[0] == s[..i][0];
      assert s[1..][..i - 1] == s[..i][1..];
      FindAt(s[1..], c, i - 1);
    }
  }

  lemma {:induction false} TrimLeftPad(pad: string, s: string, drop: char -> bool)
    requires (forall i :: 0 <= i < |pad| ==> drop(pad[i])) && (s != [] ==> !drop(s[0]))
    ensures TrimLeft(pad + s, drop) == s
  {
    if pad == [] {
      assert pad + s == s;
    } else {
      assert (pad + s)[1..] == pad[1..] + s;
      TrimLeftPad(pad[1..], s, drop);
    }
  }

  lemma {:induction false} TrimRightPad(s: string, pad: string, drop: char -> bool)
    requires (forall i :: 0 <= i < |pad| ==> drop(pad[i])) && (s != [] ==> !drop(s[|s| - 1]))
    ensures TrimRight(s + pad, drop) == s
  {
    if pad == [] {
      assert s + pad == s;
    } else {
      assert (s + pad)[..|s + pad| - 1] == s + pad[..|pad| - 1];
      TrimRightPad(s, pad[..|pad| - 1], drop);
    }
  }

  lemma TrimPadded(left: string, s: string, right: string, drop: char -> bool)
    requires s != [] && !drop(s[0]) && !drop(s[|s| - 1])
    requires forall i :: 0 <= i < |left| ==> drop(left[i])
    requires forall i :: 0 <= i < |right| ==> drop(right[i])
    ensures Trim(left + s + right, drop) == s
  {
    assert left + s + right == left + (s + right);
    assert (s + right)[0] == s[0];
    TrimLeftPad(left, s + right, drop);
    TrimRightPad(s, right, drop);
  }

  /** max-age in upper and lower case letters. */
  predicate Named(name: string) {
    |name| == 7 && forall i :: 0 <= i < 7 ==> name[i] == "max-age"[i] || name[i] == "MAX-AGE"[i]
  }

  lemma NamedIsMaxAge(name: string)
    ensures IsMaxAge(name) <==> Named(name)
  {
    if |name| == 7 {
      assert name == [name[0], name[1], name[2], name[3], name[4], name[5], name[6]];
      assert IsMaxAge(name) ==> forall i :: 0 <= i < 7 ==> name[i] == "max-age"[i] || name[i] == "MAX-AGE"[i];
    }
  }

  predicate Spaces(s: string) { forall i :: 0 <= i < |s| ==> Space(s[i]) }

  /** Blanks and tabs are spaces, and no visible ASCII character is. */
  lemma SpaceIsBlank(c: char)
    ensures c == ' ' || c == '\t' ==> Space(c)
    ensures '!' <= c <= '~' ==> !Space(c)
  {
  }

  /** What may stand around the parts of a max-age directive: spaces around it, quotes around the number, and the name in
      any case. */
  predicate WellWritten(left: string, name: string, quotes: string, right: string) {
    Named(name) && (forall i :: 0 <= i < |quotes| ==> quotes[i] == '"') && Spaces(left) && Spaces(right)
  }

  function Written(left: string, name: string, quotes: string, n: nat, right: string): string {
    left + (name + "=" + (quotes + Decimal(n) + quotes)) + right
  }

  lemma DecimalQuoted(quotes: string, n: nat)
    requires forall i :: 0 <= i < |quotes| ==> Quote(quotes[i])
    ensures ParseInt(Trim(quotes + Decimal(n) + quotes, Quote)) == if n <= MAX63 then Some(n) else None
  {
    DecimalDigits(n);
    var d := Decimal(n);
    assert Digit(d[0]) && Digit(d[|d| - 1]);
    TrimPadded(quotes, d, quotes, Quote);
  }

  /** Numbers may have a sign, and count as far as they fit an int64. */
  lemma SignedParsed(n: nat)
    ensures ParseInt(Decimal(n)) == ParseInt("+" + Decimal(n)) == (if n <= MAX63 then Some(n) else None)
    ensures ParseInt("-" + Decimal(n)) == (if n <= MAX63 + 1 then Some(0 - n) else None)
  {
    DecimalDigits(n);
    assert Digit(Decimal(n)[0]);
    assert ("+" + Decimal(n))[1..] == Decimal(n) && ("-" + Decimal(n))[1..] == Decimal(n);
  }

  lemma NameHasNoEquals(name: string)
    requires Named(name)
    ensures IsMaxAge(name) && '=' !in name && ',' !in name && !Space(name[0])
  {
    NamedIsMaxAge(name);
  }

  lemma DirectiveTrimmed(left: string, name: string, quotes: string, n: nat, right: string)
    requires WellWritten(left, name, quotes, right)
    ensures Trim(Written(left, name, quotes, n, right), Space) == name + "=" + (quotes + Decimal(n) + quotes)
  {
    DecimalDigits(n);
    NameHasNoEquals(name);
    var value := quotes + Decimal(n) + quotes;
    var s := name + "=" + value;
    assert s[0] == name[0] && s[|s| - 1] == value[|value| - 1];
    assert quotes == [] ==> value == Decimal(n) && Digit(value[|value| - 1]);
    assert quotes != [] ==> value[|value| - 1] == quotes[|quotes| - 1];
    TrimPadded(left, s, right, Space);
  }

  lemma MaxAgeRead(left: string, name: string, quotes: string, n: nat, right: string)
    requires WellWritten(left, name, quotes, right)
    ensures Read(Written(left, name, quotes, n, right)) == if n <= MAX63 then MaxAge(n) else Malformed
  {
    DirectiveTrimmed(left, name, quotes, n, right);
    DecimalQuoted(quotes, n);
    NameHasNoEquals(name);
    var s := name + "=" + (quotes + Decimal(n) + quotes);
    assert s[..7] == name && s[8..] == quotes + Decimal(n) + quotes;
    FindAt(s, '=', 7);
  }

  lemma NoComma(left: string, name: string, quotes: string, n: nat, right: string)
    requires WellWritten(left, name, quotes, right)
    ensures ',' !in Written(left, name, quotes, n, right)
  {
    DecimalDigits(n);
    assert forall c :: c in Decimal(n) ==> Digit(c);
    NameHasNoEquals(name);
  }

  lemma SplitFirst(part: string, rest: string)
    requires ',' !in part
    ensures Split(part + "," + rest) == [part] + Split(rest) && Split(part) == [part]
  {
    var s := part + "," + rest;
    assert s[..|part|] == part && s[|part| + 1..] == rest && part[..|part|] == part;
    FindAt(s, ',', |part|);
    FindAt(part, ',', |part|);
  }

  /** The directives one after the other, each with a comma. */
  function Listed(parts: seq<string>): string {
    if parts == [] then "" else parts[0] + "," + Listed(parts[1..])
  }

  /** What follows a directive. */
  predicate Ending(after: string) { after == "" || after[0] == ',' }

  lemma FirstDecides(directive: string, after: string)
    requires ',' !in directive && !Read(directive).Ignored? && Ending(after)
    ensures AgeOf(directive + after) == Age([directive])
  {
    if after == "" {
      assert directive + after == directive;
      SplitFirst(directive, "");
    } else {
      assert directive + after == directive + "," + after[1..];
      SplitFirst(directive, after[1..]);
    }
  }

  lemma OthersSkipped(part: string, rest: string)
    requires ',' !in part && Read(part).Ignored?
    ensures AgeOf(part + "," + rest) == AgeOf(rest)
  {
    SplitFirst(part, rest);
    assert ([part] + Split(rest))[1..] == Split(rest);
  }

  lemma {:induction false} AllSkipped(before: seq<string>, rest: string)
    requires forall i :: 0 <= i < |before| ==> ',' !in before[i] && Read(before[i]).Ignored?
    ensures AgeOf(Listed(before) + rest) == AgeOf(rest)
  {
    if before == [] {
      assert Listed(before) + rest == rest;
    } else {
      AllSkipped(before[1..], rest);
      assert Listed(before) + rest == before[0] + "," + (Listed(before[1..]) + rest);
      OthersSkipped(before[0], Listed(before[1..]) + rest);
    }
  }

  // ---- the other directives ----

  /** A directive without a value, or one with a value and another name. */
  datatype Other = Flag(text: string) | Assign(left: string, name: string, value: string)

  function Text(o: Other): string {
    match o
    case Flag(text) => text
    case Assign(left, name, value) => left + (name + "=" + value)
  }

  predicate IsOther(o: Other) {
    match o
    case Flag(text) => ',' !in text && '=' !in text
    case Assign(left, name, value) =>
      && Spaces(left) && ',' !in name && ',' !in value && '=' !in name && !Named(name)
      && (name != "" ==> !Space(name[0]))
  }

  lemma {:induction false} TrimLeftSubset(s: string, drop: char -> bool, c: char)
    ensures c in TrimLeft(s, drop) ==> c in s
    ensures c in s && !drop(c) ==> c in TrimLeft(s, drop)
  {
    if s != [] && drop(s[0]) {
      TrimLeftSubset(s[1..], drop, c);
      assert s == [s[0]] + s[1..];
    }
  }

  lemma {:induction false} TrimRightSubset(s: string, drop: char -> bool, c: char)
    ensures c in TrimRight(s, drop) ==> c in s
    ensures c in s && !drop(c) ==> c in TrimRight(s, drop)
  {
    if s != [] && drop(s[|s| - 1]) {
      TrimRightSubset(s[..|s| - 1], drop, c);
      assert s == s[..|s| - 1] + [s[|s| - 1]];
    }
  }

  /** Trimming adds no character, and removes none that is not to be dropped. */
  lemma TrimSubset(s: string, drop: char -> bool, c: char)
    ensures c in Trim(s, drop) ==> c in s
    ensures c in s && !drop(c) ==> c in Trim(s, drop)
  {
    TrimLeftSubset(s, drop, c);
    TrimRightSubset(TrimLeft(s, drop), drop, c);
  }

  lemma {:induction false} TrimRightAfter(front: string, s: string, drop: char -> bool)
    requires front != [] && !drop(front[|front| - 1])
    ensures TrimRight(front + s, drop) == front + TrimRight(s, drop)
  {
    if s == [] {
      assert front + s == front;
    } else if drop(s[|s| - 1]) {
      assert (front + s)[..|front + s| - 1] == front + s[..|s| - 1];
      TrimRightAfter(front, s[..|s| - 1], drop);
    }
  }

  lemma AssignTrimmed(left: string, name: string, value: string)
    requires Spaces(left) && (name != "" ==> !Space(name[0]))
    ensures Trim(left + (name + "=" + value), Space) == name + "=" + TrimRight(value, Space)
  {
    var front := name + "=";
    assert front[|front| - 1] == '=';
    assert (front + value)[0] == front[0];
    TrimLeftPad(left, front + value, Space);
    TrimRightAfter(front, value, Space);
  }

  lemma NameCut(name: string, value: string)
    requires '=' !in name
    ensures Find(name + "=" + value, '=') == |name| && (name + "=" + value)[..|name|] == name
    ensures (name + "=" + value)[|name| + 1..] == value
  {
    var s := name + "=" + value;
    assert s[..|name|] == name;
    FindAt(s, '=', |name|);
  }

  lemma OtherIgnored(o: Other)
    requires IsOther(o)
    ensures ',' !in Text(o) && Read(Text(o)).Ignored?
  {
    match o
    case Flag(text) =>
      TrimSubset(text, Space, '=');
    case Assign(left, name, value) =>
      AssignTrimmed(left, name, value);
      NameCut(name, TrimRight(value, Space));
      NamedIsMaxAge(name);
      assert !Space(',');
  }

  function Texts(os: seq<Other>): seq<string> {
    seq(|os|, i requires 0 <= i < |os| => Text(os[i]))
  }

  lemma OthersIgnored(os: seq<Other>, rest: string)
    requires forall i :: 0 <= i < |os| ==> IsOther(os[i])
    ensures AgeOf(Listed(Texts(os)) + rest) == AgeOf(rest)
  {
    forall i | 0 <= i < |os| ensures ',' !in Texts(os)[i] && Read(Texts(os)[i]).Ignored? { OtherIgnored(os[i]); }
    AllSkipped(Texts(os), rest);
  }

  // ---- what a header means ----

  /** A header means the number of seconds in its first max-age directive, clamped, whatever other directives come
      before it and whatever follows; a number that is too large for an int64 means the longest age. */
  lemma HeaderMeans(before: seq<Other>, left: string, name: string, quotes: string, n: nat, right: string, after: string)
    requires WellWritten(left, name, quotes, right) && Ending(after)
    requires forall i :: 0 <= i < |before| ==> IsOther(before[i])
    ensures AgeOf(Listed(Texts(before)) + (Written(left, name, quotes, n, right) + after))
            == if n <= MAX63 then Clamp(Wrapped(n * SECOND)) else MAX_CACHE_AGE
    ensures n <= MAX63 / SECOND ==>
              AgeOf(Listed(Texts(before)) + (Written(left, name, quotes, n, right) + after))
              == (if n < 10 then 10 else if n > 300 then 300 else n) * SECOND
  {
    var part := Written(left, name, quotes, n, right);
    MaxAgeRead(left, name, quotes, n, right);
    NoComma(left, name, quotes, n, right);
    FirstDecides(part, after);
    OthersIgnored(before, part + after);
    if n <= MAX63 / SECOND { SecondsClamped(n); }
  }

  lemma SecondsClamped(n: nat)
    requires n <= MAX63 / SECOND
    ensures Clamp(Wrapped(n * SECOND)) == (if n < 10 then 10 else if n > 300 then 300 else n) * SECOND
  {
    assert Wrapped(n * SECOND) == n * SECOND;
  }

  /** Without a max-age directive it means five minutes, also when it is empty. */
  lemma NoMaxAge(before: seq<Other>, last: Other)
    requires IsOther(last) && forall i :: 0 <= i < |before| ==> IsOther(before[i])
    ensures AgeOf(Listed(Texts(before)) + Text(last)) == 300 * SECOND
  {
    OtherIgnored(last);
    SplitFirst(Text(last), "");
    var parts := [Text(last)];
    assert Age(parts) == Age(parts[1..]);
    OthersIgnored(before, Text(last));
  }

  /** The value of a directive is no number: it has a character that is no digit, and neither a sign, a quote or a space. */
  predicate NoNumber(value: string) {
    exists i :: 0 <= i < |value| && !Digit(value[i]) && value[i] !in {'+', '-', '"'} && !Space(value[i])
  }

  lemma NoNumberParsed(value: string)
    requires NoNumber(value)
    ensures ParseInt(Trim(TrimRight(value, Space), Quote)).None?
  {
    var i :| 0 <= i < |value| && !Digit(value[i]) && value[i] !in {'+', '-', '"'} && !Space(value[i]);
    var c := value[i];
    TrimRightSubset(value, Space, c);
    TrimSubset(TrimRight(value, Space), Quote, c);
    var s := Trim(TrimRight(value, Space), Quote);
    var m :| 0 <= m < |s| && s[m] == c;
    if s[0] in {'+', '-'} { assert s[1..][m - 1] == c; }
  }

  /** A max-age whose value is no number means five minutes, and a later one does not count. */
  lemma MalformedMeans(before: seq<Other>, left: string, name: string, value: string, after: string)
    requires Spaces(left) && Named(name) && ',' !in value && NoNumber(value) && Ending(after)
    requires forall i :: 0 <= i < |before| ==> IsOther(before[i])
    ensures AgeOf(Listed(Texts(before)) + (left + (name + "=" + value) + after)) == 300 * SECOND
  {
    var part := left + (name + "=" + value);
    NameHasNoEquals(name);
    AssignTrimmed(left, name, value);
    NameCut(name, TrimRight(value, Space));
    NoNumberParsed(value);
    assert !Space(',');
    FirstDecides(part, after);
    OthersIgnored(before, part + after);
  }
}
