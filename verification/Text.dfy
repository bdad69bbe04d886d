/** Characters, splitting, joining and decimal printing as the Rust standard library does them. */
module Text {

  // ---- character classes -------------------------------------------------

  predicate IsDigit(c: char) {
    '0' <= c <= '9'
  }

  predicate IsAsciiAlpha(c: char) {
    'a' <= c <= 'z' || 'A' <= c <= 'Z'
  }

  predicate IsAsciiAlnum(c: char) {
    IsDigit(c) || IsAsciiAlpha(c)
  }

  predicate IsHexDigit(c: char) {
    IsDigit(c) || 'a' <= c <= 'f' || 'A' <= c <= 'F'
  }

  /** Unicode general category Cc. */
  predicate IsControl(c: char) {
    c as int < 0x20 || 0x7F <= c as int < 0xA0
  }

  /** The Unicode White_Space property. */
  predicate IsWhitespace(c: char) {
    var n := c as int;
    || 9 <= n <= 13 || n == 0x20 || n == 0x85 || n == 0xA0 || n == 0x1680
    || 0x2000 <= n <= 0x200A || n == 0x2028 || n == 0x2029 || n == 0x202F
    || n == 0x205F || n == 0x3000
  }

  function LowerChar(c: char): char {
    if 'A' <= c <= 'Z' then (c as int + 32) as char else c
  }

  function Lower(s: string): (r: string)
    ensures |r| == |s|
    ensures forall i | 0 <= i < |s| :: r[i] == LowerChar(s[i])
  {
    if s == "" then "" else [LowerChar(s[0])] + Lower(s[1..])
  }

  predicate All(s: string, p: char -> bool) {
    forall i | 0 <= i < |s| :: p(s[i])
  }

  // ---- lengths -----------------------------------------------------------

  /** Bytes one character takes in UTF-8; Rust's `str::len` counts these. */
  function Utf8Width(c: char): nat {
    if c as int < 0x80 then 1
    else if c as int < 0x800 then 2
    else if c as int < 0x1_0000 then 3
    else 4
  }

  function Utf8Length(s: string): (n: nat)
    ensures n >= |s|
  {
    if s == "" then 0 else Utf8Width(s[0]) + Utf8Length(s[1..])
  }

  lemma {:induction false} Utf8LengthConcat(a: string, b: string)
    ensures Utf8Length(a + b) == Utf8Length(a) + Utf8Length(b)
  {
    if a == "" {
      assert a + b == b;
    } else {
      assert (a + b)[1..] == a[1..] + b;
      Utf8LengthConcat(a[1..], b);
    }
  }

  /** A length prefix frames any text, whatever it contains. */
  lemma LengthFraming(a: string, x: string, b: string, y: string)
    requires a + x == b + y
    requires Utf8Length(a) == Utf8Length(b)
    ensures a == b && x == y
  {
    if |a| <= |b| {
      assert b[..|a|] == (b + y)[..|a|] == (a + x)[..|a|] == a;
      assert b == a + b[|a|..];
      Utf8LengthConcat(a, b[|a|..]);
    } else {
      assert a[..|b|] == (a + x)[..|b|] == (b + y)[..|b|] == b;
      assert a == b + a[|b|..];
      Utf8LengthConcat(b, a[|b|..]);
    }
    assert x == (a + x)[|a|..];
    assert y == (b + y)[|b|..];
  }

  /** A terminator that neither part contains frames it. */
  lemma TerminatorFraming(a: string, x: string, b: string, y: string, c: char)
    requires c !in a && c !in b
    requires a + [c] + x == b + [c] + y
    ensures a == b && x == y
  {
    var u, v := a + [c] + x, b + [c] + y;
    assert u[|a|] == c && v[|b|] == c;
    assert forall i | 0 <= i < |a| :: u[i] == a[i] && a[i] in a;
    assert forall i | 0 <= i < |b| :: v[i] == b[i] && b[i] in b;
    assert |a| == |b|;
    assert a == u[..|a|] && b == v[..|b|];
    assert x == u[|a| + 1..] && y == v[|b| + 1..];
  }

  // ---- split and join ----------------------------------------------------

  /** Position of the first `c`, or the length when there is none. */
  function IndexOf(s: string, c: char): (i: nat)
    ensures i <= |s|
    ensures c !in s[..i]
    ensures i < |s| ==> s[i] == c
  {
    if s == "" || s[0] == c then 0
    else
      var i := 1 + IndexOf(s[1..], c);
      assert s[..i] == [s[0]] + s[1..][..i - 1];
      i
  }

  lemma IndexOfConcat(a: string, c: char, b: string)
    requires c !in a
    ensures IndexOf(a + [c] + b, c) == |a|
  {
    var s := a + [c] + b;
    var i := IndexOf(s, c);
    assert s[|a|] == c;
    assert forall j | 0 <= j < |a| :: s[j] == a[j] && a[j] in a;
    assert forall j | 0 <= j < i :: s[j] == s[..i][j] && s[..i][j] in s[..i];
  }

  lemma IndexOfAbsent(s: string, c: char)
    requires c !in s
    ensures IndexOf(s, c) == |s|
  {
  }

  function Split(s: string, c: char): (parts: seq<string>)
    ensures |parts| >= 1
    decreases |s|
  {
    var i := IndexOf(s, c);
    if i == |s| then [s] else [s[..i]] + Split(s[i + 1..], c)
  }

  function Join(parts: seq<string>, c: char): string {
    if parts == [] then ""
    else if |parts| == 1 then parts[0]
    else parts[0] + [c] + Join(parts[1..], c)
  }

  lemma JoinCons(part: string, rest: seq<string>, c: char)
    requires rest != []
    ensures Join([part] + rest, c) == part + [c] + Join(rest, c)
  {
    assert ([part] + rest)[1..] == rest;
  }

  lemma SplitCons(a: string, c: char, b: string)
    requires c !in a
    ensures Split(a + [c] + b, c) == [a] + Split(b, c)
  {
    var s := a + [c] + b;
    IndexOfConcat(a, c, b);
    assert s[..|a|] == a && s[|a| + 1..] == b;
  }

  lemma {:induction false} JoinSplit(s: string, c: char)
    ensures Join(Split(s, c), c) == s
    decreases |s|
  {
    var i := IndexOf(s, c);
    if i < |s| {
      var rest := s[i + 1..];
      JoinSplit(rest, c);
      JoinCons(s[..i], Split(rest, c), c);
      assert s == s[..i] + [c] + rest;
    }
  }

  lemma {:induction false} SplitJoin(parts: seq<string>, c: char)
    requires parts != []
    requires forall i | 0 <= i < |parts| :: c !in parts[i]
    ensures Split(Join(parts, c), c) == parts
  {
    if |parts| == 1 {
      IndexOfAbsent(parts[0], c);
    } else {
      var rest := parts[1..];
      assert forall i | 0 <= i < |rest| :: rest[i] == parts[i + 1];
      SplitJoin(rest, c);
      SplitCons(parts[0], c, Join(rest, c));
    }
  }

  lemma {:induction false} JoinChars(parts: seq<string>, c: char, x: char)
    requires x in Join(parts, c)
    ensures x == c || exists i :: 0 <= i < |parts| && x in parts[i]
  {
    if |parts| > 1 && x !in parts[0] && x != c {
      JoinChars(parts[1..], c, x);
      var i :| 0 <= i < |parts[1..]| && x in parts[1..][i];
      assert x in parts[i + 1];
    }
  }

  // ---- decimal numbers ---------------------------------------------------

  function Decimal(n: nat): (s: string)
    ensures s != "" && All(s, IsDigit)
  {
    var last := (n % 10 + '0' as int) as char;
    if n < 10 then [last] else Decimal(n / 10) + [last]
  }

  function DecimalValue(s: string): nat
    requires All(s, IsDigit)
  {
    if s == "" then 0
    else 10 * DecimalValue(s[..|s| - 1]) + (s[|s| - 1] as int - '0' as int)
  }

  lemma {:induction false} DecimalRoundTrip(n: nat)
    ensures DecimalValue(Decimal(n)) == n
  {
    var s := Decimal(n);
    if n >= 10 {
      assert s[..|s| - 1] == Decimal(n / 10);
      DecimalRoundTrip(n / 10);
    } else {
      assert s[..0] == "";
    }
  }

  lemma DecimalInjective(m: nat, n: nat)
    requires Decimal(m) == Decimal(n)
    ensures m == n
  {
    DecimalRoundTrip(m);
    DecimalRoundTrip(n);
  }
}
