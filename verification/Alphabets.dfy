/** Which characters, names and values are accepted, spelled out. */
module Alphabets {
  import opened Text
  import opened Policy

  const DIGITS := "0123456789"
  const HEX_DIGITS := "0123456789abcdefABCDEF"
  const UPPER := "ABCDEFGHIJKLMNOPQRSTUVWXYZ"
  const LOWER := "abcdefghijklmnopqrstuvwxyz"

  /** A text of characters from `alphabet`. */
  predicate Over(s: string, alphabet: string) {
    forall c | c in s :: c in alphabet
  }

  lemma DigitExactly(c: char)
    ensures IsDigit(c) <==> c in DIGITS
  {
  }

  lemma HexDigitExactly(c: char)
    ensures IsHexDigit(c) <==> c in HEX_DIGITS
  {
  }

  lemma UpperExactly(c: char)
    ensures 'A' <= c <= 'Z' <==> c in UPPER
  {
  }

  lemma LowerExactly(c: char)
    ensures 'a' <= c <= 'z' <==> c in LOWER
  {
  }

  lemma AlnumExactly(c: char)
    ensures IsAsciiAlpha(c) <==> c in UPPER + LOWER
    ensures IsAsciiAlnum(c) <==> c in UPPER + LOWER + DIGITS
  {
    DigitExactly(c);
    UpperExactly(c);
    LowerExactly(c);
  }

  /** The unreserved characters of section 2.3 of RFC 3986. */
  lemma UnreservedExactly(c: char)
    ensures IsUnreserved(c) <==> c in UPPER + LOWER + DIGITS + "-._~"
  {
    AlnumExactly(c);
  }

  /** The token characters of section 5.6.2 of RFC 9110. */
  lemma TokenCharExactly(c: char)
    ensures IsHttpTokenChar(c) <==> c in "!#$%&'*+-.^_`|~" + DIGITS + UPPER + LOWER
  {
    AlnumExactly(c);
  }

  /** The control characters of Unicode: two blocks and DEL. */
  lemma ControlExactly(c: char)
    ensures IsControl(c) <==> (c as int <= 31 || 127 <= c as int <= 159)
  {
  }

  /** The 25 characters of Unicode that are white space. */
  lemma WhitespaceExactly(c: char)
    ensures IsWhitespace(c) <==>
            c in ['\U{9}', '\U{A}', '\U{B}', '\U{C}', '\U{D}', ' ', '\U{85}', '\U{A0}', '\U{1680}',
                  '\U{2000}', '\U{2001}', '\U{2002}', '\U{2003}', '\U{2004}', '\U{2005}', '\U{2006}', '\U{2007}',
                  '\U{2008}', '\U{2009}', '\U{200A}', '\U{2028}', '\U{2029}', '\U{202F}', '\U{205F}', '\U{3000}']
  {
  }

  /** Lowering turns the k-th capital into the k-th small letter and leaves every other character alone. */
  lemma LowerCharExactly(c: char)
    ensures c !in UPPER ==> LowerChar(c) == c
    ensures forall k | 0 <= k < 26 :: UPPER[k] == c ==> LowerChar(c) == LOWER[k]
  {
    UpperExactly(c);
  }

  /** How many characters UTF-8 can write in `n` bytes (section 3 of RFC 3629): 7, 11, 16 and 21 bits. */
  function Capacity(n: nat): nat {
    if n == 0 then 0 else if n == 1 then 128 else 64 * Power(32, n - 1)
  }

  function Power(b: nat, n: nat): nat {
    if n == 0 then 1 else b * Power(b, n - 1)
  }

  /** A character takes the least number of bytes that can hold it. */
  lemma Utf8WidthExactly(c: char)
    ensures 1 <= Utf8Width(c) <= 4
    ensures Capacity(Utf8Width(c) - 1) <= c as int < Capacity(Utf8Width(c))
  {
    assert Power(32, 0) == 1 && Power(32, 1) == 32 && Power(32, 2) == 1024 && Power(32, 3) == 32768;
  }

  // ---- names ---------------------------------------------------------------------------------------

  lemma AllOver(s: string, p: char -> bool, alphabet: string)
    requires forall c :: p(c) <==> c in alphabet
    ensures All(s, p) <==> Over(s, alphabet)
  {
    if All(s, p) {
      assert forall c | c in s :: exists i :: 0 <= i < |s| && s[i] == c;
    }
    if Over(s, alphabet) {
      assert forall i | 0 <= i < |s| :: s[i] in s;
    }
  }

  lemma RouteIdExactly(id: string)
    ensures IsValidRouteId(id) <==> 1 <= |id| <= 128 && Over(id, UPPER + LOWER + DIGITS + "._-")
  {
    var p := (c: char) => IsAsciiAlnum(c) || c == '.' || c == '_' || c == '-';
    forall c ensures p(c) <==> c in UPPER + LOWER + DIGITS + "._-" {
      AlnumExactly(c);
    }
    AllOver(id, p, UPPER + LOWER + DIGITS + "._-");
    assert All(id, p) <==> All(id, c => IsAsciiAlnum(c) || c == '.' || c == '_' || c == '-');
  }

  lemma ParameterNameExactly(name: string)
    ensures IsParameterName(name) <==>
            1 <= |name| <= 64 && name[0] in UPPER + LOWER + "_" && Over(name, UPPER + LOWER + DIGITS + "_")
  {
    var p := (c: char) => IsAsciiAlnum(c) || c == '_';
    forall c ensures p(c) <==> c in UPPER + LOWER + DIGITS + "_" {
      AlnumExactly(c);
    }
    AllOver(name, p, UPPER + LOWER + DIGITS + "_");
    assert All(name, p) <==> All(name, c => IsAsciiAlnum(c) || c == '_');
    if name != "" {
      AlnumExactly(name[0]);
    }
  }

  lemma HeaderNameExactly(h: string)
    ensures IsHeaderName(h) <==> 1 <= |h| <= 128 && Over(h, "!#$%&'*+-.^_`|~" + DIGITS + UPPER + LOWER)
  {
    forall c ensures IsHttpTokenChar(c) <==> c in "!#$%&'*+-.^_`|~" + DIGITS + UPPER + LOWER {
      TokenCharExactly(c);
    }
    AllOver(h, IsHttpTokenChar, "!#$%&'*+-.^_`|~" + DIGITS + UPPER + LOWER);
  }

  predicate IsLabel(s: string) {
    1 <= |s| <= 63 && Over(s, UPPER + LOWER + DIGITS + "-") && s[0] != '-' && s[|s| - 1] != '-'
  }

  lemma HostLabelExactly(s: string)
    ensures IsHostLabel(s) <==> IsLabel(s)
  {
    var p := (c: char) => IsAsciiAlnum(c) || c == '-';
    forall c ensures p(c) <==> c in UPPER + LOWER + DIGITS + "-" {
      AlnumExactly(c);
    }
    AllOver(s, p, UPPER + LOWER + DIGITS + "-");
    assert All(s, p) <==> All(s, c => IsAsciiAlnum(c) || c == '-');
  }

  /** A host is at most 253 characters: labels of letters, digits and inner hyphens, one dot between two. */
  lemma HostExactly(host: string)
    ensures IsLogicalHost(host) <==>
            |host| <= 253 && exists labels: seq<string> ::
              labels != [] && Join(labels, '.') == host && forall l | l in labels :: IsLabel(l)
  {
    var parts := Split(host, '.');
    if IsLogicalHost(host) {
      JoinSplit(host, '.');
      forall l | l in parts ensures IsLabel(l) {
        var i :| 0 <= i < |parts| && parts[i] == l;
        HostLabelExactly(parts[i]);
      }
    }
    if |host| <= 253 && exists labels: seq<string> ::
         labels != [] && Join(labels, '.') == host && forall l | l in labels :: IsLabel(l)
    {
      var labels :| labels != [] && Join(labels, '.') == host && forall l | l in labels :: IsLabel(l);
      HostFromLabels(labels, host);
    }
  }

  lemma HostFromLabels(labels: seq<string>, host: string)
    requires labels != [] && Join(labels, '.') == host && |host| <= 253
    requires forall l | l in labels :: IsLabel(l)
    ensures IsLogicalHost(host)
  {
    forall i | 0 <= i < |labels| ensures '.' !in labels[i] && IsHostLabel(labels[i]) {
      assert labels[i] in labels;
      HostLabelExactly(labels[i]);
    }
    SplitJoin(labels, '.');
    JoinEnds(labels, '.');
  }

  lemma LastOf(a: string, b: string)
    requires b != ""
    ensures (a + b)[|a + b| - 1] == b[|b| - 1]
  {
  }

  lemma {:induction false} JoinEnds(parts: seq<string>, c: char)
    requires parts != [] && forall i | 0 <= i < |parts| :: parts[i] != ""
    ensures |Join(parts, c)| > 0
    ensures var last := parts[|parts| - 1]; Join(parts, c)[|Join(parts, c)| - 1] == last[|last| - 1]
  {
    if |parts| > 1 {
      var rest := Join(parts[1..], c);
      JoinEnds(parts[1..], c);
      LastOf(parts[0] + [c], rest);
    }
  }

  /** Hop-by-hop and credential headers go neither way; each way has a few of its own besides. */
  lemma ForbiddenHeaderExactly(h: string, request: bool)
    ensures IsForbiddenHeader(h, request) <==>
            || h in ["connection", "keep-alive", "proxy-connection", "te", "trailer", "transfer-encoding", "upgrade",
                     "authorization", "proxy-authorization", "proxy-authenticate"]
            || (request && h in ["host", "cookie"])
            || (!request && h in ["set-cookie", "authentication-info", "proxy-authentication-info"])
  {
  }

  // ---- values ---------------------------------------------------------------------------------------

  /** Five groups of 8, 4, 4, 4 and 12 hexadecimal digits with a hyphen between two. */
  predicate IsUuidText(s: string) {
    var parts := Split(s, '-');
    && |parts| == 5
    && |parts[0]| == 8 && |parts[1]| == 4 && |parts[2]| == 4 && |parts[3]| == 4 && |parts[4]| == 12
    && forall i | 0 <= i < 5 :: Over(parts[i], HEX_DIGITS)
  }

  function Grouped(a: string, b: string, c: string, d: string, e: string): string {
    a + "-" + (b + "-" + (c + "-" + (d + "-" + e)))
  }

  lemma GroupOver(s: string, i: nat, j: nat)
    requires i <= j <= |s| && forall k | i <= k < j :: IsHexDigit(s[k])
    ensures Over(s[i..j], HEX_DIGITS) && '-' !in s[i..j]
  {
    forall c | c in s[i..j] ensures c in HEX_DIGITS && c != '-' {
      var k :| i <= k < j && s[k] == c;
      HexDigitExactly(c);
    }
  }

  lemma UuidExactly(s: string)
    ensures IsCanonicalUuid(s) <==> IsUuidText(s)
  {
    if IsCanonicalUuid(s) {
      UuidHasGroups(s);
    }
    if IsUuidText(s) {
      GroupsMakeUuid(s);
    }
  }

  lemma CutAt(s: string, i: nat, j: nat)
    requires i <= j < |s| && s[j] == '-'
    ensures s[i..] == s[i..j] + "-" + s[j + 1..]
  {
  }

  lemma UuidGrouped(s: string)
    requires IsCanonicalUuid(s)
    ensures s == Grouped(s[0..8], s[9..13], s[14..18], s[19..23], s[24..36])
  {
    CutAt(s, 0, 8);
    CutAt(s, 9, 13);
    CutAt(s, 14, 18);
    CutAt(s, 19, 23);
    assert s[24..36] == s[24..] && s[0..] == s;
  }

  lemma UuidHasGroups(s: string)
    requires IsCanonicalUuid(s)
    ensures IsUuidText(s)
  {
    GroupOver(s, 0, 8);
    GroupOver(s, 9, 13);
    GroupOver(s, 14, 18);
    GroupOver(s, 19, 23);
    GroupOver(s, 24, 36);
    var p := [s[0..8], s[9..13], s[14..18], s[19..23], s[24..36]];
    UuidGrouped(s);
    JoinFive(p);
    SplitJoin(p, '-');
  }

  lemma GroupsMakeUuid(s: string)
    requires IsUuidText(s)
    ensures IsCanonicalUuid(s)
  {
    var p := Split(s, '-');
    JoinSplit(s, '-');
    JoinFive(p);
    forall i, k | 0 <= i < 5 && 0 <= k < |p[i]| ensures IsHexDigit(p[i][k]) {
      assert p[i][k] in p[i];
      HexDigitExactly(p[i][k]);
    }
  }

  lemma JoinFive(p: seq<string>)
    requires |p| == 5
    ensures Join(p, '-') == Grouped(p[0], p[1], p[2], p[3], p[4])
  {
    assert p == [p[0]] + ([p[1]] + ([p[2]] + ([p[3]] + [p[4]])));
    JoinCons(p[3], [p[4]], '-');
    JoinCons(p[2], [p[3]] + [p[4]], '-');
    JoinCons(p[1], [p[2]] + ([p[3]] + [p[4]]), '-');
    JoinCons(p[0], [p[1]] + ([p[2]] + ([p[3]] + [p[4]])), '-');
  }

  lemma UnreservedTextExactly(s: string)
    ensures All(s, IsUnreserved) <==> Over(s, UPPER + LOWER + DIGITS + "-._~")
  {
    forall c ensures IsUnreserved(c) <==> c in UPPER + LOWER + DIGITS + "-._~" {
      UnreservedExactly(c);
    }
    AllOver(s, IsUnreserved, UPPER + LOWER + DIGITS + "-._~");
  }

  /** Every non-empty unreserved text up to the limit is a token, the limit included. */
  lemma TokenExactly(maxLen: Usize, v: string)
    ensures QueryValueMatches(QueryConstraint.AsciiToken(maxLen), v) <==>
            1 <= |v| <= maxLen && Over(v, UPPER + LOWER + DIGITS + "-._~")
  {
    UnreservedTextExactly(v);
  }
}
