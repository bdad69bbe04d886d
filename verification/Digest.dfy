/** The canonical text that a snapshot's digest is taken of, and its injectivity. */
module Digest {
  import opened Text
  import opened Policy
  import opened Template
  import opened Ordering

  function PathConstraintText(c: PathConstraint): string {
    match c
    case Uuid => "uuid"
  }

  function QueryConstraintText(c: QueryConstraint): string {
    match c
    case Uuid => "uuid"
    case AsciiToken(maxLen) => "ascii-token:" + Decimal(maxLen)
  }

  function OriginText(o: Origin): string {
    o.scheme + "://" + o.host + ":" + Decimal(o.port)
  }

  datatype Tag =
    | RouteTag | BrowserTag | MethodsTag | OriginTag | PathTag | PathParameterTag
    | QueryParameterTag | RequestHeadersTag | ResponseHeadersTag

  datatype Line = Line(tag: Tag, value: string)

  function TagText(t: Tag): string {
    match t
    case RouteTag => "route"
    case BrowserTag => "browser"
    case MethodsTag => "methods"
    case OriginTag => "origin"
    case PathTag => "path"
    case PathParameterTag => "path-param"
    case QueryParameterTag => "query-param"
    case RequestHeadersTag => "request-headers"
    case ResponseHeadersTag => "response-headers"
  }

  function LineText(l: Line): string {
    TagText(l.tag) + "=" + l.value
  }

  /** Each line closed by a line feed, as `writeln!` does. */
  function Written(lines: seq<Line>): string {
    if lines == [] then "" else LineText(lines[0]) + "\n" + Written(lines[1..])
  }

  function PathParameterLine(n: string, c: PathConstraint): Line {
    Line(PathParameterTag, n + ":" + PathConstraintText(c))
  }

  function QueryParameterLine(n: string, c: QueryConstraint): Line {
    Line(QueryParameterTag, n + ":" + QueryConstraintText(c))
  }

  function PathParameterLines(names: seq<string>, m: map<string, PathConstraint>): (lines: seq<Line>)
    requires forall n | n in names :: n in m
    ensures |lines| == |names|
    ensures forall i | 0 <= i < |names| :: lines[i] == PathParameterLine(names[i], m[names[i]])
  {
    if names == [] then [] else [PathParameterLine(names[0], m[names[0]])] + PathParameterLines(names[1..], m)
  }

  function QueryParameterLines(names: seq<string>, m: map<string, QueryConstraint>): (lines: seq<Line>)
    requires forall n | n in names :: n in m
    ensures |lines| == |names|
    ensures forall i | 0 <= i < |names| :: lines[i] == QueryParameterLine(names[i], m[names[i]])
  {
    if names == [] then [] else [QueryParameterLine(names[0], m[names[0]])] + QueryParameterLines(names[1..], m)
  }

  /** The keys of a map in iteration order. */
  function Keys<V>(m: map<string, V>): (names: seq<string>)
    ensures forall n :: n in names <==> n in m
  {
    SortedElements(m.Keys);
    Sorted(m.Keys)
  }

  function HeadLines(r: Route): seq<Line> {
    [ Line(RouteTag, r.id),
      Line(BrowserTag, r.browserPath),
      Line(MethodsTag, Join(Sorted(r.methods), ',')),
      Line(OriginTag, OriginText(r.origin)),
      Line(PathTag, Render(r.upstreamPath)) ]
  }

  function TailLines(r: Route): seq<Line> {
    [ Line(RequestHeadersTag, Join(Sorted(r.requestHeaders), ',')),
      Line(ResponseHeadersTag, Join(Sorted(r.responseHeaders), ',')) ]
  }

  function RouteLines(r: Route): seq<Line> {
    HeadLines(r)
    + PathParameterLines(Keys(r.pathParameters), r.pathParameters)
    + QueryParameterLines(Keys(r.queryParameters), r.queryParameters)
    + TailLines(r)
  }

  function RoutesLines(rs: seq<Route>): seq<Line> {
    if rs == [] then [] else RouteLines(rs[0]) + RoutesLines(rs[1..])
  }

  /** The values of the route map in key order. */
  function Values(routes: map<string, Route>): (rs: seq<Route>)
    ensures |rs| == |Keys(routes)|
    ensures forall i | 0 <= i < |rs| :: rs[i] == routes[Keys(routes)[i]]
  {
    seq(|Keys(routes)|, i requires 0 <= i < |Keys(routes)| => routes[Keys(routes)[i]])
  }

  function Framed(v: string, body: string): string {
    "version-length=" + Decimal(Utf8Length(v)) + "\n" + "version=" + v + "\n" + body
  }

  /** The preimage of the digest. */
  function Canonical(version: string, routes: map<string, Route>): string {
    Framed(version, Written(RoutesLines(Values(routes))))
  }

  ghost predicate KeyedById(routes: map<string, Route>) {
    forall id | id in routes :: routes[id].id == id && ValidRoute(routes[id])
  }

  // ---- lines -----------------------------------------------------------------

  lemma TagTextPlain(t: Tag)
    ensures '=' !in TagText(t) && '\n' !in TagText(t)
  {
  }

  lemma TagTextInjective(s: Tag, t: Tag)
    requires TagText(s) == TagText(t)
    ensures s == t
  {
    assert |TagText(RouteTag)| == 5 && |TagText(BrowserTag)| == 7 && |TagText(MethodsTag)| == 7;
    assert |TagText(OriginTag)| == 6 && |TagText(PathTag)| == 4 && |TagText(PathParameterTag)| == 10;
    assert |TagText(QueryParameterTag)| == 11 && |TagText(RequestHeadersTag)| == 15;
    assert |TagText(ResponseHeadersTag)| == 16;
    assert TagText(BrowserTag)[0] == 'b' && TagText(MethodsTag)[0] == 'm';
  }

  ghost predicate LineFree(lines: seq<Line>) {
    forall i | 0 <= i < |lines| :: '\n' !in lines[i].value
  }

  lemma {:induction false} WrittenConcat(a: seq<Line>, b: seq<Line>)
    ensures Written(a + b) == Written(a) + Written(b)
  {
    if a == [] {
      assert a + b == b;
    } else {
      assert (a + b)[1..] == a[1..] + b;
      WrittenConcat(a[1..], b);
    }
  }

  lemma FirstLineInjective(l: Line, x: string, m: Line, y: string)
    requires '\n' !in LineText(l) && '\n' !in LineText(m)
    requires LineText(l) + ['\n'] + x == LineText(m) + ['\n'] + y
    ensures l == m && x == y
  {
    TerminatorFraming(LineText(l), x, LineText(m), y, '\n');
    TagTextPlain(l.tag);
    TagTextPlain(m.tag);
    TerminatorFraming(TagText(l.tag), l.value, TagText(m.tag), m.value, '=');
    TagTextInjective(l.tag, m.tag);
  }

  lemma LineFreeText(l: Line)
    requires '\n' !in l.value
    ensures '\n' !in LineText(l)
  {
    TagTextPlain(l.tag);
  }

  lemma {:induction false} WrittenInjective(a: seq<Line>, b: seq<Line>)
    requires LineFree(a) && LineFree(b)
    requires Written(a) == Written(b)
    ensures a == b
  {
    if a != [] && b != [] {
      LineFreeText(a[0]);
      LineFreeText(b[0]);
      FirstLineInjective(a[0], Written(a[1..]), b[0], Written(b[1..]));
      WrittenInjective(a[1..], b[1..]);
      assert a == [a[0]] + a[1..] && b == [b[0]] + b[1..];
    }
  }

  // ---- no field can forge a line -----------------------------------------------

  lemma AllAbsent(s: string, p: char -> bool, c: char)
    requires All(s, p) && !p(c)
    ensures c !in s
  {
  }

  lemma JoinAbsent(parts: seq<string>, sep: char, c: char)
    requires c != sep && forall i | 0 <= i < |parts| :: c !in parts[i]
    ensures c !in Join(parts, sep)
  {
    if c in Join(parts, sep) {
      JoinChars(parts, sep, c);
    }
  }

  lemma HeaderCharsPlain(h: string)
    requires IsHeaderName(h)
    ensures h != "" && ',' !in h && '\n' !in h
  {
    AllAbsent(h, IsHttpTokenChar, ',');
    AllAbsent(h, IsHttpTokenChar, '\n');
  }

  lemma HeaderNamePlain(headers: set<string>, request: bool)
    requires IsHeaderPolicy(headers, request)
    ensures forall h | h in Sorted(headers) :: h != "" && ',' !in h && '\n' !in h
    ensures '\n' !in Join(Sorted(headers), ',')
  {
    SortedElements(headers);
    forall h | h in Sorted(headers) ensures h != "" && ',' !in h && '\n' !in h {
      assert h in headers;
      HeaderCharsPlain(h);
    }
    JoinAbsent(Sorted(headers), ',', '\n');
  }

  lemma HeaderJoinInjective(a: set<string>, b: set<string>, request: bool)
    requires IsHeaderPolicy(a, request) && IsHeaderPolicy(b, request)
    requires Join(Sorted(a), ',') == Join(Sorted(b), ',')
    ensures a == b
  {
    HeaderNamePlain(a, request);
    HeaderNamePlain(b, request);
    CommaJoinInjective(Sorted(a), Sorted(b));
    SortedInjective(a, b);
  }

  lemma CommaJoinInjective(a: seq<string>, b: seq<string>)
    requires forall x | x in a :: x != "" && ',' !in x
    requires forall x | x in b :: x != "" && ',' !in x
    requires Join(a, ',') == Join(b, ',')
    ensures a == b
  {
    if a != [] {
      SplitJoin(a, ',');
      assert |a[0]| > 0 && a[0] in a;
    }
    if b != [] {
      SplitJoin(b, ',');
      assert |b[0]| > 0 && b[0] in b;
    }
  }

  lemma MethodsPlain(methods: set<string>)
    requires methods <= {"GET", "HEAD"}
    ensures forall m | m in Sorted(methods) :: m != "" && ',' !in m && '\n' !in m
  {
    SortedElements(methods);
    forall m | m in Sorted(methods) ensures m != "" && ',' !in m && '\n' !in m {
      assert m in methods;
      assert m == "GET" || m == "HEAD";
    }
  }

  lemma MethodsJoinInjective(a: set<string>, b: set<string>)
    requires a <= {"GET", "HEAD"} && b <= {"GET", "HEAD"}
    requires Join(Sorted(a), ',') == Join(Sorted(b), ',')
    ensures a == b
  {
    MethodsPlain(a);
    MethodsPlain(b);
    CommaJoinInjective(Sorted(a), Sorted(b));
    SortedInjective(a, b);
  }

  lemma {:induction false} HostPlain(host: string)
    requires IsLogicalHost(host)
    ensures ':' !in host && '\n' !in host
  {
    JoinSplit(host, '.');
    forall c | c in host ensures c != ':' && c != '\n' {
      if c != '.' {
        JoinChars(Split(host, '.'), '.', c);
        var i :| 0 <= i < |Split(host, '.')| && c in Split(host, '.')[i];
        assert IsHostLabel(Split(host, '.')[i]);
      }
    }
  }

  lemma NamePlain(n: string)
    requires IsParameterName(n)
    ensures ':' !in n && '\n' !in n
  {
  }

  lemma RenderPlain(segments: seq<Segment>)
    requires forall i | 0 <= i < |segments| :: IsSegment(segments[i])
    ensures '\n' !in Render(segments)
  {
    RawPartsPlain(segments);
  }

  lemma OriginTextPlain(o: Origin)
    requires o.scheme == "https" && IsLogicalHost(o.host)
    ensures '\n' !in OriginText(o)
  {
    HostPlain(o.host);
    AllAbsent(Decimal(o.port), IsDigit, '\n');
  }

  lemma OriginTextInjective(a: Origin, b: Origin)
    requires a.scheme == "https" && IsLogicalHost(a.host)
    requires b.scheme == "https" && IsLogicalHost(b.host)
    requires OriginText(a) == OriginText(b)
    ensures a == b
  {
    HostPlain(a.host);
    HostPlain(b.host);
    assert OriginText(a) == "https://" + (a.host + ":" + Decimal(a.port));
    assert OriginText(b) == "https://" + (b.host + ":" + Decimal(b.port));
    CancelPrefix("https://", a.host + ":" + Decimal(a.port), b.host + ":" + Decimal(b.port));
    TerminatorFraming(a.host, Decimal(a.port), b.host, Decimal(b.port), ':');
    DecimalInjective(a.port, b.port);
  }

  lemma CancelPrefix(p: string, a: string, b: string)
    requires p + a == p + b
    ensures a == b
  {
    assert a == (p + a)[|p|..] && b == (p + b)[|p|..];
  }

  lemma RouteIdPlain(id: string)
    requires IsValidRouteId(id)
    ensures '\n' !in id
  {
    AllAbsent(id, c => IsAsciiAlnum(c) || c == '.' || c == '_' || c == '-', '\n');
  }

  lemma MethodsTextPlain(methods: set<string>)
    requires methods <= {"GET", "HEAD"}
    ensures '\n' !in Join(Sorted(methods), ',')
  {
    MethodsPlain(methods);
    JoinAbsent(Sorted(methods), ',', '\n');
  }

  lemma HeadLinesPlain(r: Route)
    requires ValidRoute(r)
    ensures LineFree(HeadLines(r))
  {
    RouteIdPlain(r.id);
    RenderPlain(r.browserSegments);
    RenderPlain(r.upstreamPath);
    OriginTextPlain(r.origin);
    MethodsTextPlain(r.methods);
  }

  lemma TailLinesPlain(r: Route)
    requires ValidRoute(r)
    ensures LineFree(TailLines(r))
  {
    HeaderNamePlain(r.requestHeaders, true);
    HeaderNamePlain(r.responseHeaders, false);
  }

  lemma PathParameterLinePlain(n: string, c: PathConstraint)
    requires '\n' !in n
    ensures '\n' !in PathParameterLine(n, c).value
  {
  }

  lemma QueryParameterLinePlain(n: string, c: QueryConstraint)
    requires '\n' !in n
    ensures '\n' !in QueryParameterLine(n, c).value
  {
    if c.AsciiToken? {
      AllAbsent(Decimal(c.maxLen), IsDigit, '\n');
    }
  }

  lemma ParameterLinesPlain(r: Route)
    requires ValidRoute(r)
    ensures LineFree(PathParameterLines(Keys(r.pathParameters), r.pathParameters))
    ensures LineFree(QueryParameterLines(Keys(r.queryParameters), r.queryParameters))
  {
    var names, queries := Keys(r.pathParameters), Keys(r.queryParameters);
    forall i | 0 <= i < |names|
      ensures '\n' !in PathParameterLine(names[i], r.pathParameters[names[i]]).value
    {
      assert names[i] in names;
      PathParameterNames(r, names[i]);
      PathParameterLinePlain(names[i], r.pathParameters[names[i]]);
    }
    forall i | 0 <= i < |queries|
      ensures '\n' !in QueryParameterLine(queries[i], r.queryParameters[queries[i]]).value
    {
      assert queries[i] in queries;
      NamePlain(queries[i]);
      QueryParameterLinePlain(queries[i], r.queryParameters[queries[i]]);
    }
  }

  lemma PathParameterNames(r: Route, n: string)
    requires ValidRoute(r) && n in r.pathParameters
    ensures IsParameterName(n) && ':' !in n && '\n' !in n
  {
    var i :| 0 <= i < |r.upstreamPath| && r.upstreamPath[i].Parameter? && r.upstreamPath[i].name == n;
    assert IsSegment(r.upstreamPath[i]);
    NamePlain(n);
  }

  lemma LineFreeConcat(a: seq<Line>, b: seq<Line>)
    requires LineFree(a) && LineFree(b)
    ensures LineFree(a + b)
  {
  }

  lemma RouteLinesPlain(r: Route)
    requires ValidRoute(r)
    ensures LineFree(RouteLines(r))
  {
    HeadLinesPlain(r);
    TailLinesPlain(r);
    ParameterLinesPlain(r);
    var h, p := HeadLines(r), PathParameterLines(Keys(r.pathParameters), r.pathParameters);
    var q, t := QueryParameterLines(Keys(r.queryParameters), r.queryParameters), TailLines(r);
    LineFreeConcat(h, p);
    LineFreeConcat(h + p, q);
    LineFreeConcat(h + p + q, t);
  }

  ghost predicate AllValid(rs: seq<Route>) {
    rs == [] || (ValidRoute(rs[0]) && AllValid(rs[1..]))
  }

  lemma {:induction false} RoutesLinesPlain(rs: seq<Route>)
    requires AllValid(rs)
    ensures LineFree(RoutesLines(rs))
  {
    if rs != [] {
      RouteLinesPlain(rs[0]);
      RoutesLinesPlain(rs[1..]);
      LineFreeConcat(RouteLines(rs[0]), RoutesLines(rs[1..]));
    }
  }

  // ---- equal lines, equal routes -----------------------------------------------

  /** A block of lines under one tag is framed by the next line, which carries another. */
  lemma BlockFraming(a: seq<Line>, x: seq<Line>, b: seq<Line>, y: seq<Line>, t: Tag)
    requires forall i | 0 <= i < |a| :: a[i].tag == t
    requires forall i | 0 <= i < |b| :: b[i].tag == t
    requires x != [] && x[0].tag != t
    requires y != [] && y[0].tag != t
    requires a + x == b + y
    ensures a == b && x == y
  {
    var u, v := a + x, b + y;
    assert u[|a|] == x[0] && v[|b|] == y[0];
    assert forall i | 0 <= i < |a| :: u[i] == a[i];
    assert forall i | 0 <= i < |b| :: v[i] == b[i];
    assert |a| == |b|;
    assert a == u[..|a|] && b == v[..|b|] && x == u[|a|..] && y == v[|b|..];
  }

  lemma HeadLinesInjective(a: Route, b: Route)
    requires ValidRoute(a) && ValidRoute(b) && HeadLines(a) == HeadLines(b)
    ensures a.id == b.id && a.browserPath == b.browserPath && a.browserSegments == b.browserSegments
    ensures a.methods == b.methods && a.origin == b.origin && a.upstreamPath == b.upstreamPath
  {
    var x, y := HeadLines(a), HeadLines(b);
    assert x[0] == y[0] && x[1] == y[1] && x[2] == y[2] && x[3] == y[3] && x[4] == y[4];
    RenderInjective(a.browserSegments, b.browserSegments);
    MethodsJoinInjective(a.methods, b.methods);
    OriginTextInjective(a.origin, b.origin);
    RenderInjective(a.upstreamPath, b.upstreamPath);
  }

  lemma TailLinesInjective(a: Route, b: Route)
    requires ValidRoute(a) && ValidRoute(b) && TailLines(a) == TailLines(b)
    ensures a.requestHeaders == b.requestHeaders && a.responseHeaders == b.responseHeaders
  {
    var x, y := TailLines(a), TailLines(b);
    assert x[0] == y[0] && x[1] == y[1];
    HeaderJoinInjective(a.requestHeaders, b.requestHeaders, true);
    HeaderJoinInjective(a.responseHeaders, b.responseHeaders, false);
  }

  lemma QueryConstraintTextInjective(a: QueryConstraint, b: QueryConstraint)
    requires QueryConstraintText(a) == QueryConstraintText(b)
    ensures a == b
  {
    assert QueryConstraintText(a)[0] == (if a.Uuid? then 'u' else 'a');
    assert QueryConstraintText(b)[0] == (if b.Uuid? then 'u' else 'a');
    if a.AsciiToken? {
      CancelPrefix("ascii-token:", Decimal(a.maxLen), Decimal(b.maxLen));
      DecimalInjective(a.maxLen, b.maxLen);
    }
  }

  lemma PathLinesInjective(
      names: seq<string>, a: map<string, PathConstraint>, names': seq<string>, b: map<string, PathConstraint>)
    requires forall n | n in names :: n in a && ':' !in n
    requires forall n | n in names' :: n in b && ':' !in n
    requires PathParameterLines(names, a) == PathParameterLines(names', b)
    ensures names == names'
  {
    var x, y := PathParameterLines(names, a), PathParameterLines(names', b);
    forall i | 0 <= i < |x| ensures names[i] == names'[i] {
      assert x[i] == y[i];
      TerminatorFraming(names[i], PathConstraintText(a[names[i]]), names'[i], PathConstraintText(b[names'[i]]), ':');
    }
  }

  lemma PathParametersInjective(a: map<string, PathConstraint>, b: map<string, PathConstraint>)
    requires forall n | n in a || n in b :: ':' !in n
    requires PathParameterLines(Keys(a), a) == PathParameterLines(Keys(b), b)
    ensures a == b
  {
    PathLinesInjective(Keys(a), a, Keys(b), b);
    SortedInjective(a.Keys, b.Keys);
    assert forall n | n in a :: a[n] == b[n];
  }

  lemma QueryLineInjective(m: string, c: QueryConstraint, n: string, d: QueryConstraint)
    requires ':' !in m && ':' !in n && QueryParameterLine(m, c) == QueryParameterLine(n, d)
    ensures m == n && c == d
  {
    TerminatorFraming(m, QueryConstraintText(c), n, QueryConstraintText(d), ':');
    QueryConstraintTextInjective(c, d);
  }

  lemma QueryLinesInjective(
      names: seq<string>, a: map<string, QueryConstraint>, names': seq<string>, b: map<string, QueryConstraint>)
    requires forall n | n in names :: n in a && ':' !in n
    requires forall n | n in names' :: n in b && ':' !in n
    requires QueryParameterLines(names, a) == QueryParameterLines(names', b)
    ensures names == names' && forall n | n in names :: a[n] == b[n]
  {
    var x, y := QueryParameterLines(names, a), QueryParameterLines(names', b);
    forall i | 0 <= i < |x| ensures names[i] == names'[i] && a[names[i]] == b[names'[i]] {
      assert x[i] == y[i];
      QueryLineInjective(names[i], a[names[i]], names'[i], b[names'[i]]);
    }
  }

  lemma QueryParametersInjective(a: map<string, QueryConstraint>, b: map<string, QueryConstraint>)
    requires forall n | n in a || n in b :: ':' !in n
    requires QueryParameterLines(Keys(a), a) == QueryParameterLines(Keys(b), b)
    ensures a == b
  {
    QueryLinesInjective(Keys(a), a, Keys(b), b);
    SortedInjective(a.Keys, b.Keys);
    forall n | n in a ensures a[n] == b[n] {
      assert n in Keys(a);
    }
  }

  /** Four consecutive blocks, the middle two under their own tags, are told apart. */
  lemma BlocksInjective(h: seq<Line>, p: seq<Line>, q: seq<Line>, t: seq<Line>, x: seq<Line>,
                        h': seq<Line>, p': seq<Line>, q': seq<Line>, t': seq<Line>, x': seq<Line>)
    requires |h| == |h'| && |t| == |t'| > 0
    requires forall i | 0 <= i < |p| :: p[i].tag == PathParameterTag
    requires forall i | 0 <= i < |p'| :: p'[i].tag == PathParameterTag
    requires forall i | 0 <= i < |q| :: q[i].tag == QueryParameterTag
    requires forall i | 0 <= i < |q'| :: q'[i].tag == QueryParameterTag
    requires t[0].tag == RequestHeadersTag == t'[0].tag
    requires h + p + q + t + x == h' + p' + q' + t' + x'
    ensures h == h' && p == p' && q == q' && t == t' && x == x'
  {
    BlocksAssociate(h, p, q, t, x);
    BlocksAssociate(h', p', q', t', x');
    SplitSeq(h, p + (q + (t + x)), h', p' + (q' + (t' + x')));
    BlockFraming(p, q + (t + x), p', q' + (t' + x'), PathParameterTag);
    BlockFraming(q, t + x, q', t' + x', QueryParameterTag);
    SplitSeq(t, x, t', x');
  }

  lemma BlocksAssociate(h: seq<Line>, p: seq<Line>, q: seq<Line>, t: seq<Line>, x: seq<Line>)
    ensures h + p + q + t + x == h + (p + (q + (t + x)))
  {
    assert h + p + q + t + x == h + p + q + (t + x);
    assert h + p + q + (t + x) == h + p + (q + (t + x));
  }

  lemma RouteLinesBlocks(a: Route, x: seq<Line>, b: Route, y: seq<Line>)
    requires RouteLines(a) + x == RouteLines(b) + y
    ensures HeadLines(a) == HeadLines(b) && TailLines(a) == TailLines(b) && x == y
    ensures PathParameterLines(Keys(a.pathParameters), a.pathParameters)
         == PathParameterLines(Keys(b.pathParameters), b.pathParameters)
    ensures QueryParameterLines(Keys(a.queryParameters), a.queryParameters)
         == QueryParameterLines(Keys(b.queryParameters), b.queryParameters)
  {
    BlocksInjective(
      HeadLines(a), PathParameterLines(Keys(a.pathParameters), a.pathParameters),
      QueryParameterLines(Keys(a.queryParameters), a.queryParameters), TailLines(a), x,
      HeadLines(b), PathParameterLines(Keys(b.pathParameters), b.pathParameters),
      QueryParameterLines(Keys(b.queryParameters), b.queryParameters), TailLines(b), y);
  }

  lemma ParameterNamesPlain(r: Route)
    requires ValidRoute(r)
    ensures forall n | n in r.pathParameters :: ':' !in n
    ensures forall n | n in r.queryParameters :: ':' !in n
  {
    forall n | n in r.pathParameters ensures ':' !in n {
      PathParameterNames(r, n);
    }
    forall n | n in r.queryParameters ensures ':' !in n {
      NamePlain(n);
    }
  }

  lemma RouteLinesInjective(a: Route, x: seq<Line>, b: Route, y: seq<Line>)
    requires ValidRoute(a) && ValidRoute(b)
    requires RouteLines(a) + x == RouteLines(b) + y
    ensures a == b && x == y
  {
    RouteLinesBlocks(a, x, b, y);
    HeadLinesInjective(a, b);
    TailLinesInjective(a, b);
    ParameterNamesPlain(a);
    ParameterNamesPlain(b);
    PathParametersInjective(a.pathParameters, b.pathParameters);
    QueryParametersInjective(a.queryParameters, b.queryParameters);
  }

  lemma SplitSeq(a: seq<Line>, x: seq<Line>, b: seq<Line>, y: seq<Line>)
    requires |a| == |b| && a + x == b + y
    ensures a == b && x == y
  {
    assert a == (a + x)[..|a|] && b == (b + y)[..|b|];
    assert x == (a + x)[|a|..] && y == (b + y)[|b|..];
  }

  lemma RoutesLinesEmpty(rs: seq<Route>)
    ensures RoutesLines(rs) == [] <==> rs == []
  {
    if rs != [] {
      assert HeadLines(rs[0]) != [];
    }
  }

  lemma RoutesLinesHead(a: seq<Route>, b: seq<Route>)
    requires a != [] && b != [] && ValidRoute(a[0]) && ValidRoute(b[0])
    requires RoutesLines(a) == RoutesLines(b)
    ensures a[0] == b[0] && RoutesLines(a[1..]) == RoutesLines(b[1..])
  {
    RouteLinesInjective(a[0], RoutesLines(a[1..]), b[0], RoutesLines(b[1..]));
  }

  lemma {:induction false} RoutesLinesInjective(a: seq<Route>, b: seq<Route>)
    requires AllValid(a) && AllValid(b)
    requires RoutesLines(a) == RoutesLines(b)
    ensures a == b
  {
    RoutesLinesEmpty(a);
    RoutesLinesEmpty(b);
    if a != [] {
      RoutesLinesHead(a, b);
      RoutesLinesInjective(a[1..], b[1..]);
      assert a == [a[0]] + a[1..] && b == [b[0]] + b[1..];
    }
  }

  lemma ValuesInjective(routes: map<string, Route>, routes': map<string, Route>)
    requires forall id | id in routes :: routes[id].id == id
    requires forall id | id in routes' :: routes'[id].id == id
    requires Values(routes) == Values(routes')
    ensures routes == routes'
  {
    var rs := Values(routes);
    forall i | 0 <= i < |rs| ensures Keys(routes)[i] == Keys(routes')[i] {
      assert Keys(routes)[i] == rs[i].id == Keys(routes')[i];
    }
    assert Keys(routes) == Keys(routes');
    SortedInjective(routes.Keys, routes'.Keys);
    forall id | id in routes ensures routes[id] == routes'[id] {
      var i :| 0 <= i < |Keys(routes)| && Keys(routes)[i] == id;
      assert routes[id] == rs[i] == routes'[id];
    }
  }

  lemma {:induction false} AllValidByIndex(rs: seq<Route>)
    requires forall i | 0 <= i < |rs| :: ValidRoute(rs[i])
    ensures AllValid(rs)
  {
    if rs != [] {
      assert forall i | 0 <= i < |rs[1..]| :: rs[1..][i] == rs[i + 1];
      AllValidByIndex(rs[1..]);
    }
  }

  lemma ValuesValid(routes: map<string, Route>)
    requires KeyedById(routes)
    ensures AllValid(Values(routes))
  {
    forall i | 0 <= i < |Values(routes)| ensures ValidRoute(Values(routes)[i]) {
      assert Keys(routes)[i] in routes;
    }
    AllValidByIndex(Values(routes));
  }

  /** Equal canonical texts come from equal versions and equal route maps, whatever the versions contain. */
  lemma CanonicalInjective(v: string, routes: map<string, Route>, v': string, routes': map<string, Route>)
    requires KeyedById(routes) && KeyedById(routes')
    requires Canonical(v, routes) == Canonical(v', routes')
    ensures v == v' && routes == routes'
  {
    CanonicalFraming(v, Written(RoutesLines(Values(routes))), v', Written(RoutesLines(Values(routes'))));
    ValuesValid(routes);
    ValuesValid(routes');
    BodyInjective(Values(routes), Values(routes'));
    ValuesInjective(routes, routes');
  }

  lemma BodyInjective(rs: seq<Route>, rs': seq<Route>)
    requires AllValid(rs) && AllValid(rs')
    requires Written(RoutesLines(rs)) == Written(RoutesLines(rs'))
    ensures rs == rs'
  {
    RoutesLinesPlain(rs);
    RoutesLinesPlain(rs');
    WrittenInjective(RoutesLines(rs), RoutesLines(rs'));
    RoutesLinesInjective(rs, rs');
  }

  lemma CanonicalFraming(v: string, body: string, v': string, body': string)
    requires Framed(v, body) == Framed(v', body')
    ensures v == v' && body == body'
  {
    FramingOf("version-length=", "version=", v, body, v', body');
  }

  lemma FramingOf(p: string, q: string, v: string, body: string, v': string, body': string)
    requires p + Decimal(Utf8Length(v)) + "\n" + q + v + "\n" + body
          == p + Decimal(Utf8Length(v')) + "\n" + q + v' + "\n" + body'
    ensures v == v' && body == body'
  {
    var n, n' := Decimal(Utf8Length(v)), Decimal(Utf8Length(v'));
    FramingAssociates(p, n, q, v, body);
    FramingAssociates(p, n', q, v', body');
    var x, x' := q + (v + ("\n" + body)), q + (v' + ("\n" + body'));
    CancelPrefix(p, n + "\n" + x, n' + "\n" + x');
    AllAbsent(n, IsDigit, '\n');
    AllAbsent(n', IsDigit, '\n');
    TerminatorFraming(n, x, n', x', '\n');
    DecimalInjective(Utf8Length(v), Utf8Length(v'));
    CancelPrefix(q, v + ("\n" + body), v' + ("\n" + body'));
    LengthFraming(v, "\n" + body, v', "\n" + body');
    CancelPrefix("\n", body, body');
  }

  lemma FramingAssociates(p: string, n: string, q: string, v: string, body: string)
    ensures p + n + "\n" + q + v + "\n" + body == p + (n + "\n" + (q + (v + ("\n" + body))))
  {
    Associative(p, n, "\n");
    Associative(p, n + "\n", q + (v + ("\n" + body)));
    Associative(p + n + "\n" + q, v, "\n" + body);
    Associative(p + n + "\n" + q + v, "\n", body);
    Associative(p + n + "\n", q, v + ("\n" + body));
  }

  // ---- the loops of the source ---------------------------------------------

  method WriteLines(text: string, lines: seq<Line>) returns (r: string)
    ensures r == text + Written(lines)
  {
    r := text;
    for i := 0 to |lines|
      invariant r + Written(lines[i..]) == text + Written(lines)
    {
      assert lines[i..][0] == lines[i] && lines[i..][1..] == lines[i + 1..];
      r := r + LineText(lines[i]) + "\n";
    }
  }

  lemma WrittenRoute(text: string, h: seq<Line>, p: seq<Line>, q: seq<Line>, t: seq<Line>)
    ensures text + Written(h) + Written(p) + Written(q) + Written(t) == text + Written(h + p + q + t)
  {
    WrittenConcat(h, p);
    WrittenConcat(h + p, q);
    WrittenConcat(h + p + q, t);
    Associative(text, Written(h), Written(p));
    Associative(text, Written(h + p), Written(q));
    Associative(text, Written(h + p + q), Written(t));
  }

  lemma Associative(a: string, b: string, c: string)
    ensures a + b + c == a + (b + c)
  {
  }

  /** Writes the text whose SHA-256 the source stores as the digest. */
  method PolicyDigest(version: string, routes: map<string, Route>) returns (canonical: string)
    ensures canonical == Canonical(version, routes)
  {
    canonical := Framed(version, "");
    var rs := Values(routes);
    ghost var head := canonical;
    for i := 0 to |rs|
      invariant canonical + Written(RoutesLines(rs[i..])) == head + Written(RoutesLines(rs))
    {
      var r := rs[i];
      var paths := PathParameterLines(Keys(r.pathParameters), r.pathParameters);
      var queries := QueryParameterLines(Keys(r.queryParameters), r.queryParameters);
      var text := WriteLines(canonical, HeadLines(r));
      text := WriteLines(text, paths);
      text := WriteLines(text, queries);
      text := WriteLines(text, TailLines(r));
      WrittenRoute(canonical, HeadLines(r), paths, queries, TailLines(r));
      RoutesStep(canonical, rs, i);
      canonical := text;
    }
    FramedBody(version, Written(RoutesLines(rs)));
  }

  lemma RoutesStep(text: string, rs: seq<Route>, i: nat)
    requires i < |rs|
    ensures text + Written(RoutesLines(rs[i..]))
         == text + Written(RouteLines(rs[i])) + Written(RoutesLines(rs[i + 1..]))
  {
    assert rs[i..][0] == rs[i] && rs[i..][1..] == rs[i + 1..];
    WrittenConcat(RouteLines(rs[i]), RoutesLines(rs[i + 1..]));
  }

  lemma FramedBody(v: string, body: string)
    ensures Framed(v, "") + body == Framed(v, body)
  {
  }
}
