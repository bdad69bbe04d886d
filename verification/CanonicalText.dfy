/** The canonical text of a policy, line by line. */
module CanonicalText {
  import opened Text
  import opened Policy
  import opened Ordering
  import opened Digest

  /** Every line closed by a line feed. */
  function Lines(lines: seq<string>): string {
    if lines == [] then "" else lines[0] + "\n" + Lines(lines[1..])
  }

  function PathParameterText(names: seq<string>): (lines: seq<string>)
    ensures |lines| == |names| && forall i | 0 <= i < |names| :: lines[i] == "path-param=" + names[i] + ":uuid"
  {
    if names == [] then [] else ["path-param=" + names[0] + ":uuid"] + PathParameterText(names[1..])
  }

  function Kind(c: QueryConstraint): string {
    match c
    case Uuid => "uuid"
    case AsciiToken(limit) => "ascii-token:" + Decimal(limit)
  }

  function QueryParameterText(names: seq<string>, q: map<string, QueryConstraint>): (lines: seq<string>)
    requires forall n | n in names :: n in q
    ensures |lines| == |names|
    ensures forall i | 0 <= i < |names| :: lines[i] == "query-param=" + names[i] + ":" + Kind(q[names[i]])
  {
    if names == [] then []
    else ["query-param=" + names[0] + ":" + Kind(q[names[0]])] + QueryParameterText(names[1..], q)
  }

  function HeadText(r: Route): seq<string> {
    [ "route=" + r.id,
      "browser=" + r.browserPath,
      "methods=" + Join(Sorted(r.methods), ','),
      "origin=" + (r.origin.scheme + "://" + r.origin.host + ":" + Decimal(r.origin.port)),
      "path=" + Render(r.upstreamPath) ]
  }

  function TailText(r: Route): seq<string> {
    [ "request-headers=" + Join(Sorted(r.requestHeaders), ','),
      "response-headers=" + Join(Sorted(r.responseHeaders), ',') ]
  }

  /** The lines of one route. */
  function RouteText(r: Route): seq<string> {
    HeadText(r)
    + PathParameterText(Keys(r.pathParameters))
    + QueryParameterText(Keys(r.queryParameters), r.queryParameters)
    + TailText(r)
  }

  function RoutesText(rs: seq<Route>): seq<string> {
    if rs == [] then [] else RouteText(rs[0]) + RoutesText(rs[1..])
  }

  // ---- the text that is hashed is this one ---------------------------------------------------------------

  function Texts(lines: seq<Line>): (texts: seq<string>)
    ensures |texts| == |lines| && forall i | 0 <= i < |lines| :: texts[i] == LineText(lines[i])
  {
    if lines == [] then [] else [LineText(lines[0])] + Texts(lines[1..])
  }

  lemma {:induction false} WrittenLines(lines: seq<Line>)
    ensures Written(lines) == Lines(Texts(lines))
  {
    if lines != [] {
      WrittenLines(lines[1..]);
      assert Texts(lines)[1..] == Texts(lines[1..]);
    }
  }

  lemma TextsConcat(a: seq<Line>, b: seq<Line>)
    ensures Texts(a + b) == Texts(a) + Texts(b)
  {
  }

  lemma PathLine(n: string, c: PathConstraint)
    ensures LineText(PathParameterLine(n, c)) == "path-param=" + n + ":uuid"
  {
    assert TagText(PathParameterTag) + "=" == "path-param=";
    Associative("path-param=", n, ":uuid");
  }

  lemma PathLines(r: Route)
    ensures Texts(PathParameterLines(Keys(r.pathParameters), r.pathParameters))
         == PathParameterText(Keys(r.pathParameters))
  {
    var names := Keys(r.pathParameters);
    forall i | 0 <= i < |names| {
      PathLine(names[i], r.pathParameters[names[i]]);
    }
  }

  lemma QueryLine(n: string, c: QueryConstraint)
    ensures LineText(QueryParameterLine(n, c)) == "query-param=" + n + ":" + Kind(c)
  {
    assert TagText(QueryParameterTag) + "=" == "query-param=";
    assert QueryConstraintText(c) == Kind(c);
    Associative("query-param=", n + ":", Kind(c));
    Associative("query-param=", n, ":");
  }

  lemma QueryLines(r: Route)
    ensures Texts(QueryParameterLines(Keys(r.queryParameters), r.queryParameters))
         == QueryParameterText(Keys(r.queryParameters), r.queryParameters)
  {
    var names := Keys(r.queryParameters);
    forall i | 0 <= i < |names| {
      QueryLine(names[i], r.queryParameters[names[i]]);
    }
  }

  lemma TagPrefixes()
    ensures TagText(RouteTag) + "=" == "route=" && TagText(BrowserTag) + "=" == "browser="
    ensures TagText(MethodsTag) + "=" == "methods=" && TagText(OriginTag) + "=" == "origin="
    ensures TagText(PathTag) + "=" == "path=" && TagText(RequestHeadersTag) + "=" == "request-headers="
    ensures TagText(ResponseHeadersTag) + "=" == "response-headers="
  {
  }

  lemma HeadTexts(r: Route)
    ensures Texts(HeadLines(r)) == HeadText(r)
  {
    TagPrefixes();
  }

  lemma TailTexts(r: Route)
    ensures Texts(TailLines(r)) == TailText(r)
  {
    TagPrefixes();
  }

  lemma FourTexts(h: seq<Line>, p: seq<Line>, q: seq<Line>, t: seq<Line>)
    ensures Texts(h + p + q + t) == Texts(h) + Texts(p) + Texts(q) + Texts(t)
  {
    TextsConcat(h + p + q, t);
    TextsConcat(h + p, q);
    TextsConcat(h, p);
  }

  lemma RouteLinesText(r: Route)
    ensures Texts(RouteLines(r)) == RouteText(r)
  {
    PathLines(r);
    QueryLines(r);
    HeadTexts(r);
    TailTexts(r);
    FourTexts(HeadLines(r), PathParameterLines(Keys(r.pathParameters), r.pathParameters),
              QueryParameterLines(Keys(r.queryParameters), r.queryParameters), TailLines(r));
  }

  lemma {:induction false} RoutesLinesText(rs: seq<Route>)
    ensures Texts(RoutesLines(rs)) == RoutesText(rs)
  {
    if rs != [] {
      RouteLinesText(rs[0]);
      RoutesLinesText(rs[1..]);
      TextsConcat(RouteLines(rs[0]), RoutesLines(rs[1..]));
    }
  }

  /** What is hashed: the version's length in bytes, the version, and the lines of each route in order of the ids. */
  lemma CanonicalLines(version: string, routes: map<string, Route>)
    ensures Canonical(version, routes) ==
            Lines(["version-length=" + Decimal(Utf8Length(version)), "version=" + version] + RoutesText(Values(routes)))
  {
    var body := RoutesText(Values(routes));
    RoutesLinesText(Values(routes));
    WrittenLines(RoutesLines(Values(routes)));
    var n := "version-length=" + Decimal(Utf8Length(version));
    var all := [n, "version=" + version] + body;
    assert all[1..] == ["version=" + version] + body && all[1..][1..] == body;
    assert Lines(all) == n + "\n" + ("version=" + version + "\n" + Lines(body));
    Associative(n + "\n", "version=" + version + "\n", Lines(body));
    Associative(n + "\n", "version=" + version, "\n");
    Associative(n + "\n", "version=", version);
  }
}
