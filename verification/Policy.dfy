/** The data model of the route-policy compiler: what an operator writes, what validation keeps. */
module Policy {
  import opened Text

  type U16 = n: nat | n < 0x1_0000
  type Usize = n: nat | n < 0x1_0000_0000_0000_0000

  const MAX_ROUTE_ID_LEN := 128
  const MAX_PARAMETER_NAME_LEN := 64
  const MAX_HEADER_NAME_LEN := 128
  const MAX_HOST_LEN := 253

  /** Headers that are never forwarded from the browser, or never back to it. */
  predicate IsForbiddenHeader(h: string, request: bool) {
    if request then
      h in {
        "host", "keep-alive", "proxy-connection", "authorization", "cookie", "connection",
        "proxy-authorization", "proxy-authenticate", "te", "trailer", "transfer-encoding", "upgrade"
      }
    else
      h in {
        "set-cookie", "connection", "keep-alive", "proxy-connection", "authorization",
        "authentication-info", "proxy-authenticate", "proxy-authorization",
        "proxy-authentication-info", "te", "trailer", "transfer-encoding", "upgrade"
      }
  }

  datatype PathConstraint = Uuid

  datatype QueryConstraint = Uuid | AsciiToken(maxLen: Usize)

  datatype Upstream = Upstream(
    scheme: string, host: string, port: U16, pathTemplate: string, followRedirects: bool)

  datatype Definition = Definition(
    id: string,
    browserPath: string,
    methods: seq<string>,
    upstream: Upstream,
    pathParameters: map<string, PathConstraint>,
    queryParameters: map<string, QueryConstraint>,
    requestHeaders: seq<string>,
    responseHeaders: seq<string>)

  datatype Origin = Origin(scheme: string, host: string, port: U16)

  datatype Segment = Static(text: string) | Parameter(name: string)

  datatype Route = Route(
    id: string,
    browserPath: string,
    browserSegments: seq<Segment>,
    methods: set<string>,
    origin: Origin,
    upstreamPath: seq<Segment>,
    pathParameters: map<string, PathConstraint>,
    queryParameters: map<string, QueryConstraint>,
    requestHeaders: set<string>,
    responseHeaders: set<string>)

  datatype PolicyError =
    | EmptyVersion
    | InvalidRouteId(id: string)
    | DuplicateRouteId(id: string)
    | AmbiguousBrowserRoute(path: string, verb: string, first: string, second: string)
    | InvalidBrowserPath(path: string)
    | EmptyMethodSet(id: string)
    | UnsupportedMethod(verb: string)
    | UnsupportedScheme(scheme: string)
    | InvalidHost(host: string)
    | InvalidPort(port: U16)
    | RedirectFollowingForbidden(id: string)
    | InvalidPathTemplate(path: string)
    | InvalidParameterName(name: string)
    | MissingPathConstraint(name: string)
    | UnusedPathConstraint(name: string)
    | InvalidQueryConstraint(name: string)
    | InvalidHeaderName(name: string)
    | ForbiddenRequestForwardHeader(name: string)
    | ForbiddenResponseForwardHeader(name: string)
    | UnknownRoute(id: string)
    | MethodNotAllowed(id: string, verb: string)
    | DuplicatePathParameter(name: string)
    | DuplicateQueryParameter(name: string)
    | MissingPathParameter(name: string)
    | UnexpectedPathParameter(name: string)
    | InvalidPathParameter(name: string)
    | QueryParameterNotAllowed(name: string)
    | InvalidQueryParameter(name: string)

  // ---- character classes and atomic predicates ----------------------------

  predicate IsUnreserved(c: char) {
    IsAsciiAlnum(c) || c == '-' || c == '.' || c == '_' || c == '~'
  }

  predicate IsHttpTokenChar(c: char) {
    || IsAsciiAlnum(c)
    || c == '!' || c == '#' || c == '$' || c == '%' || c == '&' || c == '\'' || c == '*'
    || c == '+' || c == '-' || c == '.' || c == '^' || c == '_' || c == '`' || c == '|' || c == '~'
  }

  /** 8-4-4-4-12 hexadecimal digits of either case. */
  predicate IsCanonicalUuid(s: string) {
    && |s| == 36
    && forall i | 0 <= i < 36 ::
         if i == 8 || i == 13 || i == 18 || i == 23 then s[i] == '-' else IsHexDigit(s[i])
  }

  predicate IsValidRouteId(id: string) {
    && id != "" && |id| <= MAX_ROUTE_ID_LEN
    && All(id, c => IsAsciiAlnum(c) || c == '.' || c == '_' || c == '-')
  }

  predicate IsParameterName(name: string) {
    && name != "" && |name| <= MAX_PARAMETER_NAME_LEN
    && (IsAsciiAlpha(name[0]) || name[0] == '_')
    && All(name, c => IsAsciiAlnum(c) || c == '_')
  }

  predicate IsHostLabel(s: string) {
    && s != "" && |s| <= 63
    && s[0] != '-' && s[|s| - 1] != '-'
    && All(s, c => IsAsciiAlnum(c) || c == '-')
  }

  predicate IsLogicalHost(host: string) {
    && host != "" && |host| <= MAX_HOST_LEN && host[|host| - 1] != '.'
    && forall i | 0 <= i < |Split(host, '.')| :: IsHostLabel(Split(host, '.')[i])
  }

  predicate IsHeaderName(h: string) {
    h != "" && |h| <= MAX_HEADER_NAME_LEN && All(h, IsHttpTokenChar)
  }

  predicate PathValueMatches(c: PathConstraint, value: string) {
    match c
    case Uuid => IsCanonicalUuid(value)
  }

  predicate QueryValueMatches(c: QueryConstraint, value: string) {
    match c
    case Uuid => IsCanonicalUuid(value)
    case AsciiToken(maxLen) => value != "" && |value| <= maxLen && All(value, IsUnreserved)
  }

  lemma UuidChars(s: string)
    requires IsCanonicalUuid(s)
    ensures All(s, c => IsHexDigit(c) || c == '-')
    ensures All(s, IsUnreserved) && s[0] != '.'
  {
  }

  // ---- what validation establishes ----------------------------------------

  predicate IsStaticText(t: string) {
    t != "" && t != "." && t != ".." && All(t, IsUnreserved)
  }

  predicate IsSegment(s: Segment) {
    match s
    case Static(t) => IsStaticText(t)
    case Parameter(n) => IsParameterName(n)
  }

  function ParametersOf(segments: seq<Segment>): set<string> {
    set i | 0 <= i < |segments| && segments[i].Parameter? :: segments[i].name
  }

  /** A template names each of its parameters once, and names exactly those in `names`. */
  ghost predicate IsTemplate(segments: seq<Segment>, names: set<string>) {
    && (forall i | 0 <= i < |segments| :: IsSegment(segments[i]))
    && (forall i, j | 0 <= i < j < |segments| && segments[i].Parameter? && segments[j].Parameter? ::
          segments[i].name != segments[j].name)
    && ParametersOf(segments) == names
  }

  function RawPart(s: Segment): string {
    match s
    case Static(t) => t
    case Parameter(n) => "{" + n + "}"
  }

  function RawParts(segments: seq<Segment>): (parts: seq<string>)
    ensures |parts| == |segments|
    ensures forall i | 0 <= i < |parts| :: parts[i] == RawPart(segments[i])
  {
    if segments == [] then [] else [RawPart(segments[0])] + RawParts(segments[1..])
  }

  function PathText(parts: seq<string>): string {
    "/" + Join(parts, '/')
  }

  /** The printed form of a template. */
  function Render(segments: seq<Segment>): string {
    PathText(RawParts(segments))
  }

  ghost predicate IsQueryPolicy(q: map<string, QueryConstraint>) {
    forall n | n in q :: IsParameterName(n) && q[n] != QueryConstraint.AsciiToken(0)
  }

  ghost predicate IsHeaderPolicy(headers: set<string>, request: bool) {
    forall h | h in headers :: IsHeaderName(h) && Lower(h) == h && !IsForbiddenHeader(h, request)
  }

  ghost predicate ValidRoute(r: Route) {
    && IsValidRouteId(r.id)
    && r.methods != {} && r.methods <= {"GET", "HEAD"}
    && r.browserSegments != []
    && IsTemplate(r.browserSegments, r.pathParameters.Keys)
    && r.browserPath == Render(r.browserSegments)
    && r.origin.scheme == "https" && r.origin.port != 0
    && IsLogicalHost(r.origin.host) && Lower(r.origin.host) == r.origin.host
    && IsTemplate(r.upstreamPath, r.pathParameters.Keys)
    && IsQueryPolicy(r.queryParameters)
    && IsHeaderPolicy(r.requestHeaders, true)
    && IsHeaderPolicy(r.responseHeaders, false)
  }
}
