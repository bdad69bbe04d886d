/** Validation of one route definition, and exactly which routes it can produce. */
module Validation {
  import opened Prelude
  import opened Text
  import opened Policy
  import opened Template
  import Ordering

  function ValidateMethods(methods: seq<string>): Result<set<string>, PolicyError> {
    if methods == [] then Ok({})
    else if methods[0] != "GET" && methods[0] != "HEAD" then Err(UnsupportedMethod(methods[0]))
    else
      var rest :- ValidateMethods(methods[1..]);
      Ok({methods[0]} + rest)
  }

  function ValidateOrigin(u: Upstream): Result<Origin, PolicyError> {
    if Lower(u.scheme) != "https" then Err(UnsupportedScheme(u.scheme))
    else if !IsLogicalHost(u.host) then Err(InvalidHost(u.host))
    else if u.port == 0 then Err(InvalidPort(u.port))
    else Ok(Origin("https", Lower(u.host), u.port))
  }

  function ValidateBrowserPath(path: string, constraints: map<string, PathConstraint>)
    : Result<seq<Segment>, PolicyError>
  {
    match ParseTemplate(path, constraints, true)
    case Ok(segments) => Ok(segments)
    case Err(InvalidPathTemplate(_)) => Err(InvalidBrowserPath(path))
    case Err(e) => Err(e)
  }

  function ValidateQuery(names: seq<string>, q: map<string, QueryConstraint>): Result<(), PolicyError>
    requires forall n | n in names :: n in q
  {
    if names == [] then Ok(())
    else if !IsParameterName(names[0]) then Err(InvalidParameterName(names[0]))
    else if q[names[0]] == QueryConstraint.AsciiToken(0) then Err(InvalidQueryConstraint(names[0]))
    else ValidateQuery(names[1..], q)
  }

  function ValidateHeader(h: string, request: bool): Result<string, PolicyError> {
    var normalized := Lower(h);
    if !IsHeaderName(normalized) then Err(InvalidHeaderName(h))
    else if IsForbiddenHeader(normalized, request) then
      Err(if request then ForbiddenRequestForwardHeader(normalized) else ForbiddenResponseForwardHeader(normalized))
    else Ok(normalized)
  }

  function ValidateHeaders(headers: seq<string>, request: bool): Result<set<string>, PolicyError> {
    if headers == [] then Ok({})
    else
      var h :- ValidateHeader(headers[0], request);
      var rest :- ValidateHeaders(headers[1..], request);
      Ok({h} + rest)
  }

  function SortedQueryNames(q: map<string, QueryConstraint>): (names: seq<string>)
    ensures forall n | n in names :: n in q
  {
    Ordering.SortedElements(q.Keys);
    Ordering.Sorted(q.Keys)
  }

  function Validate(d: Definition): Result<Route, PolicyError> {
    if !IsValidRouteId(d.id) then Err(InvalidRouteId(d.id))
    else if d.methods == [] then Err(EmptyMethodSet(d.id))
    else
      var methods :- ValidateMethods(d.methods);
      var browserSegments :- ValidateBrowserPath(d.browserPath, d.pathParameters);
      var origin :- ValidateOrigin(d.upstream);
      if d.upstream.followRedirects then Err(RedirectFollowingForbidden(d.id))
      else
        var upstreamPath :- ParseTemplate(d.upstream.pathTemplate, d.pathParameters, false);
        var _ :- ValidateQuery(SortedQueryNames(d.queryParameters), d.queryParameters);
        var requestHeaders :- ValidateHeaders(d.requestHeaders, true);
        var responseHeaders :- ValidateHeaders(d.responseHeaders, false);
        Ok(Route(d.id, d.browserPath, browserSegments, methods, origin, upstreamPath,
                 d.pathParameters, d.queryParameters, requestHeaders, responseHeaders))
  }

  // ---- what each check accepts -----------------------------------------------

  lemma {:induction false} ValidateMethodsExact(methods: seq<string>)
    ensures ValidateMethods(methods).Ok? <==> forall m | m in methods :: m == "GET" || m == "HEAD"
    ensures ValidateMethods(methods).Ok? ==> ValidateMethods(methods).value == set m | m in methods
  {
    if methods != [] {
      ValidateMethodsExact(methods[1..]);
      assert methods == [methods[0]] + methods[1..] && methods[0] in methods;
      assert forall m :: m in methods <==> m == methods[0] || m in methods[1..];
    }
  }

  lemma {:induction false} ValidateQueryExact(names: seq<string>, q: map<string, QueryConstraint>)
    requires forall n | n in names :: n in q
    ensures ValidateQuery(names, q).Ok? <==>
            forall n | n in names :: IsParameterName(n) && q[n] != QueryConstraint.AsciiToken(0)
  {
    if names != [] {
      ValidateQueryExact(names[1..], q);
      assert names == [names[0]] + names[1..] && names[0] in names;
      assert forall n :: n in names <==> n == names[0] || n in names[1..];
    }
  }

  lemma {:induction false} ValidateHeadersExact(headers: seq<string>, request: bool)
    ensures ValidateHeaders(headers, request).Ok? <==>
            forall h | h in headers :: IsHeaderName(Lower(h)) && !IsForbiddenHeader(Lower(h), request)
    ensures ValidateHeaders(headers, request).Ok? ==>
            ValidateHeaders(headers, request).value == set h | h in headers :: Lower(h)
  {
    if headers != [] {
      ValidateHeadersExact(headers[1..], request);
      assert headers == [headers[0]] + headers[1..] && headers[0] in headers;
      assert forall h :: h in headers <==> h == headers[0] || h in headers[1..];
    }
  }

  lemma LowerIdempotent(s: string)
    ensures Lower(Lower(s)) == Lower(s)
  {
    assert forall i | 0 <= i < |s| :: Lower(Lower(s))[i] == Lower(s)[i];
  }

  lemma LowerLabel(s: string)
    requires IsHostLabel(s)
    ensures IsHostLabel(Lower(s))
  {
    assert forall i | 0 <= i < |s| :: IsAsciiAlnum(s[i]) || s[i] == '-';
  }

  lemma LowerIndexOf(s: string)
    ensures IndexOf(Lower(s), '.') == IndexOf(s, '.')
  {
    assert forall k | 0 <= k < |s| :: Lower(s)[k] == '.' <==> s[k] == '.';
    var i, j := IndexOf(s, '.'), IndexOf(Lower(s), '.');
    assert forall k | 0 <= k < i :: s[k] == s[..i][k] && s[..i][k] in s[..i];
    assert forall k | 0 <= k < j :: Lower(s)[k] == Lower(s)[..j][k] && Lower(s)[..j][k] in Lower(s)[..j];
  }

  ghost predicate LoweredPieces(parts: seq<string>, lowered: seq<string>) {
    |lowered| == |parts| && forall i | 0 <= i < |parts| :: lowered[i] == Lower(parts[i])
  }

  lemma {:induction false} LowerSplit(s: string)
    ensures LoweredPieces(Split(s, '.'), Split(Lower(s), '.'))
    decreases |s|
  {
    var i := IndexOf(s, '.');
    LowerIndexOf(s);
    if i < |s| {
      assert Lower(s)[..i] == Lower(s[..i]);
      assert Lower(s)[i + 1..] == Lower(s[i + 1..]);
      LowerSplit(s[i + 1..]);
      var parts, lowered := Split(s[i + 1..], '.'), Split(Lower(s[i + 1..]), '.');
      assert Split(s, '.') == [s[..i]] + parts;
      assert Split(Lower(s), '.') == [Lower(s[..i])] + lowered;
    }
  }

  lemma LowerHost(host: string)
    requires IsLogicalHost(host)
    ensures IsLogicalHost(Lower(host))
  {
    LowerSplit(host);
    forall i | 0 <= i < |Split(Lower(host), '.')| ensures IsHostLabel(Split(Lower(host), '.')[i]) {
      LowerLabel(Split(host, '.')[i]);
    }
  }

  lemma QueryPolicyExact(q: map<string, QueryConstraint>)
    ensures ValidateQuery(SortedQueryNames(q), q).Ok? <==> IsQueryPolicy(q)
  {
    Ordering.SortedElements(q.Keys);
    ValidateQueryExact(SortedQueryNames(q), q);
    assert forall n :: n in q <==> n in SortedQueryNames(q);
  }

  lemma HeaderPolicy(headers: seq<string>, request: bool)
    requires ValidateHeaders(headers, request).Ok?
    ensures IsHeaderPolicy(ValidateHeaders(headers, request).value, request)
  {
    ValidateHeadersExact(headers, request);
    forall h | h in ValidateHeaders(headers, request).value
      ensures IsHeaderName(h) && Lower(h) == h && !IsForbiddenHeader(h, request)
    {
      var g :| g in headers && Lower(g) == h;
      LowerIdempotent(g);
    }
  }

  /** Validation accepts exactly when every check does, and assembles what they return. */
  ghost predicate PartsOk(d: Definition) {
    && IsValidRouteId(d.id) && d.methods != []
    && ValidateMethods(d.methods).Ok?
    && ValidateBrowserPath(d.browserPath, d.pathParameters).Ok?
    && ValidateOrigin(d.upstream).Ok? && !d.upstream.followRedirects
    && ParseTemplate(d.upstream.pathTemplate, d.pathParameters, false).Ok?
    && ValidateQuery(SortedQueryNames(d.queryParameters), d.queryParameters).Ok?
    && ValidateHeaders(d.requestHeaders, true).Ok?
    && ValidateHeaders(d.responseHeaders, false).Ok?
  }

  lemma ValidateParts(d: Definition)
    ensures Validate(d).Ok? <==> PartsOk(d)
    ensures PartsOk(d) ==>
      Validate(d).value == Route(
        d.id, d.browserPath, ValidateBrowserPath(d.browserPath, d.pathParameters).value,
        ValidateMethods(d.methods).value, ValidateOrigin(d.upstream).value,
        ParseTemplate(d.upstream.pathTemplate, d.pathParameters, false).value,
        d.pathParameters, d.queryParameters,
        ValidateHeaders(d.requestHeaders, true).value,
        ValidateHeaders(d.responseHeaders, false).value)
  {
  }

  /** Everything validation returns satisfies the full route invariant. */
  lemma ValidateSound(d: Definition)
    requires Validate(d).Ok?
    ensures ValidRoute(Validate(d).value)
    ensures Validate(d).value.id == d.id
  {
    ValidateParts(d);
    var r := Validate(d).value;
    assert r.methods != {} && r.methods <= {"GET", "HEAD"} by {
      ValidateMethodsExact(d.methods);
      assert d.methods[0] in r.methods;
    }
    ParseTemplateExact(d.browserPath, d.pathParameters, true, r.browserSegments);
    ParseTemplateExact(d.upstream.pathTemplate, d.pathParameters, false, r.upstreamPath);
    assert IsLogicalHost(r.origin.host) && Lower(r.origin.host) == r.origin.host by {
      LowerHost(d.upstream.host);
      LowerIdempotent(d.upstream.host);
    }
    QueryPolicyExact(d.queryParameters);
    HeaderPolicy(d.requestHeaders, true);
    HeaderPolicy(d.responseHeaders, false);
  }

  // ---- the inverse direction --------------------------------------------------

  /** The definition an operator would write to obtain `r`. */
  function DefinitionOf(r: Route): Definition {
    Definition(
      r.id, r.browserPath, Ordering.Sorted(r.methods),
      Upstream(r.origin.scheme, r.origin.host, r.origin.port, Render(r.upstreamPath), false),
      r.pathParameters, r.queryParameters,
      Ordering.Sorted(r.requestHeaders), Ordering.Sorted(r.responseHeaders))
  }

  lemma ValidateSortedHeaders(headers: set<string>, request: bool)
    requires IsHeaderPolicy(headers, request)
    ensures ValidateHeaders(Ordering.Sorted(headers), request) == Ok(headers)
  {
    var hs := Ordering.Sorted(headers);
    Ordering.SortedElements(headers);
    ValidateHeadersExact(hs, request);
    assert ValidateHeaders(hs, request).Ok? by {
      forall h | h in hs ensures IsHeaderName(Lower(h)) && !IsForbiddenHeader(Lower(h), request) {
        assert h in headers;
      }
    }
    var v := ValidateHeaders(hs, request).value;
    forall h | h in headers ensures h in v {
      assert h in hs && Lower(h) == h;
    }
    forall h | h in v ensures h in headers {
      var g :| g in hs && Lower(g) == h;
      assert g in headers;
    }
    assert v == headers;
  }

  lemma MethodsOfDefinition(r: Route)
    requires r.methods != {} && r.methods <= {"GET", "HEAD"}
    ensures DefinitionOf(r).methods != [] && ValidateMethods(DefinitionOf(r).methods) == Ok(r.methods)
  {
    var methods := Ordering.Sorted(r.methods);
    Ordering.SortedElements(r.methods);
    ValidateMethodsExact(methods);
    assert forall m | m in methods :: m == "GET" || m == "HEAD";
    assert (set m | m in methods) == r.methods;
  }

  lemma OriginOfDefinition(r: Route)
    requires r.origin.scheme == "https" && r.origin.port != 0
    requires IsLogicalHost(r.origin.host) && Lower(r.origin.host) == r.origin.host
    ensures ValidateOrigin(DefinitionOf(r).upstream) == Ok(r.origin)
  {
    assert Lower("https") == "https";
  }

  lemma ValidateComplete(r: Route)
    requires ValidRoute(r)
    ensures Validate(DefinitionOf(r)) == Ok(r)
  {
    var d := DefinitionOf(r);
    MethodsOfDefinition(r);
    OriginOfDefinition(r);
    ParseTemplateExact(d.browserPath, r.pathParameters, true, r.browserSegments);
    ParseTemplateExact(d.upstream.pathTemplate, r.pathParameters, false, r.upstreamPath);
    QueryPolicyExact(r.queryParameters);
    ValidateSortedHeaders(r.requestHeaders, true);
    ValidateSortedHeaders(r.responseHeaders, false);
    ValidateParts(d);
  }

  /** The route invariant is exact: a route satisfies it iff validating its own definition yields it. */
  lemma ValidateExact(r: Route)
    ensures ValidRoute(r) <==> Validate(DefinitionOf(r)) == Ok(r)
  {
    if Validate(DefinitionOf(r)) == Ok(r) {
      ValidateSound(DefinitionOf(r));
    } else if ValidRoute(r) {
      ValidateComplete(r);
    }
  }

  // ---- the loops of the source ---------------------------------------------

  function Including(done: set<string>, rest: Result<set<string>, PolicyError>): Result<set<string>, PolicyError> {
    match rest
    case Ok(s) => Ok(done + s)
    case Err(e) => Err(e)
  }

  lemma IncludingNothing(rest: Result<set<string>, PolicyError>)
    ensures Including({}, rest) == rest
  {
    assert rest.Ok? ==> {} + rest.value == rest.value;
  }

  method ValidateHeaderAllowlist(headers: seq<string>, request: bool)
    returns (r: Result<set<string>, PolicyError>)
    ensures r == ValidateHeaders(headers, request)
  {
    var validated: set<string> := {};
    IncludingNothing(ValidateHeaders(headers, request));
    assert headers[0..] == headers;
    for i := 0 to |headers|
      invariant ValidateHeaders(headers, request)
             == Including(validated, ValidateHeaders(headers[i..], request))
    {
      assert headers[i..][0] == headers[i] && headers[i..][1..] == headers[i + 1..];
      var h := ValidateHeader(headers[i], request);
      if h.Err? {
        return Err(h.error);
      }
      ghost var rest := ValidateHeaders(headers[i + 1..], request);
      assert rest.Ok? ==> validated + ({h.value} + rest.value) == validated + {h.value} + rest.value;
      validated := validated + {h.value};
    }
    return Ok(validated);
  }

  method ValidateRoute(d: Definition) returns (r: Result<Route, PolicyError>)
    ensures r == Validate(d)
  {
    if !IsValidRouteId(d.id) {
      return Err(InvalidRouteId(d.id));
    }
    if d.methods == [] {
      return Err(EmptyMethodSet(d.id));
    }
    var methods: set<string> := {};
    IncludingNothing(ValidateMethods(d.methods));
    assert d.methods[0..] == d.methods;
    for i := 0 to |d.methods|
      invariant ValidateMethods(d.methods) == Including(methods, ValidateMethods(d.methods[i..]))
    {
      assert d.methods[i..][0] == d.methods[i] && d.methods[i..][1..] == d.methods[i + 1..];
      if d.methods[i] != "GET" && d.methods[i] != "HEAD" {
        return Err(UnsupportedMethod(d.methods[i]));
      }
      ghost var rest := ValidateMethods(d.methods[i + 1..]);
      assert rest.Ok? ==> methods + ({d.methods[i]} + rest.value) == methods + {d.methods[i]} + rest.value;
      methods := methods + {d.methods[i]};
    }

    var browser := ParsePathTemplate(d.browserPath, d.pathParameters, true);
    if browser.Err? {
      return Err(if browser.error.InvalidPathTemplate? then InvalidBrowserPath(d.browserPath) else browser.error);
    }
    var origin := ValidateOrigin(d.upstream);
    if origin.Err? {
      return Err(origin.error);
    }
    if d.upstream.followRedirects {
      return Err(RedirectFollowingForbidden(d.id));
    }
    var upstream := ParsePathTemplate(d.upstream.pathTemplate, d.pathParameters, false);
    if upstream.Err? {
      return Err(upstream.error);
    }
    var query := ValidateQueryConstraints(d.queryParameters);
    if query.Err? {
      return Err(query.error);
    }
    var request := ValidateHeaderAllowlist(d.requestHeaders, true);
    if request.Err? {
      return Err(request.error);
    }
    var response := ValidateHeaderAllowlist(d.responseHeaders, false);
    if response.Err? {
      return Err(response.error);
    }
    return Ok(Route(d.id, d.browserPath, browser.value, methods, origin.value, upstream.value,
                    d.pathParameters, d.queryParameters, request.value, response.value));
  }

  method ValidateQueryConstraints(q: map<string, QueryConstraint>) returns (r: Result<(), PolicyError>)
    ensures r == ValidateQuery(SortedQueryNames(q), q)
  {
    var names := SortedQueryNames(q);
    for i := 0 to |names|
      invariant ValidateQuery(names, q) == ValidateQuery(names[i..], q)
    {
      if !IsParameterName(names[i]) {
        return Err(InvalidParameterName(names[i]));
      }
      if q[names[i]] == QueryConstraint.AsciiToken(0) {
        return Err(InvalidQueryConstraint(names[i]));
      }
    }
    return Ok(());
  }
}
