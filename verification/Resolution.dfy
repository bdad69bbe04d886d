/** Resolving an approved route with concrete parameters into an upstream target. */
module Resolution {
  import opened Prelude
  import opened Text
  import opened Policy
  import opened Matching
  import opened Snapshots
  import Digest
  import Template

  type Pairs = seq<(string, string)>

  datatype Resolved = Resolved(
    routeId: string,
    verb: string,
    origin: Origin,
    pathAndQuery: string,
    requestHeaders: set<string>,
    responseHeaders: set<string>)

  function CollectFrom(m: map<string, string>, ps: Pairs, path: bool): Result<map<string, string>, PolicyError>
    decreases |ps|
  {
    if ps == [] then Ok(m)
    else if ps[0].0 in m then Err(if path then DuplicatePathParameter(ps[0].0) else DuplicateQueryParameter(ps[0].0))
    else CollectFrom(m[ps[0].0 := ps[0].1], ps[1..], path)
  }

  function CheckDeclared(names: seq<string>, declared: map<string, PathConstraint>): Result<(), PolicyError> {
    if names == [] then Ok(())
    else if names[0] !in declared then Err(UnexpectedPathParameter(names[0]))
    else CheckDeclared(names[1..], declared)
  }

  predicate Constrained(segments: seq<Segment>, constraints: map<string, PathConstraint>) {
    forall i | 0 <= i < |segments| && segments[i].Parameter? :: segments[i].name in constraints
  }

  function ResolvePart(s: Segment, constraints: map<string, PathConstraint>, provided: map<string, string>)
    : Result<string, PolicyError>
    requires s.Parameter? ==> s.name in constraints
  {
    match s
    case Static(t) => Ok(t)
    case Parameter(n) =>
      if n !in provided then Err(MissingPathParameter(n))
      else if !PathValueMatches(constraints[n], provided[n]) then Err(InvalidPathParameter(n))
      else Ok(provided[n])
  }

  function ResolveParts(segments: seq<Segment>, constraints: map<string, PathConstraint>, provided: map<string, string>)
    : Result<seq<string>, PolicyError>
    requires Constrained(segments, constraints)
  {
    if segments == [] then Ok([])
    else
      var part :- ResolvePart(segments[0], constraints, provided);
      var rest :- ResolveParts(segments[1..], constraints, provided);
      Ok([part] + rest)
  }

  function ResolvePath(r: Route, provided: map<string, string>): Result<string, PolicyError>
    requires Constrained(r.upstreamPath, r.pathParameters)
  {
    var _ :- CheckDeclared(Digest.Keys(provided), r.pathParameters);
    var parts :- ResolveParts(r.upstreamPath, r.pathParameters, provided);
    Ok(PathText(parts))
  }

  function ResolveQueryParts(names: seq<string>, allowed: map<string, QueryConstraint>, provided: map<string, string>)
    : Result<seq<string>, PolicyError>
    requires forall n | n in names :: n in provided
  {
    if names == [] then Ok([])
    else if names[0] !in allowed then Err(QueryParameterNotAllowed(names[0]))
    else if !QueryValueMatches(allowed[names[0]], provided[names[0]]) then Err(InvalidQueryParameter(names[0]))
    else
      var rest :- ResolveQueryParts(names[1..], allowed, provided);
      Ok([names[0] + "=" + provided[names[0]]] + rest)
  }

  function ResolveQuery(r: Route, provided: map<string, string>): Result<string, PolicyError> {
    var parts :- ResolveQueryParts(Digest.Keys(provided), r.queryParameters, provided);
    Ok(Join(parts, '&'))
  }

  function WithQuery(path: string, query: string): string {
    if query == "" then path else path + "?" + query
  }

  function ResolveOn(r: Route, verb: string, pathParameters: Pairs, queryParameters: Pairs)
    : Result<Resolved, PolicyError>
    requires Constrained(r.upstreamPath, r.pathParameters)
  {
    var providedPath :- CollectFrom(map[], pathParameters, true);
    var path :- ResolvePath(r, providedPath);
    var providedQuery :- CollectFrom(map[], queryParameters, false);
    var query :- ResolveQuery(r, providedQuery);
    Ok(Resolved(r.id, verb, r.origin, WithQuery(path, query), r.requestHeaders, r.responseHeaders))
  }

  function Resolve(s: Snapshot, id: string, verb: string, pathParameters: Pairs, queryParameters: Pairs)
    : Result<Resolved, PolicyError>
    requires forall k | k in s.routes :: Constrained(s.routes[k].upstreamPath, s.routes[k].pathParameters)
  {
    if id !in s.routes then Err(UnknownRoute(id))
    else if verb !in s.routes[id].methods then Err(MethodNotAllowed(id, verb))
    else ResolveOn(s.routes[id], verb, pathParameters, queryParameters)
  }

  /** The lookup that the source expects to succeed does, in every valid snapshot. */
  lemma SnapshotConstrained(s: Snapshot)
    requires ValidSnapshot(s)
    ensures forall k | k in s.routes :: Constrained(s.routes[k].upstreamPath, s.routes[k].pathParameters)
  {
    forall k | k in s.routes ensures Constrained(s.routes[k].upstreamPath, s.routes[k].pathParameters) {
      RouteConstrained(s.routes[k]);
    }
  }

  lemma RouteConstrained(r: Route)
    requires ValidRoute(r)
    ensures Constrained(r.upstreamPath, r.pathParameters)
  {
    forall i | 0 <= i < |r.upstreamPath| && r.upstreamPath[i].Parameter?
      ensures r.upstreamPath[i].name in r.pathParameters
    {
      assert r.upstreamPath[i].name in ParametersOf(r.upstreamPath);
    }
  }

  // ---- parameter lists -----------------------------------------------------------

  ghost predicate UniqueNames(ps: Pairs) {
    forall i, j | 0 <= i < j < |ps| :: ps[i].0 != ps[j].0
  }

  /** The map a list of pairs denotes. */
  function AsMap(ps: Pairs): map<string, string> {
    if ps == [] then map[] else AsMap(ps[1..])[ps[0].0 := ps[0].1]
  }

  lemma {:induction false} AsMapKeys(ps: Pairs, n: string)
    ensures n in AsMap(ps) <==> exists i :: 0 <= i < |ps| && ps[i].0 == n
  {
    if ps != [] {
      var rest := ps[1..];
      AsMapKeys(rest, n);
      if i :| 0 <= i < |rest| && rest[i].0 == n {
        assert ps[i + 1].0 == n;
      }
      if i :| 0 <= i < |ps| && ps[i].0 == n {
        assert i > 0 ==> rest[i - 1].0 == n;
      }
    }
  }

  lemma {:induction false} AsMapEntry(ps: Pairs, i: nat)
    requires UniqueNames(ps) && i < |ps|
    ensures ps[i].0 in AsMap(ps) && AsMap(ps)[ps[i].0] == ps[i].1
  {
    if i > 0 {
      var rest := ps[1..];
      assert UniqueNames(rest) by {
        assert forall j | 0 <= j < |rest| :: rest[j] == ps[j + 1];
      }
      AsMapEntry(rest, i - 1);
    }
  }

  ghost predicate Disjoint(m: map<string, string>, ps: Pairs) {
    forall i | 0 <= i < |ps| :: ps[i].0 !in m
  }

  lemma {:induction false} CollectFromExact(m: map<string, string>, ps: Pairs, path: bool)
    ensures CollectFrom(m, ps, path).Ok? <==> UniqueNames(ps) && Disjoint(m, ps)
    ensures CollectFrom(m, ps, path).Ok? ==> CollectFrom(m, ps, path).value == m + AsMap(ps)
    decreases |ps|
  {
    if ps == [] {
      assert m + AsMap(ps) == m;
    } else if ps[0].0 in m {
      assert !Disjoint(m, ps);
    } else {
      CollectFromExact(m[ps[0].0 := ps[0].1], ps[1..], path);
      UniqueCons(m, ps);
    }
  }

  lemma UniqueCons(m: map<string, string>, ps: Pairs)
    requires ps != [] && ps[0].0 !in m
    ensures UniqueNames(ps) && Disjoint(m, ps) <==>
            UniqueNames(ps[1..]) && Disjoint(m[ps[0].0 := ps[0].1], ps[1..])
    ensures UniqueNames(ps) ==> m + AsMap(ps) == m[ps[0].0 := ps[0].1] + AsMap(ps[1..])
  {
    var rest, more := ps[1..], m[ps[0].0 := ps[0].1];
    assert forall i | 0 <= i < |rest| :: rest[i] == ps[i + 1];
    if UniqueNames(rest) && Disjoint(more, rest) {
      forall i, j | 0 <= i < j < |ps| ensures ps[i].0 != ps[j].0 {
        assert rest[j - 1].0 !in more;
        assert i > 0 ==> rest[i - 1].0 != rest[j - 1].0;
      }
      forall i | 0 <= i < |ps| ensures ps[i].0 !in m {
        assert i > 0 ==> rest[i - 1].0 !in more;
      }
    }
    if UniqueNames(ps) {
      AsMapKeys(rest, ps[0].0);
    }
  }

  /** Duplicate-free lists with the same pairs denote the same map. */
  lemma PairOrderIrrelevant(ps: Pairs, qs: Pairs)
    requires multiset(ps) == multiset(qs)
    ensures UniqueNames(ps) <==> UniqueNames(qs)
    ensures UniqueNames(ps) ==> AsMap(ps) == AsMap(qs)
  {
    if UniqueNames(ps) {
      UniqueTransfers(ps, qs);
    }
    if UniqueNames(qs) {
      UniqueTransfers(qs, ps);
    }
    if UniqueNames(ps) {
      AsMapWithin(ps, qs);
      AsMapWithin(qs, ps);
    }
  }

  lemma UniqueTransfers(ps: Pairs, qs: Pairs)
    requires multiset(ps) == multiset(qs) && UniqueNames(ps)
    ensures UniqueNames(qs)
  {
    forall i, j | 0 <= i < j < |qs| ensures qs[i].0 != qs[j].0 {
      assert qs[i] in multiset(ps) && qs[j] in multiset(ps);
      var a :| 0 <= a < |ps| && ps[a] == qs[i];
      var b :| 0 <= b < |ps| && ps[b] == qs[j];
      Occurrences(ps, qs[i]);
      Occurrences(qs, qs[i]);
    }
  }

  lemma AsMapWithin(ps: Pairs, qs: Pairs)
    requires multiset(ps) == multiset(qs) && UniqueNames(ps) && UniqueNames(qs)
    ensures forall n | n in AsMap(ps) :: n in AsMap(qs) && AsMap(qs)[n] == AsMap(ps)[n]
  {
    forall n | n in AsMap(ps) ensures n in AsMap(qs) && AsMap(qs)[n] == AsMap(ps)[n] {
      AsMapKeys(ps, n);
      var i :| 0 <= i < |ps| && ps[i].0 == n;
      AsMapEntry(ps, i);
      assert ps[i] in multiset(qs);
      var j :| 0 <= j < |qs| && qs[j] == ps[i];
      AsMapEntry(qs, j);
    }
  }

  // ---- when resolving succeeds, and with what ---------------------------------------

  lemma {:induction false} CheckDeclaredExact(names: seq<string>, declared: map<string, PathConstraint>)
    ensures CheckDeclared(names, declared).Ok? <==> forall n | n in names :: n in declared
  {
    if names != [] {
      CheckDeclaredExact(names[1..], declared);
      assert names == [names[0]] + names[1..] && names[0] in names;
    }
  }

  ghost predicate PartsMatch(
      segments: seq<Segment>, constraints: map<string, PathConstraint>, provided: map<string, string>)
    requires Constrained(segments, constraints)
  {
    forall i | 0 <= i < |segments| && segments[i].Parameter? ::
      segments[i].name in provided && PathValueMatches(constraints[segments[i].name], provided[segments[i].name])
  }

  lemma {:induction false} ResolvePartsExact(
      segments: seq<Segment>, constraints: map<string, PathConstraint>, provided: map<string, string>)
    requires Constrained(segments, constraints)
    ensures ResolveParts(segments, constraints, provided).Ok? <==> PartsMatch(segments, constraints, provided)
    ensures PartsMatch(segments, constraints, provided) ==>
            Binds(segments, provided)
            && ResolveParts(segments, constraints, provided).value == FillParts(segments, provided)
  {
    if segments != [] {
      var rest := segments[1..];
      assert forall i | 0 <= i < |rest| :: rest[i] == segments[i + 1];
      ResolvePartsExact(rest, constraints, provided);
      if PartsMatch(rest, constraints, provided) && ResolvePart(segments[0], constraints, provided).Ok? {
        forall i | 0 <= i < |segments| && segments[i].Parameter?
          ensures segments[i].name in provided
               && PathValueMatches(constraints[segments[i].name], provided[segments[i].name])
        {
          assert i > 0 ==> segments[i] == rest[i - 1];
        }
      }
    }
  }

  /** A path resolves exactly for the bindings of the route's parameters: all, no others, each matching. */
  lemma ResolvePathExact(r: Route, provided: map<string, string>)
    requires ValidRoute(r)
    ensures Constrained(r.upstreamPath, r.pathParameters)
    ensures ResolvePath(r, provided).Ok? <==> IsBinding(r.pathParameters, provided)
    ensures IsBinding(r.pathParameters, provided) ==>
            Binds(r.upstreamPath, provided) && ResolvePath(r, provided).value == Fill(r.upstreamPath, provided)
  {
    RouteConstrained(r);
    CheckDeclaredExact(Digest.Keys(provided), r.pathParameters);
    ResolvePartsExact(r.upstreamPath, r.pathParameters, provided);
    if PartsMatch(r.upstreamPath, r.pathParameters, provided) {
      forall n | n in r.pathParameters ensures n in provided && PathValueMatches(r.pathParameters[n], provided[n]) {
        var i := PositionOf(r.upstreamPath, n);
        assert r.upstreamPath[i] == Parameter(n);
      }
    }
    if (forall n | n in provided :: n in r.pathParameters) && PartsMatch(r.upstreamPath, r.pathParameters, provided) {
      assert provided.Keys == r.pathParameters.Keys;
    }
  }

  ghost predicate QueryAllowed(allowed: map<string, QueryConstraint>, provided: map<string, string>) {
    forall n | n in provided :: n in allowed && QueryValueMatches(allowed[n], provided[n])
  }

  function QueryParts(names: seq<string>, provided: map<string, string>): (parts: seq<string>)
    requires forall n | n in names :: n in provided
    ensures |parts| == |names|
    ensures forall i | 0 <= i < |names| :: parts[i] == names[i] + "=" + provided[names[i]]
  {
    if names == [] then [] else [names[0] + "=" + provided[names[0]]] + QueryParts(names[1..], provided)
  }

  /** The query text: the parameters in ascending order of their names. */
  function QueryText(provided: map<string, string>): string {
    Join(QueryParts(Digest.Keys(provided), provided), '&')
  }

  lemma {:induction false} ResolveQueryPartsExact(
      names: seq<string>, allowed: map<string, QueryConstraint>, provided: map<string, string>)
    requires forall n | n in names :: n in provided
    ensures ResolveQueryParts(names, allowed, provided).Ok? <==>
            forall n | n in names :: n in allowed && QueryValueMatches(allowed[n], provided[n])
    ensures ResolveQueryParts(names, allowed, provided).Ok? ==>
            ResolveQueryParts(names, allowed, provided).value == QueryParts(names, provided)
  {
    if names != [] {
      ResolveQueryPartsExact(names[1..], allowed, provided);
      assert names == [names[0]] + names[1..] && names[0] in names;
    }
  }

  lemma ResolveQueryExact(r: Route, provided: map<string, string>)
    ensures ResolveQuery(r, provided).Ok? <==> QueryAllowed(r.queryParameters, provided)
    ensures QueryAllowed(r.queryParameters, provided) ==> ResolveQuery(r, provided).value == QueryText(provided)
  {
    ResolveQueryPartsExact(Digest.Keys(provided), r.queryParameters, provided);
  }

  function Target(r: Route, path: map<string, string>, query: map<string, string>): string
    requires Binds(r.upstreamPath, path)
  {
    WithQuery(Fill(r.upstreamPath, path), QueryText(query))
  }

  lemma RequestExact(ps: Pairs, qs: Pairs)
    ensures CollectFrom(map[], ps, true).Ok? <==> UniqueNames(ps)
    ensures UniqueNames(ps) ==> CollectFrom(map[], ps, true).value == AsMap(ps)
    ensures CollectFrom(map[], qs, false).Ok? <==> UniqueNames(qs)
    ensures UniqueNames(qs) ==> CollectFrom(map[], qs, false).value == AsMap(qs)
  {
    CollectFromExact(map[], ps, true);
    CollectFromExact(map[], qs, false);
    if UniqueNames(ps) {
      assert map[] + AsMap(ps) == AsMap(ps);
    }
    if UniqueNames(qs) {
      assert map[] + AsMap(qs) == AsMap(qs);
    }
  }

  ghost predicate ResolvableOn(r: Route, ps: Pairs, qs: Pairs) {
    && UniqueNames(ps) && IsBinding(r.pathParameters, AsMap(ps))
    && UniqueNames(qs) && QueryAllowed(r.queryParameters, AsMap(qs))
  }

  lemma ResolveOnExact(r: Route, verb: string, ps: Pairs, qs: Pairs)
    requires ValidRoute(r)
    ensures Constrained(r.upstreamPath, r.pathParameters)
    ensures ResolveOn(r, verb, ps, qs).Ok? <==> ResolvableOn(r, ps, qs)
    ensures ResolvableOn(r, ps, qs) ==>
      Binds(r.upstreamPath, AsMap(ps))
      && ResolveOn(r, verb, ps, qs).value
         == Resolved(r.id, verb, r.origin, Target(r, AsMap(ps), AsMap(qs)), r.requestHeaders, r.responseHeaders)
  {
    RouteConstrained(r);
    RequestExact(ps, qs);
    if UniqueNames(ps) {
      ResolvePathExact(r, AsMap(ps));
    }
    if UniqueNames(qs) {
      ResolveQueryExact(r, AsMap(qs));
    }
  }

  ghost predicate Resolvable(s: Snapshot, id: string, verb: string, ps: Pairs, qs: Pairs) {
    id in s.routes && verb in s.routes[id].methods && ResolvableOn(s.routes[id], ps, qs)
  }

  /** Resolution succeeds on exactly the resolvable requests, and its target is a function of the two maps. */
  lemma ResolveExact(s: Snapshot, id: string, verb: string, ps: Pairs, qs: Pairs)
    requires ValidSnapshot(s)
    ensures forall k | k in s.routes :: Constrained(s.routes[k].upstreamPath, s.routes[k].pathParameters)
    ensures Resolve(s, id, verb, ps, qs).Ok? <==> Resolvable(s, id, verb, ps, qs)
    ensures Resolvable(s, id, verb, ps, qs) ==>
      var r := s.routes[id];
      Binds(r.upstreamPath, AsMap(ps))
      && Resolve(s, id, verb, ps, qs).value
         == Resolved(id, verb, r.origin, Target(r, AsMap(ps), AsMap(qs)), r.requestHeaders, r.responseHeaders)
  {
    SnapshotConstrained(s);
    if id in s.routes && verb in s.routes[id].methods {
      ResolveOnExact(s.routes[id], verb, ps, qs);
    }
  }

  /** The order in which parameters are supplied is immaterial to every successful result. */
  lemma ResolveIgnoresOrder(s: Snapshot, id: string, verb: string, ps: Pairs, qs: Pairs, ps': Pairs, qs': Pairs)
    requires ValidSnapshot(s)
    requires multiset(ps) == multiset(ps') && multiset(qs) == multiset(qs')
    ensures forall k | k in s.routes :: Constrained(s.routes[k].upstreamPath, s.routes[k].pathParameters)
    ensures Resolve(s, id, verb, ps, qs).Ok? <==> Resolve(s, id, verb, ps', qs').Ok?
    ensures Resolve(s, id, verb, ps, qs).Ok? ==> Resolve(s, id, verb, ps, qs) == Resolve(s, id, verb, ps', qs')
  {
    ResolveExact(s, id, verb, ps, qs);
    ResolveExact(s, id, verb, ps', qs');
    PairOrderIrrelevant(ps, ps');
    PairOrderIrrelevant(qs, qs');
  }

  // ---- the loops of the source ---------------------------------------------

  method CollectUniqueParameters(ps: Pairs, path: bool) returns (r: Result<map<string, string>, PolicyError>)
    ensures r == CollectFrom(map[], ps, path)
  {
    var collected: map<string, string> := map[];
    for i := 0 to |ps|
      invariant CollectFrom(map[], ps, path) == CollectFrom(collected, ps[i..], path)
    {
      assert ps[i..][0] == ps[i] && ps[i..][1..] == ps[i + 1..];
      var (name, value) := ps[i];
      if name in collected {
        return Err(if path then DuplicatePathParameter(name) else DuplicateQueryParameter(name));
      }
      collected := collected[name := value];
    }
    return Ok(collected);
  }

  function WithParts(done: seq<string>, rest: Result<seq<string>, PolicyError>): Result<seq<string>, PolicyError> {
    match rest
    case Ok(parts) => Ok(done + parts)
    case Err(e) => Err(e)
  }

  lemma WithPartsStep(done: seq<string>, part: string, rest: Result<seq<string>, PolicyError>)
    ensures WithParts(done, WithParts([part], rest)) == WithParts(done + [part], rest)
  {
    assert rest.Ok? ==> done + ([part] + rest.value) == done + [part] + rest.value;
  }

  /** `parts` written one after the other, each but the first behind a separator. */
  lemma Appended(parts: seq<string>, part: string, c: char)
    ensures Join(parts + [part], c) == Join(parts, c) + (if parts == [] then "" else [c]) + part
  {
    if parts == [] {
      assert parts + [part] == [part];
    } else {
      Template.JoinSnoc(parts, part, c);
    }
  }

  method ResolvePathText(r: Route, provided: map<string, string>) returns (res: Result<string, PolicyError>)
    requires Constrained(r.upstreamPath, r.pathParameters)
    ensures res == ResolvePath(r, provided)
  {
    var names := Digest.Keys(provided);
    for i := 0 to |names|
      invariant CheckDeclared(names, r.pathParameters) == CheckDeclared(names[i..], r.pathParameters)
    {
      if names[i] !in r.pathParameters {
        return Err(UnexpectedPathParameter(names[i]));
      }
    }

    var segments := r.upstreamPath;
    var resolved := "/";
    ghost var parts: seq<string> := [];
    assert segments[0..] == segments;
    WithNothing(ResolveParts(segments, r.pathParameters, provided));
    for i := 0 to |segments|
      invariant |parts| == i && resolved == PathText(parts)
      invariant ResolveParts(segments, r.pathParameters, provided)
             == WithParts(parts, ResolveParts(segments[i..], r.pathParameters, provided))
    {
      assert segments[i..][0] == segments[i] && segments[i..][1..] == segments[i + 1..];
      if i > 0 {
        resolved := resolved + "/";
      }
      var part := ResolvePart(segments[i], r.pathParameters, provided);
      if part.Err? {
        return Err(part.error);
      }
      Appended(parts, part.value, '/');
      WithPartsStep(parts, part.value, ResolveParts(segments[i + 1..], r.pathParameters, provided));
      resolved := resolved + part.value;
      parts := parts + [part.value];
    }
    assert parts + [] == parts;
    return Ok(resolved);
  }

  lemma WithNothing(rest: Result<seq<string>, PolicyError>)
    ensures WithParts([], rest) == rest
  {
    assert rest.Ok? ==> [] + rest.value == rest.value;
  }

  method ResolveQueryText(r: Route, provided: map<string, string>) returns (res: Result<string, PolicyError>)
    ensures res == ResolveQuery(r, provided)
  {
    var names := Digest.Keys(provided);
    var resolved := "";
    ghost var parts: seq<string> := [];
    assert names[0..] == names;
    WithNothing(ResolveQueryParts(names, r.queryParameters, provided));
    for i := 0 to |names|
      invariant |parts| == i && resolved == Join(parts, '&')
      invariant ResolveQueryParts(names, r.queryParameters, provided)
             == WithParts(parts, ResolveQueryParts(names[i..], r.queryParameters, provided))
    {
      assert names[i..][0] == names[i] && names[i..][1..] == names[i + 1..];
      if names[i] !in r.queryParameters {
        return Err(QueryParameterNotAllowed(names[i]));
      }
      if !QueryValueMatches(r.queryParameters[names[i]], provided[names[i]]) {
        return Err(InvalidQueryParameter(names[i]));
      }
      if i > 0 {
        resolved := resolved + "&";
      }
      ghost var part := names[i] + "=" + provided[names[i]];
      Appended(parts, part, '&');
      WithPartsStep(parts, part, ResolveQueryParts(names[i + 1..], r.queryParameters, provided));
      resolved := resolved + (names[i] + "=" + provided[names[i]]);
      parts := parts + [part];
    }
    assert parts + [] == parts;
    return Ok(resolved);
  }

  method ResolveRoute(s: Snapshot, id: string, verb: string, ps: Pairs, qs: Pairs)
    returns (res: Result<Resolved, PolicyError>)
    requires forall k | k in s.routes :: Constrained(s.routes[k].upstreamPath, s.routes[k].pathParameters)
    ensures res == Resolve(s, id, verb, ps, qs)
  {
    if id !in s.routes {
      return Err(UnknownRoute(id));
    }
    var r := s.routes[id];
    if verb !in r.methods {
      return Err(MethodNotAllowed(id, verb));
    }
    var providedPath := CollectUniqueParameters(ps, true);
    if providedPath.Err? {
      return Err(providedPath.error);
    }
    var path := ResolvePathText(r, providedPath.value);
    if path.Err? {
      return Err(path.error);
    }
    var providedQuery := CollectUniqueParameters(qs, false);
    if providedQuery.Err? {
      return Err(providedQuery.error);
    }
    var query := ResolveQueryText(r, providedQuery.value);
    if query.Err? {
      return Err(query.error);
    }
    return Ok(Resolved(r.id, verb, r.origin, WithQuery(path.value, query.value), r.requestHeaders, r.responseHeaders));
  }
}
