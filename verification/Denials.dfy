/** What a rejected snapshot or request is told: the first fault in the order of the source, and its subject. */
module Denials {
  import opened Prelude
  import opened Text
  import opened Policy
  import opened Snapshots
  import opened Resolution
  import Digest
  import Ordering
  import Refusals
  import Validation

  // ---- snapshots ---------------------------------------------------------------------------------------

  /** The ids of the accepted routes that `r` is ambiguous with. */
  ghost function Rivals(routes: Routes, r: Route): set<string> {
    set id | id in routes && Conflict(routes[id], r)
  }

  /** What keeps a definition out of `routes`: its own fault, its id, or the least of the routes it conflicts with. */
  ghost predicate AdditionFault(routes: Routes, d: Definition, e: PolicyError) {
    || Refusals.DefinitionFault(d, e)
    || (Accepted(d) && d.id in routes && e == DuplicateRouteId(d.id))
    || (Accepted(d) && d.id !in routes && exists id, verb :: AmbiguityFault(routes, RouteOf(d), id, verb, e))
  }

  ghost predicate AmbiguityFault(routes: Routes, r: Route, id: string, verb: string, e: PolicyError) {
    && Ordering.IsLeast(id, Rivals(routes, r)) && id in routes
    && Ordering.IsLeast(verb, routes[id].methods * r.methods)
    && e == AmbiguousBrowserRoute(r.browserPath, verb, routes[id].id, r.id)
  }

  function RoutesAt(names: seq<string>, routes: Routes): (rs: seq<Route>)
    requires forall n | n in names :: n in routes
    ensures |rs| == |names| && forall i | 0 <= i < |names| :: rs[i] == routes[names[i]]
  {
    if names == [] then [] else [routes[names[0]]] + RoutesAt(names[1..], routes)
  }

  ghost predicate Ambiguity(rivals: set<string>, routes: Routes, r: Route, id: string, e: PolicyError) {
    && Ordering.IsLeast(id, rivals) && id in routes && SharedMethod(routes[id], r).Some?
    && e == AmbiguousBrowserRoute(r.browserPath, SharedMethod(routes[id], r).value, routes[id].id, r.id)
  }

  lemma {:induction false} FirstConflictFrom(names: seq<string>, routes: Routes, r: Route, e: PolicyError)
    requires Ordering.Ascending(names) && forall n | n in names :: n in routes
    ensures FirstConflict(RoutesAt(names, routes), r) == Some(e) <==>
            exists id :: Ambiguity(Ordering.Among(names, Rivals(routes, r)), routes, r, id, e)
  {
    if names != [] {
      Ordering.LeastComesFirst(names, Rivals(routes, r));
      if !Conflict(routes[names[0]], r) {
        FirstConflictFrom(names[1..], routes, r, e);
      } else {
        var rivals, first := Ordering.Among(names, Rivals(routes, r)), routes[names[0]];
        assert Ambiguity(rivals, routes, r, names[0], e) <==>
               e == AmbiguousBrowserRoute(r.browserPath, SharedMethod(first, r).value, first.id, r.id);
      }
    }
  }

  lemma AmbiguityExactly(routes: Routes, r: Route, id: string, e: PolicyError)
    ensures Ambiguity(Rivals(routes, r), routes, r, id, e) <==> exists verb :: AmbiguityFault(routes, r, id, verb, e)
  {
    if verb :| AmbiguityFault(routes, r, id, verb, e) {
      Ordering.LeastUnique(verb, SharedMethod(routes[id], r).value, routes[id].methods * r.methods);
    }
    if Ambiguity(Rivals(routes, r), routes, r, id, e) {
      assert AmbiguityFault(routes, r, id, SharedMethod(routes[id], r).value, e);
    }
  }

  lemma RivalsAmong(routes: Routes, r: Route)
    ensures Ordering.Ascending(Digest.Keys(routes))
    ensures RoutesAt(Digest.Keys(routes), routes) == Digest.Values(routes)
    ensures Ordering.Among(Digest.Keys(routes), Rivals(routes, r)) == Rivals(routes, r)
  {
    Ordering.SortedElements(routes.Keys);
  }

  lemma ConflictFound(routes: Routes, r: Route, e: PolicyError)
    ensures FirstConflict(Digest.Values(routes), r) == Some(e) <==>
            exists id, verb :: AmbiguityFault(routes, r, id, verb, e)
  {
    RivalsAmong(routes, r);
    FirstConflictFrom(Digest.Keys(routes), routes, r, e);
    if id :| Ambiguity(Rivals(routes, r), routes, r, id, e) {
      AmbiguityExactly(routes, r, id, e);
    }
    if id, verb :| AmbiguityFault(routes, r, id, verb, e) {
      AmbiguityExactly(routes, r, id, e);
    }
  }

  lemma AdditionRefused(routes: Routes, d: Definition, e: PolicyError)
    ensures AddRoute(routes, d) == Err(e) <==> AdditionFault(routes, d, e)
  {
    Refusals.DefinitionRefused(d, e);
    if Accepted(d) {
      Validation.ValidateSound(d);
      ConflictFound(routes, RouteOf(d), e);
    }
  }

  /** The first definition that cannot join those before it. */
  ghost predicate FaultAt(routes: Routes, ds: seq<Definition>, i: nat, e: PolicyError) {
    && i < |ds| && AddRoutes(routes, ds[..i]).Ok?
    && AdditionFault(AddRoutes(routes, ds[..i]).value, ds[i], e)
  }

  lemma FaultAtCons(routes: Routes, ds: seq<Definition>, i: nat, e: PolicyError)
    requires ds != []
    ensures FaultAt(routes, ds, i + 1, e) <==>
            AddRoute(routes, ds[0]).Ok? && FaultAt(AddRoute(routes, ds[0]).value, ds[1..], i, e)
  {
    if i + 1 < |ds| {
      assert ds[..i + 1][0] == ds[0] && ds[..i + 1][1..] == ds[1..][..i] && ds[i + 1] == ds[1..][i];
    }
  }

  lemma {:induction false} AdditionsRefused(routes: Routes, ds: seq<Definition>, e: PolicyError)
    ensures AddRoutes(routes, ds) == Err(e) <==> exists i :: FaultAt(routes, ds, i, e)
    decreases |ds|
  {
    if ds != [] {
      AdditionRefused(routes, ds[0], e);
      assert FaultAt(routes, ds, 0, e) <==> AddRoute(routes, ds[0]) == Err(e);
      var added := AddRoute(routes, ds[0]);
      if added.Ok? {
        AdditionsRefused(added.value, ds[1..], e);
        if i: nat :| FaultAt(added.value, ds[1..], i, e) {
          FaultAtCons(routes, ds, i, e);
        }
      }
      if i: nat :| FaultAt(routes, ds, i, e) {
        if i > 0 {
          FaultAtCons(routes, ds, i - 1, e);
        }
      }
    }
  }

  lemma BlankExactly(version: string)
    ensures IsBlank(version) <==> forall c | c in version :: IsWhitespace(c)
  {
    if IsBlank(version) {
      forall c | c in version ensures IsWhitespace(c) {
        var i :| 0 <= i < |version| && version[i] == c;
      }
    }
    if forall c | c in version :: IsWhitespace(c) {
      forall i | 0 <= i < |version| ensures IsWhitespace(version[i]) {
        assert version[i] in version;
      }
    }
  }

  /** The first definition that cannot join the snapshot of those before it. */
  ghost predicate SnapshotFault(version: string, ds: seq<Definition>, i: nat, e: PolicyError) {
    && i < |ds| && Compile(version, ds[..i]).Ok?
    && AdditionFault(Compile(version, ds[..i]).value.routes, ds[i], e)
  }

  lemma SnapshotFaultExactly(version: string, ds: seq<Definition>, i: nat, e: PolicyError)
    requires !IsBlank(version)
    ensures SnapshotFault(version, ds, i, e) <==> FaultAt(map[], ds, i, e)
  {
  }

  /**
   * A snapshot is refused for a blank version, or else for the first definition that cannot join the routes of
   * those before it, with that definition's fault.
   */
  lemma CompileRefused(version: string, ds: seq<Definition>, e: PolicyError)
    ensures Compile(version, ds) == Err(e) <==>
            var blank := forall c | c in version :: IsWhitespace(c);
            || (blank && e == EmptyVersion)
            || (!blank && exists i :: SnapshotFault(version, ds, i, e))
  {
    BlankExactly(version);
    AdditionsRefused(map[], ds, e);
    if !IsBlank(version) {
      if i: nat :| FaultAt(map[], ds, i, e) {
        SnapshotFaultExactly(version, ds, i, e);
      }
      if i: nat :| SnapshotFault(version, ds, i, e) {
        SnapshotFaultExactly(version, ds, i, e);
      }
    }
  }

  // ---- requests ------------------------------------------------------------------------------------------

  /** The first pair whose name an earlier one has. */
  ghost predicate RepeatedAt(m: map<string, string>, ps: Pairs, i: nat, path: bool) {
    && i < |ps| && CollectFrom(m, ps[..i], path).Ok?
    && ps[i].0 in CollectFrom(m, ps[..i], path).value
  }

  lemma RepeatedAtCons(m: map<string, string>, ps: Pairs, i: nat, path: bool)
    requires ps != [] && ps[0].0 !in m
    ensures RepeatedAt(m, ps, i + 1, path) <==> RepeatedAt(m[ps[0].0 := ps[0].1], ps[1..], i, path)
  {
    if i + 1 < |ps| {
      assert ps[..i + 1][0] == ps[0] && ps[..i + 1][1..] == ps[1..][..i] && ps[i + 1] == ps[1..][i];
    }
  }

  function Duplicate(path: bool, name: string): PolicyError {
    if path then DuplicatePathParameter(name) else DuplicateQueryParameter(name)
  }

  lemma {:induction false} CollectRefused(m: map<string, string>, ps: Pairs, path: bool, e: PolicyError)
    ensures CollectFrom(m, ps, path) == Err(e) <==>
            exists i: nat :: RepeatedAt(m, ps, i, path) && e == Duplicate(path, ps[i].0)
    decreases |ps|
  {
    if ps != [] {
      if ps[0].0 in m {
        assert RepeatedAt(m, ps, 0, path);
        if i: nat :| RepeatedAt(m, ps, i, path) && i > 0 {
          assert false;
        }
      } else {
        var more := m[ps[0].0 := ps[0].1];
        CollectRefused(more, ps[1..], path, e);
        if i: nat :| RepeatedAt(more, ps[1..], i, path) && e == Duplicate(path, ps[1..][i].0) {
          RepeatedAtCons(m, ps, i, path);
          assert RepeatedAt(m, ps, i + 1, path) && ps[i + 1] == ps[1..][i];
        }
        if i: nat :| RepeatedAt(m, ps, i, path) && e == Duplicate(path, ps[i].0) {
          assert i > 0;
          RepeatedAtCons(m, ps, i - 1, path);
          assert ps[i] == ps[1..][i - 1];
        }
      }
    }
  }

  /** Names before the i-th pair are given once; the i-th repeats one of them. */
  ghost predicate Repeats(ps: Pairs, i: nat) {
    && i < |ps| && UniqueNames(ps[..i])
    && exists j :: 0 <= j < i && ps[j].0 == ps[i].0
  }

  lemma RepeatsExactly(ps: Pairs, i: nat, path: bool)
    ensures RepeatedAt(map[], ps, i, path) <==> Repeats(ps, i)
  {
    if i < |ps| {
      CollectFromExact(map[], ps[..i], path);
      AsMapKeys(ps[..i], ps[i].0);
      assert map[] + AsMap(ps[..i]) == AsMap(ps[..i]);
      if j :| 0 <= j < i && ps[j].0 == ps[i].0 {
        assert ps[..i][j].0 == ps[i].0;
      }
    }
  }

  lemma DuplicateRefused(ps: Pairs, path: bool, e: PolicyError)
    ensures CollectFrom(map[], ps, path) == Err(e) <==>
            exists i: nat :: Repeats(ps, i)
              && e == if path then DuplicatePathParameter(ps[i].0) else DuplicateQueryParameter(ps[i].0)
  {
    CollectRefused(map[], ps, path, e);
    forall i: nat ensures RepeatedAt(map[], ps, i, path) <==> Repeats(ps, i) {
      RepeatsExactly(ps, i, path);
    }
  }

  lemma {:induction false} UndeclaredFrom(
      names: seq<string>, declared: map<string, PathConstraint>, undeclared: set<string>, e: PolicyError)
    requires Ordering.Ascending(names) && forall n | n in names :: n in undeclared <==> n !in declared
    ensures CheckDeclared(names, declared) == Err(e) <==>
            exists n :: Ordering.IsLeast(n, Ordering.Among(names, undeclared)) && e == UnexpectedPathParameter(n)
  {
    if names != [] {
      Ordering.LeastComesFirst(names, undeclared);
      if names[0] in declared {
        UndeclaredFrom(names[1..], declared, undeclared, e);
      } else {
        assert Ordering.IsLeast(names[0], Ordering.Among(names, undeclared));
      }
    }
  }

  /** A segment of the upstream path whose value is there and of its kind. */
  predicate Filled(s: Segment, constraints: map<string, PathConstraint>, provided: map<string, string>)
    requires s.Parameter? ==> s.name in constraints
  {
    s.Parameter? ==> s.name in provided && PathValueMatches(constraints[s.name], provided[s.name])
  }

  /** The first segment of the upstream path that cannot be filled. */
  ghost predicate SegmentFault(
      segments: seq<Segment>, i: nat, constraints: map<string, PathConstraint>, provided: map<string, string>,
      e: PolicyError)
    requires Constrained(segments, constraints)
  {
    && i < |segments| && segments[i].Parameter? && !Filled(segments[i], constraints, provided)
    && (forall j | 0 <= j < i :: Filled(segments[j], constraints, provided))
    && e == if segments[i].name in provided then InvalidPathParameter(segments[i].name)
            else MissingPathParameter(segments[i].name)
  }

  lemma SegmentFaultCons(
      segments: seq<Segment>, i: nat, constraints: map<string, PathConstraint>, provided: map<string, string>,
      e: PolicyError)
    requires Constrained(segments, constraints) && segments != []
    ensures Constrained(segments[1..], constraints)
    ensures SegmentFault(segments, i + 1, constraints, provided, e) <==>
            Filled(segments[0], constraints, provided) && SegmentFault(segments[1..], i, constraints, provided, e)
  {
    var rest := segments[1..];
    assert forall j | 0 <= j < |rest| :: rest[j] == segments[j + 1];
    if SegmentFault(rest, i, constraints, provided, e) && Filled(segments[0], constraints, provided) {
      forall j | 0 <= j < i + 1 ensures Filled(segments[j], constraints, provided) {
        assert j > 0 ==> segments[j] == rest[j - 1];
      }
    }
  }

  lemma {:induction false} SegmentsRefused(
      segments: seq<Segment>, constraints: map<string, PathConstraint>, provided: map<string, string>, e: PolicyError)
    requires Constrained(segments, constraints)
    ensures ResolveParts(segments, constraints, provided) == Err(e) <==>
            exists i :: SegmentFault(segments, i, constraints, provided, e)
  {
    if segments != [] {
      SegmentFaultCons(segments, 0, constraints, provided, e);
      SegmentsRefused(segments[1..], constraints, provided, e);
      assert SegmentFault(segments, 0, constraints, provided, e) <==>
             ResolvePart(segments[0], constraints, provided) == Err(e);
      if i: nat :| SegmentFault(segments[1..], i, constraints, provided, e) {
        SegmentFaultCons(segments, i, constraints, provided, e);
      }
      if i: nat :| SegmentFault(segments, i, constraints, provided, e) {
        if i > 0 {
          SegmentFaultCons(segments, i - 1, constraints, provided, e);
        }
      }
    }
  }

  ghost predicate PathFault(r: Route, ps: Pairs, e: PolicyError)
    requires Constrained(r.upstreamPath, r.pathParameters)
  {
    || (exists i: nat :: Repeats(ps, i) && e == DuplicatePathParameter(ps[i].0))
    || (&& UniqueNames(ps)
        && exists n :: Ordering.IsLeast(n, AsMap(ps).Keys - r.pathParameters.Keys) && e == UnexpectedPathParameter(n))
    || (&& UniqueNames(ps) && AsMap(ps).Keys <= r.pathParameters.Keys
        && exists i :: SegmentFault(r.upstreamPath, i, r.pathParameters, AsMap(ps), e))
  }

  lemma UndeclaredRefused(provided: map<string, string>, declared: map<string, PathConstraint>, e: PolicyError)
    ensures CheckDeclared(Digest.Keys(provided), declared) == Err(e) <==>
            exists n :: Ordering.IsLeast(n, provided.Keys - declared.Keys) && e == UnexpectedPathParameter(n)
    ensures CheckDeclared(Digest.Keys(provided), declared).Ok? <==> provided.Keys <= declared.Keys
  {
    Ordering.SortedElements(provided.Keys);
    UndeclaredFrom(Digest.Keys(provided), declared, provided.Keys - declared.Keys, e);
    CheckDeclaredExact(Digest.Keys(provided), declared);
    assert Ordering.Among(Digest.Keys(provided), provided.Keys - declared.Keys) == provided.Keys - declared.Keys;
  }

  lemma PathRefused(r: Route, ps: Pairs, e: PolicyError)
    requires Constrained(r.upstreamPath, r.pathParameters)
    ensures PathFault(r, ps, e) <==>
            var provided := CollectFrom(map[], ps, true);
            || provided == Err(e)
            || (provided.Ok? && ResolvePath(r, provided.value) == Err(e))
  {
    RequestExact(ps, []);
    DuplicateRefused(ps, true, e);
    if UniqueNames(ps) {
      UndeclaredRefused(AsMap(ps), r.pathParameters, e);
      SegmentsRefused(r.upstreamPath, r.pathParameters, AsMap(ps), e);
    }
  }

  ghost function Disallowed(allowed: map<string, QueryConstraint>, provided: map<string, string>): set<string> {
    set n | n in provided && !(n in allowed && QueryValueMatches(allowed[n], provided[n]))
  }

  /** The least query parameter that is not allowed, or not of its kind. */
  ghost predicate QueryPartFault(
      disallowed: set<string>, allowed: map<string, QueryConstraint>, e: PolicyError)
  {
    exists n :: Ordering.IsLeast(n, disallowed)
                && e == if n in allowed then InvalidQueryParameter(n) else QueryParameterNotAllowed(n)
  }

  lemma {:induction false} QueryPartsRefused(
      names: seq<string>, allowed: map<string, QueryConstraint>, provided: map<string, string>, e: PolicyError)
    requires Ordering.Ascending(names) && forall n | n in names :: n in provided
    ensures ResolveQueryParts(names, allowed, provided) == Err(e) <==>
            QueryPartFault(Ordering.Among(names, Disallowed(allowed, provided)), allowed, e)
  {
    if names != [] {
      Ordering.LeastComesFirst(names, Disallowed(allowed, provided));
      if names[0] !in Disallowed(allowed, provided) {
        QueryPartsRefused(names[1..], allowed, provided, e);
      } else {
        assert Ordering.IsLeast(names[0], Ordering.Among(names, Disallowed(allowed, provided)));
      }
    }
  }

  ghost predicate QueryFault(r: Route, qs: Pairs, e: PolicyError) {
    || (exists i: nat :: Repeats(qs, i) && e == DuplicateQueryParameter(qs[i].0))
    || (UniqueNames(qs) && QueryPartFault(Disallowed(r.queryParameters, AsMap(qs)), r.queryParameters, e))
  }

  lemma QueryRefused(r: Route, qs: Pairs, e: PolicyError)
    ensures QueryFault(r, qs, e) <==>
            var provided := CollectFrom(map[], qs, false);
            || provided == Err(e)
            || (provided.Ok? && ResolveQuery(r, provided.value) == Err(e))
  {
    RequestExact([], qs);
    DuplicateRefused(qs, false, e);
    if UniqueNames(qs) {
      var names := Digest.Keys(AsMap(qs));
      Ordering.SortedElements(AsMap(qs).Keys);
      QueryPartsRefused(names, r.queryParameters, AsMap(qs), e);
      var disallowed := Disallowed(r.queryParameters, AsMap(qs));
      assert Ordering.Among(names, disallowed) == disallowed;
    }
  }

  lemma PathFine(r: Route, ps: Pairs)
    requires Constrained(r.upstreamPath, r.pathParameters)
    ensures (forall f :: !PathFault(r, ps, f)) <==>
            CollectFrom(map[], ps, true).Ok? && ResolvePath(r, CollectFrom(map[], ps, true).value).Ok?
  {
    forall f ensures PathFault(r, ps, f) <==>
                     (|| CollectFrom(map[], ps, true) == Err(f)
                      || (CollectFrom(map[], ps, true).Ok?
                          && ResolvePath(r, CollectFrom(map[], ps, true).value) == Err(f))) {
      PathRefused(r, ps, f);
    }
  }

  /** The path is looked at first, and the query only when nothing is wrong with the path. */
  ghost predicate RouteFault(r: Route, ps: Pairs, qs: Pairs, e: PolicyError)
    requires Constrained(r.upstreamPath, r.pathParameters)
  {
    PathFault(r, ps, e) || ((forall f :: !PathFault(r, ps, f)) && QueryFault(r, qs, e))
  }

  lemma OnRouteRefused(r: Route, verb: string, ps: Pairs, qs: Pairs, e: PolicyError)
    requires Constrained(r.upstreamPath, r.pathParameters)
    ensures ResolveOn(r, verb, ps, qs) == Err(e) <==> RouteFault(r, ps, qs, e)
  {
    PathRefused(r, ps, e);
    QueryRefused(r, qs, e);
    PathFine(r, ps);
  }

  /** A request is refused with the first fault there is: the route, the method, the path, and then the query. */
  lemma RequestRefused(s: Snapshot, id: string, verb: string, ps: Pairs, qs: Pairs, e: PolicyError)
    requires forall k | k in s.routes :: Constrained(s.routes[k].upstreamPath, s.routes[k].pathParameters)
    ensures Resolve(s, id, verb, ps, qs) == Err(e) <==>
            || (id !in s.routes && e == UnknownRoute(id))
            || (id in s.routes && verb !in s.routes[id].methods && e == MethodNotAllowed(id, verb))
            || (id in s.routes && verb in s.routes[id].methods && RouteFault(s.routes[id], ps, qs, e))
  {
    if id in s.routes && verb in s.routes[id].methods {
      OnRouteRefused(s.routes[id], verb, ps, qs, e);
    }
  }
}
