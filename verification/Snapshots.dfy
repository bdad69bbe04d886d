/** Snapshots: compiling a list of definitions, and exactly which lists compile. */
module Snapshots {
  import opened Prelude
  import opened Text
  import opened Policy
  import opened Matching
  import Digest
  import Ordering
  import Validation

  datatype Snapshot = Snapshot(version: string, preimage: string, routes: map<string, Route>)

  type Routes = map<string, Route>

  /** `trim().is_empty()` */
  predicate IsBlank(version: string) {
    All(version, IsWhitespace)
  }

  function SharedMethod(a: Route, b: Route): Option<string> {
    var common := a.methods * b.methods;
    if common == {} then None else Some(Ordering.Least(common))
  }

  predicate Conflict(a: Route, b: Route) {
    SharedMethod(a, b).Some? && BrowserRoutesOverlap(a, b)
  }

  /** The first accepted route, in key order, that `r` is ambiguous with. */
  function FirstConflict(existing: seq<Route>, r: Route): (c: Option<PolicyError>)
    ensures c.None? <==> forall e | e in existing :: !Conflict(e, r)
  {
    if existing == [] then None
    else if Conflict(existing[0], r) then
      Some(AmbiguousBrowserRoute(r.browserPath, SharedMethod(existing[0], r).value, existing[0].id, r.id))
    else FirstConflict(existing[1..], r)
  }

  function AddRoute(routes: Routes, d: Definition): Result<Routes, PolicyError> {
    var r :- Validation.Validate(d);
    if r.id in routes then Err(DuplicateRouteId(r.id))
    else
      match FirstConflict(Digest.Values(routes), r)
      case Some(e) => Err(e)
      case None => Ok(routes[r.id := r])
  }

  function AddRoutes(routes: Routes, ds: seq<Definition>): Result<Routes, PolicyError>
    decreases |ds|
  {
    if ds == [] then Ok(routes)
    else
      var added :- AddRoute(routes, ds[0]);
      AddRoutes(added, ds[1..])
  }

  function Compile(version: string, ds: seq<Definition>): Result<Snapshot, PolicyError> {
    if IsBlank(version) then Err(EmptyVersion)
    else
      var routes :- AddRoutes(map[], ds);
      Ok(Snapshot(version, Digest.Canonical(version, routes), routes))
  }

  // ---- which definition lists compile ----------------------------------------

  ghost predicate Accepted(d: Definition) {
    Validation.Validate(d).Ok?
  }

  ghost function RouteOf(d: Definition): Route
    requires Accepted(d)
  {
    Validation.Validate(d).value
  }

  /** Two definitions can stand in one snapshot. */
  ghost predicate Compatible(d: Definition, e: Definition)
    requires Accepted(d) && Accepted(e)
  {
    d.id != e.id && !Conflict(RouteOf(d), RouteOf(e))
  }

  ghost predicate FitsInto(routes: Routes, d: Definition) {
    Accepted(d) && d.id !in routes && forall id | id in routes :: !Conflict(routes[id], RouteOf(d))
  }

  ghost predicate PairwiseCompatible(ds: seq<Definition>) {
    forall i, j | 0 <= i < j < |ds| && Accepted(ds[i]) && Accepted(ds[j]) :: Compatible(ds[i], ds[j])
  }

  lemma ConflictSymmetric(a: Route, b: Route)
    ensures Conflict(a, b) == Conflict(b, a)
  {
    assert a.methods * b.methods == b.methods * a.methods;
    OverlapSymmetric(a, b);
  }

  lemma ValuesMembers(routes: Routes)
    ensures forall r :: r in Digest.Values(routes) <==> exists id :: id in routes && routes[id] == r
  {
    var rs := Digest.Values(routes);
    forall id | id in routes ensures routes[id] in rs {
      var i :| 0 <= i < |Digest.Keys(routes)| && Digest.Keys(routes)[i] == id;
      assert rs[i] == routes[id];
    }
    forall r | r in rs ensures exists id :: id in routes && routes[id] == r {
      var i :| 0 <= i < |rs| && rs[i] == r;
      assert Digest.Keys(routes)[i] in routes;
    }
  }

  lemma AddRouteExact(routes: Routes, d: Definition)
    ensures AddRoute(routes, d).Ok? <==> FitsInto(routes, d)
    ensures AddRoute(routes, d).Ok? ==> AddRoute(routes, d).value == routes[d.id := RouteOf(d)]
  {
    if Accepted(d) {
      Validation.ValidateSound(d);
      ValuesMembers(routes);
    }
  }

  lemma FitsIntoExtended(routes: Routes, d: Definition, e: Definition)
    requires FitsInto(routes, d)
    ensures FitsInto(routes[d.id := RouteOf(d)], e) <==> FitsInto(routes, e) && Compatible(d, e)
  {
    var more := routes[d.id := RouteOf(d)];
    if Accepted(e) && e.id !in more && (forall id | id in more :: !Conflict(more[id], RouteOf(e))) {
      assert more[d.id] == RouteOf(d);
      forall id | id in routes ensures !Conflict(routes[id], RouteOf(e)) {
        assert id in more && more[id] == routes[id];
      }
    }
  }

  lemma {:induction false} AddRoutesExact(routes: Routes, ds: seq<Definition>)
    ensures AddRoutes(routes, ds).Ok? <==>
            (forall i | 0 <= i < |ds| :: FitsInto(routes, ds[i])) && PairwiseCompatible(ds)
    decreases |ds|
  {
    if ds != [] {
      var d, rest := ds[0], ds[1..];
      AddRouteExact(routes, d);
      if FitsInto(routes, d) {
        AddRoutesExact(routes[d.id := RouteOf(d)], rest);
        AllFitCons(routes, ds);
      } else {
        assert !FitsInto(routes, ds[0]);
      }
    }
  }

  lemma AllFitCons(routes: Routes, ds: seq<Definition>)
    requires ds != [] && FitsInto(routes, ds[0])
    ensures (forall i | 0 <= i < |ds| :: FitsInto(routes, ds[i])) && PairwiseCompatible(ds) <==>
            && (forall i | 0 <= i < |ds[1..]| :: FitsInto(routes[ds[0].id := RouteOf(ds[0])], ds[1..][i]))
            && PairwiseCompatible(ds[1..])
  {
    var d, rest := ds[0], ds[1..];
    var more := routes[d.id := RouteOf(d)];
    forall i | 0 < i < |ds| ensures FitsInto(more, rest[i - 1]) <==> FitsInto(routes, ds[i]) && Compatible(d, ds[i]) {
      FitsIntoExtended(routes, d, ds[i]);
    }
    if (forall i | 0 <= i < |ds| :: FitsInto(routes, ds[i])) && PairwiseCompatible(ds) {
      PairwiseCons(ds);
      forall i | 0 <= i < |rest| ensures FitsInto(more, rest[i]) {
        assert FitsInto(routes, ds[i + 1]) && Compatible(d, ds[i + 1]);
      }
    }
    if (forall i | 0 <= i < |rest| :: FitsInto(more, rest[i])) && PairwiseCompatible(rest) {
      forall i | 0 <= i < |ds| ensures FitsInto(routes, ds[i]) && (i > 0 ==> Compatible(d, ds[i])) {
        assert i > 0 ==> FitsInto(more, rest[i - 1]);
      }
      PairwiseCons(ds);
    }
  }

  lemma PairwiseCons(ds: seq<Definition>)
    requires ds != [] && forall i | 0 <= i < |ds| :: Accepted(ds[i])
    ensures PairwiseCompatible(ds) <==>
            PairwiseCompatible(ds[1..]) && forall i | 0 < i < |ds| :: Compatible(ds[0], ds[i])
  {
    var rest := ds[1..];
    assert forall i | 0 <= i < |rest| :: rest[i] == ds[i + 1];
    if PairwiseCompatible(rest) && forall i | 0 < i < |ds| :: Compatible(ds[0], ds[i]) {
      forall i, j | 0 <= i < j < |ds| ensures Compatible(ds[i], ds[j]) {
        if i > 0 {
          assert Compatible(rest[i - 1], rest[j - 1]);
        }
      }
    }
    if PairwiseCompatible(ds) {
      forall i, j | 0 <= i < j < |rest| ensures Compatible(rest[i], rest[j]) {
        assert Compatible(ds[i + 1], ds[j + 1]);
      }
    }
  }

  /** `out` is `routes` plus one entry per definition, and nothing else. */
  ghost predicate IsCollected(routes: Routes, ds: seq<Definition>, out: Routes) {
    && (forall id | id in routes :: id in out && out[id] == routes[id])
    && (forall i | 0 <= i < |ds| :: Accepted(ds[i]) && ds[i].id in out && out[ds[i].id] == RouteOf(ds[i]))
    && (forall id | id in out :: id in routes || exists i :: 0 <= i < |ds| && ds[i].id == id)
  }

  lemma {:induction false} AddRoutesCollects(routes: Routes, ds: seq<Definition>)
    requires AddRoutes(routes, ds).Ok?
    ensures IsCollected(routes, ds, AddRoutes(routes, ds).value)
    decreases |ds|
  {
    if ds != [] {
      var d, rest := ds[0], ds[1..];
      AddRouteExact(routes, d);
      var more := routes[d.id := RouteOf(d)];
      AddRoutesCollects(more, rest);
      var out := AddRoutes(more, rest).value;
      assert more[d.id] == RouteOf(d) && d.id in out;
      forall i | 0 <= i < |ds|
        ensures Accepted(ds[i]) && ds[i].id in out && out[ds[i].id] == RouteOf(ds[i])
      {
        assert i > 0 ==> ds[i] == rest[i - 1];
      }
      forall id | id in out ensures id in routes || exists i :: 0 <= i < |ds| && ds[i].id == id {
        if id !in more {
          var i :| 0 <= i < |rest| && rest[i].id == id;
          assert ds[i + 1].id == id;
        } else if id !in routes {
          assert ds[0].id == id;
        }
      }
    }
  }

  /** What every accepted definition keeps: keys are ids, routes are valid, no two are ambiguous. */
  ghost predicate Coherent(routes: Routes) {
    && Digest.KeyedById(routes)
    && forall a, b | a in routes && b in routes && a != b :: !Conflict(routes[a], routes[b])
  }

  lemma MoreCoherent(routes: Routes, r: Route)
    requires Coherent(routes) && ValidRoute(r) && r.id !in routes
    requires forall id | id in routes :: !Conflict(routes[id], r)
    ensures Coherent(routes[r.id := r])
  {
    var more := routes[r.id := r];
    forall a, b | a in more && b in more && a != b ensures !Conflict(more[a], more[b]) {
      if a == r.id {
        ConflictSymmetric(more[b], r);
      }
    }
  }

  lemma AddRouteCoherent(routes: Routes, d: Definition)
    requires Coherent(routes) && FitsInto(routes, d)
    ensures Coherent(routes[d.id := RouteOf(d)])
  {
    Validation.ValidateSound(d);
    MoreCoherent(routes, RouteOf(d));
  }

  lemma {:induction false} AddRoutesCoherent(routes: Routes, ds: seq<Definition>)
    requires Coherent(routes) && AddRoutes(routes, ds).Ok?
    ensures Coherent(AddRoutes(routes, ds).value)
    decreases |ds|
  {
    if ds != [] {
      AddRouteExact(routes, ds[0]);
      AddRouteCoherent(routes, ds[0]);
      AddRoutesCoherent(routes[ds[0].id := RouteOf(ds[0])], ds[1..]);
    }
  }

  /** A list of definitions compiles exactly when the version is not blank, each one validates and all fit together. */
  ghost predicate Compiles(version: string, ds: seq<Definition>) {
    && !IsBlank(version)
    && (forall i | 0 <= i < |ds| :: Accepted(ds[i]))
    && PairwiseCompatible(ds)
  }

  /** The snapshot maps each definition's id to its validated route, and nothing else. */
  ghost predicate Represents(s: Snapshot, version: string, ds: seq<Definition>) {
    && s.version == version
    && s.preimage == Digest.Canonical(version, s.routes)
    && IsCollected(map[], ds, s.routes)
  }

  lemma CompileExact(version: string, ds: seq<Definition>)
    ensures Compile(version, ds).Ok? <==> Compiles(version, ds)
    ensures Compiles(version, ds) ==> Represents(Compile(version, ds).value, version, ds)
  {
    AddRoutesExact(map[], ds);
    assert forall i | 0 <= i < |ds| :: FitsInto(map[], ds[i]) <==> Accepted(ds[i]);
    if Compiles(version, ds) {
      AddRoutesCollects(map[], ds);
    }
  }

  // ---- order independence ------------------------------------------------------

  /** The same condition without positions: no definition twice, and distinct ones compatible. */
  ghost predicate FitTogether(ds: multiset<Definition>) {
    && (forall d | d in ds :: Accepted(d) && ds[d] == 1)
    && (forall d, e | d in ds && e in ds && d != e :: Compatible(d, e))
  }

  lemma PositionsDoNotMatter(ds: seq<Definition>)
    ensures FitTogether(multiset(ds)) <==>
            (forall i | 0 <= i < |ds| :: Accepted(ds[i])) && PairwiseCompatible(ds)
  {
    var m := multiset(ds);
    if FitTogether(m) {
      forall i | 0 <= i < |ds| ensures Accepted(ds[i]) {
        assert ds[i] in m;
      }
      forall i, j | 0 <= i < j < |ds| ensures Compatible(ds[i], ds[j]) {
        assert ds[i] in m && ds[j] in m;
        Occurrences(ds, ds[i]);
      }
    }
    if (forall i | 0 <= i < |ds| :: Accepted(ds[i])) && PairwiseCompatible(ds) {
      forall d | d in m ensures Accepted(d) && m[d] == 1 {
        var i :| 0 <= i < |ds| && ds[i] == d;
        Occurrences(ds, d);
        assert forall i, j | 0 <= i < j < |ds| :: ds[i].id != ds[j].id;
      }
      forall d, e | d in m && e in m && d != e ensures Compatible(d, e) {
        var i :| 0 <= i < |ds| && ds[i] == d;
        var j :| 0 <= j < |ds| && ds[j] == e;
        if i < j {
          assert Compatible(ds[i], ds[j]);
        } else {
          assert Compatible(ds[j], ds[i]);
          ConflictSymmetric(RouteOf(d), RouteOf(e));
        }
      }
    }
  }

  /** Reordering the definitions changes neither acceptance, nor the routes, nor the digest preimage. */
  lemma CompileIgnoresOrder(version: string, ds: seq<Definition>, es: seq<Definition>)
    requires multiset(ds) == multiset(es)
    ensures Compile(version, ds).Ok? <==> Compile(version, es).Ok?
    ensures Compile(version, ds).Ok? ==> Compile(version, ds) == Compile(version, es)
  {
    CompileExact(version, ds);
    CompileExact(version, es);
    PositionsDoNotMatter(ds);
    PositionsDoNotMatter(es);
    if Compile(version, ds).Ok? {
      SameSnapshot(Compile(version, ds).value, Compile(version, es).value, version, ds, es);
    }
  }

  lemma SameSnapshot(s: Snapshot, t: Snapshot, version: string, ds: seq<Definition>, es: seq<Definition>)
    requires multiset(ds) == multiset(es)
    requires Represents(s, version, ds) && Represents(t, version, es)
    ensures s == t
  {
    CollectedWithin(ds, es, s.routes, t.routes);
    CollectedWithin(es, ds, t.routes, s.routes);
    assert s.routes == t.routes;
  }

  lemma CollectedWithin(ds: seq<Definition>, es: seq<Definition>, a: Routes, b: Routes)
    requires multiset(ds) == multiset(es)
    requires IsCollected(map[], ds, a) && IsCollected(map[], es, b)
    ensures forall id | id in a :: id in b && a[id] == b[id]
  {
    forall id | id in a ensures id in b && a[id] == b[id] {
      var i :| 0 <= i < |ds| && ds[i].id == id;
      assert ds[i] in multiset(es);
      var j :| 0 <= j < |es| && es[j] == ds[i];
    }
  }

  // ---- the invariant of an accepted snapshot --------------------------------------

  ghost predicate ValidSnapshot(s: Snapshot) {
    && !IsBlank(s.version)
    && s.preimage == Digest.Canonical(s.version, s.routes)
    && Coherent(s.routes)
  }

  lemma CompileValid(version: string, ds: seq<Definition>)
    requires Compile(version, ds).Ok?
    ensures ValidSnapshot(Compile(version, ds).value)
  {
    AddRoutesCoherent(map[], ds);
  }

  /** The pairwise test is exact: routes in conflict are those that share a method and a concrete path. */
  lemma ConflictExact(a: Route, b: Route)
    requires ValidRoute(a) && ValidRoute(b)
    ensures Conflict(a, b) <==>
            exists verb, path :: verb in a.methods && verb in b.methods && MatchesPath(a, path) && MatchesPath(b, path)
  {
    OverlapExact(a, b);
    if Conflict(a, b) {
      var verb := SharedMethod(a, b).value;
      var path :| MatchesPath(a, path) && MatchesPath(b, path);
      assert verb in a.methods && verb in b.methods;
    }
    if verb, path :| verb in a.methods && verb in b.methods && MatchesPath(a, path) && MatchesPath(b, path) {
      assert verb in a.methods * b.methods;
    }
  }

  /** In a valid snapshot a method and a concrete browser path select at most one route. */
  lemma AtMostOneRoute(s: Snapshot, verb: string, path: string, a: string, b: string)
    requires ValidSnapshot(s) && a in s.routes && b in s.routes
    requires verb in s.routes[a].methods && MatchesPath(s.routes[a], path)
    requires verb in s.routes[b].methods && MatchesPath(s.routes[b], path)
    ensures a == b
  {
    if a != b {
      ConflictExact(s.routes[a], s.routes[b]);
    }
  }

  /** Equal digest preimages mean equal policies. */
  lemma PreimageIdentifiesSnapshot(s: Snapshot, t: Snapshot)
    requires ValidSnapshot(s) && ValidSnapshot(t) && s.preimage == t.preimage
    ensures s == t
  {
    Digest.CanonicalInjective(s.version, s.routes, t.version, t.routes);
  }

  // ---- the loops of the source ---------------------------------------------

  method TryNew(version: string, ds: seq<Definition>) returns (r: Result<Snapshot, PolicyError>)
    ensures r == Compile(version, ds)
  {
    if IsBlank(version) {
      return Err(EmptyVersion);
    }
    var routes: Routes := map[];
    for i := 0 to |ds|
      invariant AddRoutes(map[], ds) == AddRoutes(routes, ds[i..])
    {
      assert ds[i..][0] == ds[i] && ds[i..][1..] == ds[i + 1..];
      var validated := Validation.ValidateRoute(ds[i]);
      if validated.Err? {
        return Err(validated.error);
      }
      var candidate := validated.value;
      if candidate.id in routes {
        return Err(DuplicateRouteId(candidate.id));
      }
      var existing := Digest.Values(routes);
      for j := 0 to |existing|
        invariant FirstConflict(existing, candidate) == FirstConflict(existing[j..], candidate)
      {
        var common := SharedMethod(existing[j], candidate);
        if common.Some? && BrowserRoutesOverlap(existing[j], candidate) {
          return Err(AmbiguousBrowserRoute(candidate.browserPath, common.value, existing[j].id, candidate.id));
        }
      }
      routes := routes[candidate.id := candidate];
    }
    var canonical := Digest.PolicyDigest(version, routes);
    return Ok(Snapshot(version, canonical, routes));
  }
}
