/** What validation and resolution accept, down to the characters, and what they make of it. */
module Acceptance {
  import opened Text
  import opened Policy
  import opened Alphabets
  import opened Template
  import opened Validation
  import opened Snapshots
  import opened Resolution
  import Matching

  // ---- definitions ---------------------------------------------------------------------------------

  /** `t` is how a template over exactly `names` is written: slash, part, slash, part, and so on. */
  ghost predicate Writes(t: string, names: set<string>, segments: seq<Segment>) {
    IsTemplate(segments, names) && Render(segments) == t
  }

  /** A definition validates exactly under these conditions; the origin and the allowlists come out in lower case. */
  lemma ValidateAccepts(d: Definition)
    ensures Validate(d).Ok? <==>
            && 1 <= |d.id| <= 128 && Over(d.id, UPPER + LOWER + DIGITS + "._-")
            && d.methods != [] && (forall m | m in d.methods :: m == "GET" || m == "HEAD")
            && (exists segments :: segments != [] && Writes(d.browserPath, d.pathParameters.Keys, segments))
            && Lower(d.upstream.scheme) == "https" && IsLogicalHost(d.upstream.host) && d.upstream.port != 0
            && !d.upstream.followRedirects
            && (exists segments :: Writes(d.upstream.pathTemplate, d.pathParameters.Keys, segments))
            && (forall n | n in d.queryParameters ::
                  IsParameterName(n) && d.queryParameters[n] != QueryConstraint.AsciiToken(0))
            && (forall h | h in d.requestHeaders :: IsHeaderName(Lower(h)) && !IsForbiddenHeader(Lower(h), true))
            && (forall h | h in d.responseHeaders :: IsHeaderName(Lower(h)) && !IsForbiddenHeader(Lower(h), false))
    ensures Validate(d).Ok? ==>
            var r := Validate(d).value;
            && r.id == d.id && r.browserPath == d.browserPath && r.methods == (set m | m in d.methods)
            && r.origin == Origin("https", Lower(d.upstream.host), d.upstream.port)
            && Writes(d.browserPath, d.pathParameters.Keys, r.browserSegments)
            && Writes(d.upstream.pathTemplate, d.pathParameters.Keys, r.upstreamPath)
            && r.pathParameters == d.pathParameters && r.queryParameters == d.queryParameters
            && r.requestHeaders == (set h | h in d.requestHeaders :: Lower(h))
            && r.responseHeaders == (set h | h in d.responseHeaders :: Lower(h))
  {
    ValidateParts(d);
    RouteIdExactly(d.id);
    ValidateMethodsExact(d.methods);
    TemplateAccepted(d.browserPath, d.pathParameters, true);
    TemplateAccepted(d.upstream.pathTemplate, d.pathParameters, false);
    QueryPolicyExact(d.queryParameters);
    ValidateHeadersExact(d.requestHeaders, true);
    ValidateHeadersExact(d.responseHeaders, false);
  }

  lemma TemplateAccepted(t: string, constraints: map<string, PathConstraint>, browserPath: bool)
    ensures ParseTemplate(t, constraints, browserPath).Ok? <==>
            exists segments :: (browserPath ==> segments != []) && Writes(t, constraints.Keys, segments)
    ensures ParseTemplate(t, constraints, browserPath).Ok? ==>
            Writes(t, constraints.Keys, ParseTemplate(t, constraints, browserPath).value)
  {
    var r := ParseTemplate(t, constraints, browserPath);
    if r.Ok? {
      ParseTemplateExact(t, constraints, browserPath, r.value);
      assert (browserPath ==> r.value != []) && Writes(t, constraints.Keys, r.value);
    }
    if segments :| (browserPath ==> segments != []) && Writes(t, constraints.Keys, segments) {
      ParseTemplateExact(t, constraints, browserPath, segments);
    }
  }

  // ---- requests ------------------------------------------------------------------------------------

  /** A list of pairs gives every name at most one value. */
  ghost predicate NoNameTwice(ps: Pairs) {
    forall i, j | 0 <= i < |ps| && 0 <= j < |ps| && ps[i].0 == ps[j].0 :: i == j
  }

  ghost predicate Supplies(ps: Pairs, name: string) {
    exists i :: 0 <= i < |ps| && ps[i].0 == name
  }

  /** Every parameter is supplied, with a UUID, and nothing else is. */
  ghost predicate PathGiven(constraints: map<string, PathConstraint>, ps: Pairs) {
    && (forall n | n in constraints :: Supplies(ps, n))
    && (forall i | 0 <= i < |ps| :: ps[i].0 in constraints && IsUuidText(ps[i].1))
  }

  ghost predicate QueryValueText(c: QueryConstraint, v: string) {
    match c
    case Uuid => IsUuidText(v)
    case AsciiToken(maxLen) => 1 <= |v| <= maxLen && Over(v, UPPER + LOWER + DIGITS + "-._~")
  }

  /**
   * A request resolves exactly when its route is there and allows the method, each parameter of the path is
   * supplied once with a UUID and no other is, and each query parameter supplied is allowed, given once, and a
   * text of its kind.
   */
  lemma ResolvesExactly(s: Snapshot, id: string, verb: string, ps: Pairs, qs: Pairs)
    requires ValidSnapshot(s)
    ensures forall k | k in s.routes :: Constrained(s.routes[k].upstreamPath, s.routes[k].pathParameters)
    ensures Resolve(s, id, verb, ps, qs).Ok? <==>
            && id in s.routes && verb in s.routes[id].methods
            && NoNameTwice(ps) && NoNameTwice(qs)
            && PathGiven(s.routes[id].pathParameters, ps)
            && (forall i | 0 <= i < |qs| ::
                  && qs[i].0 in s.routes[id].queryParameters
                  && QueryValueText(s.routes[id].queryParameters[qs[i].0], qs[i].1))
  {
    ResolveExact(s, id, verb, ps, qs);
    assert NoNameTwice(ps) <==> UniqueNames(ps);
    assert NoNameTwice(qs) <==> UniqueNames(qs);
    if id in s.routes && UniqueNames(ps) && UniqueNames(qs) {
      if Matching.IsBinding(s.routes[id].pathParameters, AsMap(ps)) {
        BindingGiven(s.routes[id].pathParameters, ps);
      }
      if PathGiven(s.routes[id].pathParameters, ps) {
        GivenBinding(s.routes[id].pathParameters, ps);
      }
      QuerySupplied(s.routes[id], qs);
    }
  }

  lemma SuppliedMap(ps: Pairs)
    requires UniqueNames(ps)
    ensures forall i | 0 <= i < |ps| :: ps[i].0 in AsMap(ps) && AsMap(ps)[ps[i].0] == ps[i].1
    ensures forall n :: n in AsMap(ps) <==> Supplies(ps, n)
  {
    forall i | 0 <= i < |ps| ensures ps[i].0 in AsMap(ps) && AsMap(ps)[ps[i].0] == ps[i].1 {
      AsMapEntry(ps, i);
    }
    forall n ensures n in AsMap(ps) <==> Supplies(ps, n) {
      AsMapKeys(ps, n);
    }
  }

  lemma BindingGiven(constraints: map<string, PathConstraint>, ps: Pairs)
    requires UniqueNames(ps) && Matching.IsBinding(constraints, AsMap(ps))
    ensures PathGiven(constraints, ps)
  {
    SuppliedMap(ps);
    var b := AsMap(ps);
    forall i | 0 <= i < |ps| ensures ps[i].0 in constraints && IsUuidText(ps[i].1) {
      assert ps[i].0 in b.Keys;
      UuidExactly(ps[i].1);
    }
    forall n | n in constraints ensures Supplies(ps, n) {
      assert n in b.Keys;
    }
  }

  lemma GivenBinding(constraints: map<string, PathConstraint>, ps: Pairs)
    requires UniqueNames(ps) && PathGiven(constraints, ps)
    ensures Matching.IsBinding(constraints, AsMap(ps))
  {
    SuppliedMap(ps);
    var b := AsMap(ps);
    forall n ensures n in b <==> n in constraints {
      if n in b {
        var i :| 0 <= i < |ps| && ps[i].0 == n;
      }
    }
    assert b.Keys == constraints.Keys;
    forall n | n in constraints ensures PathValueMatches(constraints[n], b[n]) {
      var i :| 0 <= i < |ps| && ps[i].0 == n;
      UuidExactly(ps[i].1);
    }
  }

  lemma QuerySupplied(r: Route, qs: Pairs)
    requires UniqueNames(qs)
    ensures QueryAllowed(r.queryParameters, AsMap(qs)) <==>
            forall i | 0 <= i < |qs| ::
              qs[i].0 in r.queryParameters && QueryValueText(r.queryParameters[qs[i].0], qs[i].1)
  {
    SuppliedMap(qs);
    forall c, v ensures QueryValueMatches(c, v) <==> QueryValueText(c, v) {
      QueryValueExactly(c, v);
    }
  }

  lemma QueryValueExactly(c: QueryConstraint, v: string)
    ensures QueryValueMatches(c, v) <==> QueryValueText(c, v)
  {
    match c
    case Uuid => UuidExactly(v);
    case AsciiToken(maxLen) => TokenExactly(maxLen, v);
  }
}
