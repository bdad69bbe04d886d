/** Concrete paths of a template, and the pairwise ambiguity test on browser routes. */
module Matching {
  import opened Text
  import opened Policy

  // ---- the test of the source -----------------------------------------------

  predicate PathConstraintsOverlap(a: PathConstraint, b: PathConstraint) {
    a.Uuid? && b.Uuid?
  }

  predicate SegmentsOverlap(first: Route, s: Segment, second: Route, t: Segment) {
    match (s, t)
    case (Static(x), Static(y)) => x == y
    case (Parameter(m), Parameter(n)) =>
      m in first.pathParameters && n in second.pathParameters
      && PathConstraintsOverlap(first.pathParameters[m], second.pathParameters[n])
    case (Static(x), Parameter(n)) =>
      n in second.pathParameters && PathValueMatches(second.pathParameters[n], x)
    case (Parameter(m), Static(y)) =>
      m in first.pathParameters && PathValueMatches(first.pathParameters[m], y)
  }

  predicate BrowserRoutesOverlap(first: Route, second: Route) {
    && |first.browserSegments| == |second.browserSegments|
    && forall i | 0 <= i < |first.browserSegments| ::
         SegmentsOverlap(first, first.browserSegments[i], second, second.browserSegments[i])
  }

  lemma OverlapSymmetric(a: Route, b: Route)
    ensures BrowserRoutesOverlap(a, b) == BrowserRoutesOverlap(b, a)
  {
    assert forall s, t :: SegmentsOverlap(a, s, b, t) == SegmentsOverlap(b, t, a, s);
  }

  // ---- filling a template ----------------------------------------------------

  ghost predicate IsBinding(constraints: map<string, PathConstraint>, b: map<string, string>) {
    b.Keys == constraints.Keys && forall n | n in constraints :: PathValueMatches(constraints[n], b[n])
  }

  predicate Binds(segments: seq<Segment>, b: map<string, string>) {
    forall i | 0 <= i < |segments| :: segments[i].Parameter? ==> segments[i].name in b
  }

  function FillPart(s: Segment, b: map<string, string>): string
    requires s.Parameter? ==> s.name in b
  {
    match s
    case Static(t) => t
    case Parameter(n) => b[n]
  }

  function FillParts(segments: seq<Segment>, b: map<string, string>): (parts: seq<string>)
    requires Binds(segments, b)
    ensures |parts| == |segments|
    ensures forall i | 0 <= i < |parts| :: parts[i] == FillPart(segments[i], b)
  {
    if segments == [] then [] else [FillPart(segments[0], b)] + FillParts(segments[1..], b)
  }

  function Fill(segments: seq<Segment>, b: map<string, string>): string
    requires Binds(segments, b)
  {
    PathText(FillParts(segments, b))
  }

  lemma TemplateBinds(segments: seq<Segment>, constraints: map<string, PathConstraint>, b: map<string, string>)
    requires IsTemplate(segments, constraints.Keys) && b.Keys == constraints.Keys
    ensures Binds(segments, b)
  {
    forall i | 0 <= i < |segments| && segments[i].Parameter? ensures segments[i].name in b {
      assert segments[i].name in ParametersOf(segments);
    }
  }

  /** A concrete browser path is served by a route when some binding fills its template to it. */
  ghost predicate MatchesPath(r: Route, path: string) {
    exists b :: IsBinding(r.pathParameters, b) && Binds(r.browserSegments, b) && Fill(r.browserSegments, b) == path
  }

  // ---- reading a path back ---------------------------------------------------

  function PathParts(path: string): seq<string> {
    if |path| <= 1 then [] else Split(path[1..], '/')
  }

  lemma PathPartsOfText(parts: seq<string>)
    requires forall i | 0 <= i < |parts| :: parts[i] != "" && '/' !in parts[i]
    ensures PathParts(PathText(parts)) == parts
  {
    if parts != [] {
      SplitJoin(parts, '/');
      assert PathText(parts)[1..] == Join(parts, '/');
      assert |parts[0]| > 0;
    }
  }

  predicate Accepts(constraints: map<string, PathConstraint>, s: Segment, part: string) {
    match s
    case Static(t) => t == part
    case Parameter(n) => n in constraints && PathValueMatches(constraints[n], part)
  }

  /** Position at which the template names `n`. */
  function PositionOf(segments: seq<Segment>, n: string): (i: nat)
    requires n in ParametersOf(segments)
    ensures i < |segments| && segments[i] == Parameter(n)
  {
    if segments[0] == Parameter(n) then 0
    else
      assert n in ParametersOf(segments[1..]) by {
        var i :| 0 <= i < |segments| && segments[i].Parameter? && segments[i].name == n;
        assert segments[1..][i - 1] == segments[i];
      }
      1 + PositionOf(segments[1..], n)
  }

  function BindingOf(segments: seq<Segment>, parts: seq<string>): map<string, string>
    requires |parts| == |segments|
  {
    map n | n in ParametersOf(segments) :: parts[PositionOf(segments, n)]
  }

  /** Segments that accept the parts one by one accept them together, under one binding. */
  lemma ReadBack(segments: seq<Segment>, constraints: map<string, PathConstraint>, parts: seq<string>)
    requires IsTemplate(segments, constraints.Keys) && |parts| == |segments|
    requires forall i | 0 <= i < |parts| :: Accepts(constraints, segments[i], parts[i])
    ensures IsBinding(constraints, BindingOf(segments, parts))
    ensures Binds(segments, BindingOf(segments, parts))
    ensures FillParts(segments, BindingOf(segments, parts)) == parts
  {
    var b := BindingOf(segments, parts);
    TemplateBinds(segments, constraints, b);
    forall n | n in constraints ensures PathValueMatches(constraints[n], b[n]) {
      assert Accepts(constraints, segments[PositionOf(segments, n)], b[n]);
    }
    forall i | 0 <= i < |parts| ensures FillParts(segments, b)[i] == parts[i] {
      if segments[i].Parameter? {
        var j := PositionOf(segments, segments[i].name);
        assert i == j;
      } else {
        assert Accepts(constraints, segments[i], parts[i]);
      }
    }
  }

  lemma FilledPart(constraints: map<string, PathConstraint>, b: map<string, string>, s: Segment)
    requires IsBinding(constraints, b) && IsSegment(s) && (s.Parameter? ==> s.name in b)
    ensures Accepts(constraints, s, FillPart(s, b))
    ensures IsStaticText(FillPart(s, b)) && '/' !in FillPart(s, b)
  {
    if s.Parameter? {
      UuidChars(b[s.name]);
    }
  }

  lemma BindingOfFilled(segments: seq<Segment>, b: map<string, string>)
    requires Binds(segments, b) && b.Keys == ParametersOf(segments)
    ensures BindingOf(segments, FillParts(segments, b)) == b
  {
    forall n | n in b ensures BindingOf(segments, FillParts(segments, b))[n] == b[n] {
      assert segments[PositionOf(segments, n)] == Parameter(n);
    }
  }

  /** Filling loses nothing: each part is acceptable and plain, and the binding can be recovered. */
  lemma FilledParts(segments: seq<Segment>, constraints: map<string, PathConstraint>, b: map<string, string>)
    requires IsTemplate(segments, constraints.Keys) && IsBinding(constraints, b)
    ensures Binds(segments, b)
    ensures forall i | 0 <= i < |segments| ::
              && Accepts(constraints, segments[i], FillParts(segments, b)[i])
              && IsStaticText(FillParts(segments, b)[i])
              && '/' !in FillParts(segments, b)[i]
    ensures BindingOf(segments, FillParts(segments, b)) == b
    ensures PathParts(Fill(segments, b)) == FillParts(segments, b)
  {
    TemplateBinds(segments, constraints, b);
    var parts := FillParts(segments, b);
    forall i | 0 <= i < |segments|
      ensures Accepts(constraints, segments[i], parts[i]) && IsStaticText(parts[i]) && '/' !in parts[i]
    {
      FilledPart(constraints, b, segments[i]);
    }
    BindingOfFilled(segments, b);
    PathPartsOfText(parts);
  }

  /** `path` is one of the route's paths exactly when its parts are accepted in turn. */
  lemma MatchesPathExact(r: Route, path: string)
    requires ValidRoute(r)
    ensures MatchesPath(r, path) <==>
            && PathText(PathParts(path)) == path
            && |PathParts(path)| == |r.browserSegments|
            && forall i | 0 <= i < |r.browserSegments| ::
                 Accepts(r.pathParameters, r.browserSegments[i], PathParts(path)[i])
  {
    if MatchesPath(r, path) {
      var b :| IsBinding(r.pathParameters, b) && Binds(r.browserSegments, b) && Fill(r.browserSegments, b) == path;
      FilledParts(r.browserSegments, r.pathParameters, b);
    }
    var parts := PathParts(path);
    if PathText(parts) == path && |parts| == |r.browserSegments|
      && forall i | 0 <= i < |r.browserSegments| :: Accepts(r.pathParameters, r.browserSegments[i], parts[i])
    {
      ReadBack(r.browserSegments, r.pathParameters, parts);
      assert Fill(r.browserSegments, BindingOf(r.browserSegments, parts)) == path;
    }
  }

  const NIL_UUID := "00000000-0000-0000-0000-000000000000"

  function CommonPart(s: Segment, t: Segment): string {
    if s.Static? then s.text else if t.Static? then t.text else NIL_UUID
  }

  /** Segments that overlap both accept the common part. */
  lemma CommonPartAccepted(a: Route, s: Segment, b: Route, t: Segment)
    requires SegmentsOverlap(a, s, b, t)
    ensures Accepts(a.pathParameters, s, CommonPart(s, t)) && Accepts(b.pathParameters, t, CommonPart(s, t))
  {
    assert IsCanonicalUuid(NIL_UUID);
  }

  lemma OverlapWitness(a: Route, b: Route)
    requires ValidRoute(a) && ValidRoute(b) && BrowserRoutesOverlap(a, b)
    ensures exists path :: MatchesPath(a, path) && MatchesPath(b, path)
  {
    var parts := seq(|a.browserSegments|, i requires 0 <= i < |a.browserSegments| =>
      CommonPart(a.browserSegments[i], b.browserSegments[i]));
    forall i | 0 <= i < |parts|
      ensures Accepts(a.pathParameters, a.browserSegments[i], parts[i])
      ensures Accepts(b.pathParameters, b.browserSegments[i], parts[i])
    {
      CommonPartAccepted(a, a.browserSegments[i], b, b.browserSegments[i]);
    }
    ReadBack(a.browserSegments, a.pathParameters, parts);
    ReadBack(b.browserSegments, b.pathParameters, parts);
    assert Fill(a.browserSegments, BindingOf(a.browserSegments, parts)) == PathText(parts);
    assert Fill(b.browserSegments, BindingOf(b.browserSegments, parts)) == PathText(parts);
    assert MatchesPath(a, PathText(parts)) && MatchesPath(b, PathText(parts));
  }

  /** The segmentwise test decides exactly whether two routes can serve a common path. */
  lemma OverlapExact(a: Route, b: Route)
    requires ValidRoute(a) && ValidRoute(b)
    ensures BrowserRoutesOverlap(a, b) <==> exists path :: MatchesPath(a, path) && MatchesPath(b, path)
  {
    if BrowserRoutesOverlap(a, b) {
      OverlapWitness(a, b);
    }
    if path :| MatchesPath(a, path) && MatchesPath(b, path) {
      MatchesPathExact(a, path);
      MatchesPathExact(b, path);
      forall i | 0 <= i < |a.browserSegments|
        ensures SegmentsOverlap(a, a.browserSegments[i], b, b.browserSegments[i])
      {
        assert Accepts(a.pathParameters, a.browserSegments[i], PathParts(path)[i]);
        assert Accepts(b.pathParameters, b.browserSegments[i], PathParts(path)[i]);
      }
    }
  }
}
