/** What a resolved target says: it can be read back, it is dot-free, and it tracks the browser path. */
module Targets {
  import opened Text
  import opened Policy
  import opened Matching
  import opened Snapshots
  import opened Resolution
  import Digest
  import Ordering

  // ---- reading a target back ---------------------------------------------------------

  function TargetPath(t: string): string {
    t[..IndexOf(t, '?')]
  }

  function TargetQuery(t: string): string {
    var i := IndexOf(t, '?');
    if i == |t| then "" else t[i + 1..]
  }

  function DecodePair(part: string): (string, string) {
    var i := IndexOf(part, '=');
    if i == |part| then (part, "") else (part[..i], part[i + 1..])
  }

  function DecodePairs(parts: seq<string>): (ps: Pairs)
    ensures |ps| == |parts|
    ensures forall i | 0 <= i < |ps| :: ps[i] == DecodePair(parts[i])
  {
    if parts == [] then [] else [DecodePair(parts[0])] + DecodePairs(parts[1..])
  }

  function DecodeQuery(q: string): Pairs {
    if q == "" then [] else DecodePairs(Split(q, '&'))
  }

  /** The parameters of a map in the order in which the query text lists them. */
  function SortedPairs(m: map<string, string>): (ps: Pairs)
    ensures |ps| == |Digest.Keys(m)|
    ensures forall i | 0 <= i < |ps| :: ps[i] == (Digest.Keys(m)[i], m[Digest.Keys(m)[i]])
  {
    seq(|Digest.Keys(m)|, i requires 0 <= i < |Digest.Keys(m)| => (Digest.Keys(m)[i], m[Digest.Keys(m)[i]]))
  }

  lemma SortedPairsMap(m: map<string, string>)
    ensures UniqueNames(SortedPairs(m)) && AsMap(SortedPairs(m)) == m
  {
    var ps := SortedPairs(m);
    Ordering.SortedDistinct(m.Keys);
    forall n | n in m ensures n in AsMap(ps) && AsMap(ps)[n] == m[n] {
      var i :| 0 <= i < |Digest.Keys(m)| && Digest.Keys(m)[i] == n;
      AsMapEntry(ps, i);
    }
    forall n | n in AsMap(ps) ensures n in m {
      AsMapKeys(ps, n);
    }
  }

  lemma QueryValuePlain(c: QueryConstraint, v: string)
    requires QueryValueMatches(c, v)
    ensures '&' !in v
  {
    if c.Uuid? {
      UuidChars(v);
    }
    Digest.AllAbsent(v, IsUnreserved, '&');
  }

  lemma ParameterNameChars(n: string)
    requires IsParameterName(n)
    ensures '=' !in n && '&' !in n && '?' !in n
  {
  }

  lemma QueryPartPlain(allowed: map<string, QueryConstraint>, provided: map<string, string>, n: string)
    requires IsQueryPolicy(allowed) && QueryAllowed(allowed, provided) && n in provided
    ensures '&' !in n + "=" + provided[n]
    ensures DecodePair(n + "=" + provided[n]) == (n, provided[n])
  {
    ParameterNameChars(n);
    QueryValuePlain(allowed[n], provided[n]);
    var part := n + "=" + provided[n];
    IndexOfConcat(n, '=', provided[n]);
    assert part[..|n|] == n && part[|n| + 1..] == provided[n];
  }

  lemma QueryTextEmpty(provided: map<string, string>)
    ensures QueryText(provided) == "" <==> provided == map[]
  {
    var names := Digest.Keys(provided);
    if names != [] {
      assert |QueryParts(names, provided)[0]| > 0;
      assert names[0] in names;
    }
  }

  lemma DecodeQueryText(allowed: map<string, QueryConstraint>, provided: map<string, string>)
    requires IsQueryPolicy(allowed) && QueryAllowed(allowed, provided)
    ensures DecodeQuery(QueryText(provided)) == SortedPairs(provided)
  {
    var names := Digest.Keys(provided);
    var parts := QueryParts(names, provided);
    forall i | 0 <= i < |parts| ensures '&' !in parts[i] && DecodePair(parts[i]) == SortedPairs(provided)[i] {
      QueryPartPlain(allowed, provided, names[i]);
    }
    QueryTextEmpty(provided);
    if parts != [] {
      SplitJoin(parts, '&');
      assert provided != map[] by {
        assert names[0] in names;
      }
    } else {
      assert provided == map[] by {
        assert forall n | n in provided :: n in names;
      }
    }
  }

  lemma FillPlain(segments: seq<Segment>, constraints: map<string, PathConstraint>, b: map<string, string>)
    requires IsTemplate(segments, constraints.Keys) && IsBinding(constraints, b)
    ensures Binds(segments, b) && '?' !in Fill(segments, b)
  {
    FilledParts(segments, constraints, b);
    var parts := FillParts(segments, b);
    forall i | 0 <= i < |parts| ensures '?' !in parts[i] {
      StaticTextPlain(parts[i]);
    }
    Digest.JoinAbsent(parts, '/', '?');
  }

  lemma StaticTextPlain(t: string)
    requires IsStaticText(t)
    ensures '?' !in t
  {
    Digest.AllAbsent(t, IsUnreserved, '?');
  }

  lemma CutTarget(path: string, query: string)
    requires '?' !in path
    ensures TargetPath(WithQuery(path, query)) == path && TargetQuery(WithQuery(path, query)) == query
  {
    IndexOfConcat(path, '?', query);
    IndexOfAbsent(path, '?');
    var t := path + "?" + query;
    assert t[..|path|] == path && t[|path| + 1..] == query;
  }

  lemma TargetCut(r: Route, path: map<string, string>, query: map<string, string>)
    requires ValidRoute(r) && IsBinding(r.pathParameters, path)
    ensures Binds(r.upstreamPath, path)
    ensures TargetPath(Target(r, path, query)) == Fill(r.upstreamPath, path)
    ensures TargetQuery(Target(r, path, query)) == QueryText(query)
  {
    FillPlain(r.upstreamPath, r.pathParameters, path);
    CutTarget(Fill(r.upstreamPath, path), QueryText(query));
  }

  /**
   * A target is uniquely decodable. Cutting at the first `?` and splitting at `/`, `&` and `=` gives back
   * the filled template segments, with them the path binding, and the sorted query parameters.
   */
  lemma TargetDecodes(r: Route, path: map<string, string>, query: map<string, string>)
    requires ValidRoute(r) && IsBinding(r.pathParameters, path) && QueryAllowed(r.queryParameters, query)
    ensures Binds(r.upstreamPath, path)
    ensures var t := Target(r, path, query);
      && PathParts(TargetPath(t)) == FillParts(r.upstreamPath, path)
      && BindingOf(r.upstreamPath, PathParts(TargetPath(t))) == path
      && DecodeQuery(TargetQuery(t)) == SortedPairs(query)
      && AsMap(DecodeQuery(TargetQuery(t))) == query
  {
    TargetCut(r, path, query);
    FilledParts(r.upstreamPath, r.pathParameters, path);
    DecodeQueryText(r.queryParameters, query);
    SortedPairsMap(query);
  }

  /** Two successful resolutions of one route with the same target had the same parameters. */
  lemma TargetInjective(
      s: Snapshot, id: string, verb: string, ps: Pairs, qs: Pairs, verb': string, ps': Pairs, qs': Pairs)
    requires ValidSnapshot(s)
    requires forall k | k in s.routes :: Constrained(s.routes[k].upstreamPath, s.routes[k].pathParameters)
    requires Resolve(s, id, verb, ps, qs).Ok? && Resolve(s, id, verb', ps', qs').Ok?
    requires Resolve(s, id, verb, ps, qs).value.pathAndQuery == Resolve(s, id, verb', ps', qs').value.pathAndQuery
    ensures AsMap(ps) == AsMap(ps') && AsMap(qs) == AsMap(qs')
  {
    ResolveExact(s, id, verb, ps, qs);
    ResolveExact(s, id, verb', ps', qs');
    TargetDecodes(s.routes[id], AsMap(ps), AsMap(qs));
    TargetDecodes(s.routes[id], AsMap(ps'), AsMap(qs'));
  }

  // ---- remove_dot_segments (section 5.2.4 of RFC 3986) ---------------------------------

  predicate StartsWith(s: string, p: string) {
    |p| <= |s| && s[..|p|] == p
  }

  /** Length of the first path segment of `s`, with its initial slash when there is one. */
  function FirstSegment(s: string): (n: nat)
    requires s != ""
    ensures 0 < n <= |s|
  {
    1 + IndexOf(s[1..], '/')
  }

  function LastSlash(s: string): (i: nat)
    ensures i <= |s|
  {
    if s == "" then 0 else if s[|s| - 1] == '/' then |s| - 1 else LastSlash(s[..|s| - 1])
  }

  function RemoveDotSegmentsFrom(input: string, output: string): string
    decreases |input|
  {
    if input == "" then output
    else if StartsWith(input, "../") then RemoveDotSegmentsFrom(input[3..], output)
    else if StartsWith(input, "./") then RemoveDotSegmentsFrom(input[2..], output)
    else if StartsWith(input, "/./") then RemoveDotSegmentsFrom(input[2..], output)
    else if input == "/." then RemoveDotSegmentsFrom(input[..1], output)
    else if StartsWith(input, "/../") then RemoveDotSegmentsFrom(input[3..], output[..LastSlash(output)])
    else if input == "/.." then RemoveDotSegmentsFrom(input[..1], output[..LastSlash(output)])
    else if input == "." || input == ".." then output
    else
      var n := FirstSegment(input);
      RemoveDotSegmentsFrom(input[n..], output + input[..n])
  }

  function RemoveDotSegments(path: string): string {
    RemoveDotSegmentsFrom(path, "")
  }

  /** The text of a path from its k-th part on: each part behind a slash. */
  function Suffix(parts: seq<string>): string {
    if parts == [] then "" else "/" + parts[0] + Suffix(parts[1..])
  }

  lemma {:induction false} SuffixIsPathText(parts: seq<string>)
    requires parts != []
    ensures Suffix(parts) == PathText(parts)
  {
    if |parts| > 1 {
      SuffixIsPathText(parts[1..]);
      assert PathText(parts) == "/" + parts[0] + ("/" + Join(parts[1..], '/'));
    } else {
      assert parts[1..] == [];
    }
  }

  lemma SuffixHead(part: string, rest: string)
    requires IsStaticText(part) && '/' !in part && (rest == "" || rest[0] == '/')
    ensures var s := "/" + part + rest;
      && !StartsWith(s, "../") && !StartsWith(s, "./") && !StartsWith(s, "/./") && s != "/."
      && !StartsWith(s, "/../") && s != "/.." && s != "." && s != ".."
      && FirstSegment(s) == 1 + |part| && s[..1 + |part|] == "/" + part && s[1 + |part|..] == rest
  {
    var s := "/" + part + rest;
    assert s[1..] == part + rest;
    if rest == "" {
      assert part + rest == part;
      IndexOfAbsent(part, '/');
    } else {
      assert part + rest == part + "/" + rest[1..];
      IndexOfConcat(part, '/', rest[1..]);
    }
    assert s[0] == '/' && s[1] == part[0];
    if |part| == 1 {
      assert part[0] != '.';
    } else if |part| == 2 {
      assert s[2] == part[1] && (part[0] != '.' || part[1] != '.');
    } else {
      assert s[2] == part[1] && s[3] == part[2] && part[1] in part && part[2] in part;
    }
  }

  lemma SuffixStep(part: string, rest: string, output: string)
    requires IsStaticText(part) && '/' !in part && (rest == "" || rest[0] == '/')
    ensures RemoveDotSegmentsFrom("/" + part + rest, output) == RemoveDotSegmentsFrom(rest, output + ("/" + part))
  {
    SuffixHead(part, rest);
  }

  lemma {:induction false} DotFreeFixedFrom(parts: seq<string>, output: string)
    requires forall i | 0 <= i < |parts| :: IsStaticText(parts[i]) && '/' !in parts[i]
    ensures RemoveDotSegmentsFrom(Suffix(parts), output) == output + Suffix(parts)
    decreases |parts|
  {
    if parts != [] {
      SuffixStep(parts[0], Suffix(parts[1..]), output);
      assert forall i | 0 <= i < |parts[1..]| :: parts[1..][i] == parts[i + 1];
      DotFreeFixedFrom(parts[1..], output + ("/" + parts[0]));
      Digest.Associative(output, "/" + parts[0], Suffix(parts[1..]));
    }
  }

  lemma DotFreeFixed(parts: seq<string>)
    requires forall i | 0 <= i < |parts| :: IsStaticText(parts[i]) && '/' !in parts[i]
    ensures RemoveDotSegments(PathText(parts)) == PathText(parts)
  {
    if parts == [] {
      assert FirstSegment("/") == 1;
      assert RemoveDotSegmentsFrom("/", "") == RemoveDotSegmentsFrom("", "" + "/");
    } else {
      SuffixIsPathText(parts);
      DotFreeFixedFrom(parts, "");
      assert "" + Suffix(parts) == Suffix(parts);
    }
  }

  /** No resolved path changes under remove_dot_segments, so no later normalisation can move it. */
  lemma TargetDotFree(r: Route, path: map<string, string>, query: map<string, string>)
    requires ValidRoute(r) && IsBinding(r.pathParameters, path)
    ensures Binds(r.upstreamPath, path)
    ensures var p := TargetPath(Target(r, path, query)); RemoveDotSegments(p) == p
  {
    TargetCut(r, path, query);
    FilledParts(r.upstreamPath, r.pathParameters, path);
    DotFreeFixed(FillParts(r.upstreamPath, path));
  }

  // ---- from browser path to upstream path ----------------------------------------------

  /** The one binding under which a route serves a browser path. */
  function BrowserBinding(r: Route, path: string): map<string, string>
    requires |PathParts(path)| == |r.browserSegments|
  {
    BindingOf(r.browserSegments, PathParts(path))
  }

  lemma BrowserBindingUnique(r: Route, path: string)
    requires ValidRoute(r) && MatchesPath(r, path)
    ensures |PathParts(path)| == |r.browserSegments|
    ensures IsBinding(r.pathParameters, BrowserBinding(r, path))
    ensures Binds(r.browserSegments, BrowserBinding(r, path))
    ensures Fill(r.browserSegments, BrowserBinding(r, path)) == path
  {
    var b :| IsBinding(r.pathParameters, b) && Binds(r.browserSegments, b) && Fill(r.browserSegments, b) == path;
    FilledParts(r.browserSegments, r.pathParameters, b);
  }

  lemma ResolvesWithoutQuery(r: Route, verb: string, ps: Pairs)
    requires ValidRoute(r) && UniqueNames(ps) && IsBinding(r.pathParameters, AsMap(ps))
    ensures Constrained(r.upstreamPath, r.pathParameters) && Binds(r.upstreamPath, AsMap(ps))
    ensures ResolveOn(r, verb, ps, []).Ok?
    ensures ResolveOn(r, verb, ps, []).value.pathAndQuery == Fill(r.upstreamPath, AsMap(ps))
  {
    ResolveOnExact(r, verb, ps, []);
    QueryTextEmpty(AsMap([]));
  }

  /**
   * Every browser path a route matches resolves, for every allowed method: supplying the values found in
   * the path, in any order, gives the upstream template filled with the same values.
   */
  lemma BrowserPathResolves(s: Snapshot, id: string, verb: string, path: string, ps: Pairs)
    requires ValidSnapshot(s) && id in s.routes && verb in s.routes[id].methods
    requires MatchesPath(s.routes[id], path) && |PathParts(path)| == |s.routes[id].browserSegments|
    requires UniqueNames(ps) && AsMap(ps) == BrowserBinding(s.routes[id], path)
    ensures forall k | k in s.routes :: Constrained(s.routes[k].upstreamPath, s.routes[k].pathParameters)
    ensures Binds(s.routes[id].upstreamPath, BrowserBinding(s.routes[id], path))
    ensures Resolve(s, id, verb, ps, []).Ok?
    ensures Resolve(s, id, verb, ps, []).value.pathAndQuery
         == Fill(s.routes[id].upstreamPath, BrowserBinding(s.routes[id], path))
  {
    SnapshotConstrained(s);
    BrowserBindingUnique(s.routes[id], path);
    ResolvesWithoutQuery(s.routes[id], verb, ps);
  }

  /** Distinct browser paths of one route reach distinct upstream paths. */
  lemma UpstreamInjective(r: Route, p: string, q: string)
    requires ValidRoute(r) && MatchesPath(r, p) && MatchesPath(r, q)
    requires |PathParts(p)| == |r.browserSegments| && |PathParts(q)| == |r.browserSegments|
    ensures Binds(r.upstreamPath, BrowserBinding(r, p)) && Binds(r.upstreamPath, BrowserBinding(r, q))
    ensures Fill(r.upstreamPath, BrowserBinding(r, p)) == Fill(r.upstreamPath, BrowserBinding(r, q)) <==> p == q
  {
    BrowserBindingUnique(r, p);
    BrowserBindingUnique(r, q);
    FilledParts(r.upstreamPath, r.pathParameters, BrowserBinding(r, p));
    FilledParts(r.upstreamPath, r.pathParameters, BrowserBinding(r, q));
  }
}
