/** What each refusal means: which error is returned, about what, and that it is the first there is. */
module Refusals {
  import opened Prelude
  import opened Text
  import opened Policy
  import opened Alphabets
  import opened Template
  import opened Validation
  import Ordering

  // ---- one part of a template ------------------------------------------------------------------------

  /** `{n}`, with no further brace. */
  predicate Braced(part: string, n: string) {
    part == "{" + n + "}" && '{' !in n && '}' !in n
  }

  ghost predicate Plain(part: string) {
    part != "" && part != "." && part != ".." && forall n :: !Braced(part, n)
  }

  /** What is wrong with a part of the template `t` that stands behind parts naming `used`. */
  ghost predicate PartFault(
      part: string, constraints: map<string, PathConstraint>, used: set<string>, t: string, e: PolicyError)
  {
    || (part in ["", ".", ".."] && e == InvalidPathTemplate(t))
    || (Plain(part) && !Over(part, UPPER + LOWER + DIGITS + "-._~") && e == InvalidPathTemplate(t))
    || (exists n :: Braced(part, n) && !IsParameterName(n) && e == InvalidParameterName(n))
    || (exists n :: Braced(part, n) && IsParameterName(n) && n !in constraints && e == MissingPathConstraint(n))
    || (exists n :: Braced(part, n) && IsParameterName(n) && n in constraints && n in used
                    && e == InvalidPathTemplate(t))
  }

  lemma BracedExactly(part: string, n: string)
    ensures Braced(part, n) <==> ParseParameterSegment(part) == Some(n)
  {
    if Braced(part, n) {
      assert part[1..|part| - 1] == n;
    }
    if ParseParameterSegment(part) == Some(n) {
      assert part == "{" + part[1..|part| - 1] + "}";
    }
  }

  lemma BracedRefused(
      part: string, n: string, constraints: map<string, PathConstraint>, used: set<string>, t: string, e: PolicyError)
    requires Braced(part, n)
    ensures ParseSegment(part, constraints, used, t) == Err(e) <==>
            || (!IsParameterName(n) && e == InvalidParameterName(n))
            || (IsParameterName(n) && n !in constraints && e == MissingPathConstraint(n))
            || (IsParameterName(n) && n in constraints && n in used && e == InvalidPathTemplate(t))
  {
    BracedExactly(part, n);
    assert part[0] == '{';
  }

  lemma PlainRefused(
      part: string, constraints: map<string, PathConstraint>, used: set<string>, t: string, e: PolicyError)
    requires Plain(part)
    ensures ParseSegment(part, constraints, used, t) == Err(e) <==>
            !Over(part, UPPER + LOWER + DIGITS + "-._~") && e == InvalidPathTemplate(t)
  {
    UnreservedTextExactly(part);
    if ParseParameterSegment(part).Some? {
      BracedExactly(part, ParseParameterSegment(part).value);
    }
  }

  lemma PartRefused(
      part: string, constraints: map<string, PathConstraint>, used: set<string>, t: string, e: PolicyError)
    ensures ParseSegment(part, constraints, used, t) == Err(e) <==> PartFault(part, constraints, used, t, e)
  {
    if part == "" || part == "." || part == ".." {
      DotsUnbraced(part);
    } else if Plain(part) {
      PlainRefused(part, constraints, used, t, e);
    } else {
      var n :| Braced(part, n);
      BracedRefused(part, n, constraints, used, t, e);
      BracedOnce(part, n);
    }
  }

  lemma DotsUnbraced(part: string)
    requires part == "" || part == "." || part == ".."
    ensures forall n :: !Braced(part, n)
  {
    forall n ensures part != "{" + n + "}" {
      assert ("{" + n + "}")[0] == '{';
    }
  }

  lemma BracedOnce(part: string, n: string)
    requires Braced(part, n)
    ensures forall m :: Braced(part, m) ==> m == n
  {
    forall m | Braced(part, m) ensures m == n {
      BracedExactly(part, m);
      BracedExactly(part, n);
    }
  }

  // ---- a whole template -------------------------------------------------------------------------------

  /** The first `i` parts are those of the segments `read`. */
  ghost predicate ReadSoFar(
      parts: seq<string>, i: nat, constraints: map<string, PathConstraint>, used: set<string>, read: seq<Segment>)
  {
    i <= |parts| && RawParts(read) == parts[..i] && FreshTemplate(read, constraints, used)
  }

  ghost predicate FaultAt(
      parts: seq<string>, i: nat, constraints: map<string, PathConstraint>, used: set<string>, read: seq<Segment>,
      t: string, e: PolicyError)
  {
    && i < |parts| && ReadSoFar(parts, i, constraints, used, read)
    && PartFault(parts[i], constraints, used + ParametersOf(read), t, e)
  }

  lemma FaultAtStart(
      parts: seq<string>, constraints: map<string, PathConstraint>, used: set<string>, t: string, e: PolicyError)
    requires parts != []
    ensures FaultAt(parts, 0, constraints, used, [], t, e) <==>
            ParseSegment(parts[0], constraints, used, t) == Err(e)
  {
    PartRefused(parts[0], constraints, used, t, e);
    assert ParametersOf([]) == {} && used + {} == used;
  }

  lemma FaultAtCons(
      parts: seq<string>, i: nat, constraints: map<string, PathConstraint>, used: set<string>, s: Segment,
      read: seq<Segment>, t: string, e: PolicyError)
    requires parts != []
    ensures FaultAt(parts, i + 1, constraints, used, [s] + read, t, e) <==>
            && ParseSegment(parts[0], constraints, used, t) == Ok(s)
            && FaultAt(parts[1..], i, constraints, used + ParametersOf([s]), read, t, e)
  {
    ParseSegmentExact(parts[0], constraints, used, t, s);
    FreshTemplateCons(s, read, constraints, used);
    ParametersOfCons(s, read);
    assert used + ParametersOf([s] + read) == used + ParametersOf([s]) + ParametersOf(read);
    if i + 1 < |parts| {
      RawPartsCons(s, read, parts[..i + 1]);
      assert parts[..i + 1][1..] == parts[1..][..i] && parts[1..][i] == parts[i + 1];
    }
  }

  ghost predicate SomeFault(
      parts: seq<string>, constraints: map<string, PathConstraint>, used: set<string>, t: string, e: PolicyError)
  {
    exists i: nat, read :: FaultAt(parts, i, constraints, used, read, t, e)
  }

  lemma FaultBehind(
      parts: seq<string>, constraints: map<string, PathConstraint>, used: set<string>, s: Segment, t: string,
      e: PolicyError)
    requires parts != [] && ParseSegment(parts[0], constraints, used, t) == Ok(s)
    requires SomeFault(parts[1..], constraints, used + ParametersOf([s]), t, e)
    ensures SomeFault(parts, constraints, used, t, e)
  {
    var i: nat, read :| FaultAt(parts[1..], i, constraints, used + ParametersOf([s]), read, t, e);
    FaultAtCons(parts, i, constraints, used, s, read, t, e);
  }

  lemma FaultAhead(
      parts: seq<string>, constraints: map<string, PathConstraint>, used: set<string>, t: string, e: PolicyError)
    requires parts != [] && SomeFault(parts, constraints, used, t, e)
    ensures var head := ParseSegment(parts[0], constraints, used, t);
            || head == Err(e)
            || (head.Ok? && SomeFault(parts[1..], constraints, used + ParametersOf([head.value]), t, e))
  {
    var i: nat, read :| FaultAt(parts, i, constraints, used, read, t, e);
    if i == 0 {
      assert read == [];
      FaultAtStart(parts, constraints, used, t, e);
    } else {
      assert read == [read[0]] + read[1..];
      FaultAtCons(parts, i - 1, constraints, used, read[0], read[1..], t, e);
    }
  }

  lemma {:induction false} PartsRefused(
      parts: seq<string>, constraints: map<string, PathConstraint>, used: set<string>, t: string, e: PolicyError)
    ensures ParseSegments(parts, constraints, used, t) == Err(e) <==> SomeFault(parts, constraints, used, t, e)
  {
    if parts != [] {
      var head := ParseSegment(parts[0], constraints, used, t);
      if SomeFault(parts, constraints, used, t, e) {
        FaultAhead(parts, constraints, used, t, e);
      }
      if head == Err(e) {
        FaultAtStart(parts, constraints, used, t, e);
      }
      if head.Ok? {
        var used' := used + ParametersOf([head.value]);
        PartsRefused(parts[1..], constraints, used', t, e);
        if SomeFault(parts[1..], constraints, used', t, e) {
          FaultBehind(parts, constraints, used, head.value, t, e);
        }
      }
    }
  }

  lemma {:induction false} FirstUnusedFrom(keys: seq<string>, used: set<string>, k: string, unused: set<string>)
    requires Ordering.Ascending(keys) && forall x | x in keys :: x in unused <==> x !in used
    ensures FirstUnused(keys, used) == Some(k) <==> Ordering.IsLeast(k, Ordering.Among(keys, unused))
  {
    if keys != [] {
      Ordering.LeastComesFirst(keys, unused);
      FirstUnusedFrom(keys[1..], used, k, unused);
    }
  }

  lemma FirstUnusedExactly(keys: set<string>, used: set<string>, k: string)
    ensures FirstUnused(Ordering.Sorted(keys), used) == Some(k) <==> Ordering.IsLeast(k, keys - used)
  {
    Ordering.SortedElements(keys);
    FirstUnusedFrom(Ordering.Sorted(keys), used, k, keys - used);
    assert Ordering.Among(Ordering.Sorted(keys), keys - used) == keys - used;
  }

  /** No slash in front, or a character that no template may contain. */
  ghost predicate Malformed(t: string) {
    || t == "" || t[0] != '/'
    || exists c :: c in t && (c in "?#\\%" || c as int <= 31 || 127 <= c as int <= 159)
  }

  lemma MalformedExactly(t: string)
    ensures Malformed(t) <==> t == "" || t[0] != '/' || HasForbiddenChar(t)
  {
    if HasForbiddenChar(t) {
      var i :| 0 <= i < |t| && (t[i] == '?' || t[i] == '#' || t[i] == '\\' || t[i] == '%' || IsControl(t[i]));
      assert t[i] in t;
    }
  }

  /** The parts are those of `read`, and `k` is the least parameter that they leave out. */
  ghost predicate LeavesOut(
      parts: seq<string>, constraints: map<string, PathConstraint>, read: seq<Segment>, k: string)
  {
    ReadSoFar(parts, |parts|, constraints, {}, read) && Ordering.IsLeast(k, constraints.Keys - ParametersOf(read))
  }

  /** What the parts amount to: the fault found, or the parameter left out, or nothing. */
  ghost predicate PartsFault(
      parts: seq<string>, constraints: map<string, PathConstraint>, t: string, e: PolicyError)
  {
    || SomeFault(parts, constraints, {}, t, e)
    || (exists read, k :: LeavesOut(parts, constraints, read, k) && e == UnusedPathConstraint(k))
  }

  /** Everything that can be wrong with a template, and the error for it. */
  ghost predicate TemplateFault(
      t: string, constraints: map<string, PathConstraint>, browserPath: bool, e: PolicyError)
  {
    || (Malformed(t) && e == InvalidPathTemplate(t))
    || (t == "/" && browserPath && e == InvalidBrowserPath("/"))
    || (t == "/" && !browserPath && exists k :: Ordering.IsLeast(k, constraints.Keys) && e == UnusedPathConstraint(k))
    || (!Malformed(t) && t != "/" && PartsFault(Split(t[1..], '/'), constraints, t, e))
  }

  lemma RootRefused(constraints: map<string, PathConstraint>, browserPath: bool, e: PolicyError)
    ensures ParseTemplate("/", constraints, browserPath) == Err(e) <==>
            TemplateFault("/", constraints, browserPath, e)
  {
    MalformedExactly("/");
    assert !HasForbiddenChar("/");
    forall k ensures FirstUnused(Ordering.Sorted(constraints.Keys), {}) == Some(k) <==>
                     Ordering.IsLeast(k, constraints.Keys) {
      FirstUnusedExactly(constraints.Keys, {}, k);
      assert constraints.Keys - {} == constraints.Keys;
    }
  }

  lemma LeftOutExactly(
      parts: seq<string>, constraints: map<string, PathConstraint>, t: string, read: seq<Segment>, k: string)
    ensures LeavesOut(parts, constraints, read, k) <==>
            && ParseSegments(parts, constraints, {}, t) == Ok(read)
            && FirstUnused(Ordering.Sorted(constraints.Keys), ParametersOf(read)) == Some(k)
  {
    FirstUnusedExactly(constraints.Keys, ParametersOf(read), k);
    assert parts[..|parts|] == parts;
    ParseSegmentsExact(parts, constraints, {}, t, read);
  }

  lemma BodyRefused(parts: seq<string>, constraints: map<string, PathConstraint>, t: string, e: PolicyError)
    ensures PartsFault(parts, constraints, t, e) <==>
            var read := ParseSegments(parts, constraints, {}, t);
            || read == Err(e)
            || (read.Ok? && match FirstUnused(Ordering.Sorted(constraints.Keys), ParametersOf(read.value))
                            case None => false
                            case Some(k) => e == UnusedPathConstraint(k))
  {
    PartsRefused(parts, constraints, {}, t, e);
    if read, k :| LeavesOut(parts, constraints, read, k) && e == UnusedPathConstraint(k) {
      LeftOutExactly(parts, constraints, t, read, k);
    }
    var read := ParseSegments(parts, constraints, {}, t);
    if read.Ok? {
      match FirstUnused(Ordering.Sorted(constraints.Keys), ParametersOf(read.value)) {
        case None =>
        case Some(k) => LeftOutExactly(parts, constraints, t, read.value, k);
      }
    }
  }

  /** The parser returns an error exactly when the template has that fault. */
  lemma TemplateRefused(t: string, constraints: map<string, PathConstraint>, browserPath: bool, e: PolicyError)
    ensures ParseTemplate(t, constraints, browserPath) == Err(e) <==> TemplateFault(t, constraints, browserPath, e)
  {
    MalformedExactly(t);
    if t == "/" {
      RootRefused(constraints, browserPath, e);
    } else if !Malformed(t) {
      BodyRefused(Split(t[1..], '/'), constraints, t, e);
    }
  }

  // ---- a whole definition ---------------------------------------------------------------------------------

  predicate IsMethod(m: string) {
    m == "GET" || m == "HEAD"
  }

  /** The first method that is neither GET nor HEAD. */
  ghost predicate MethodFault(methods: seq<string>, i: nat, e: PolicyError) {
    && i < |methods| && !IsMethod(methods[i]) && (forall j | 0 <= j < i :: IsMethod(methods[j]))
    && e == UnsupportedMethod(methods[i])
  }

  lemma MethodFaultCons(methods: seq<string>, i: nat, e: PolicyError)
    requires methods != []
    ensures MethodFault(methods, i + 1, e) <==> IsMethod(methods[0]) && MethodFault(methods[1..], i, e)
  {
    assert forall j | 0 <= j < |methods[1..]| :: methods[1..][j] == methods[j + 1];
    if MethodFault(methods[1..], i, e) && IsMethod(methods[0]) {
      forall j | 0 <= j < i + 1 ensures IsMethod(methods[j]) {
        assert j > 0 ==> methods[j] == methods[1..][j - 1];
      }
    }
  }

  lemma {:induction false} MethodsRefused(methods: seq<string>, e: PolicyError)
    ensures ValidateMethods(methods) == Err(e) <==> exists i :: MethodFault(methods, i, e)
  {
    if methods != [] {
      MethodsRefused(methods[1..], e);
      if i: nat :| MethodFault(methods[1..], i, e) {
        MethodFaultCons(methods, i, e);
      }
      if i: nat :| MethodFault(methods, i, e) {
        if i > 0 {
          MethodFaultCons(methods, i - 1, e);
        }
      }
      assert MethodFault(methods, 0, e) <==> !IsMethod(methods[0]) && e == UnsupportedMethod(methods[0]);
    }
  }

  predicate IsForwardable(h: string, request: bool) {
    IsHeaderName(Lower(h)) && !IsForbiddenHeader(Lower(h), request)
  }

  /** A header that is no header name is reported as written, one that is never forwarded in lower case. */
  predicate HeaderError(h: string, request: bool, e: PolicyError) {
    || (!IsHeaderName(Lower(h)) && e == InvalidHeaderName(h))
    || (&& IsHeaderName(Lower(h)) && IsForbiddenHeader(Lower(h), request)
        && (request ==> e == ForbiddenRequestForwardHeader(Lower(h)))
        && (!request ==> e == ForbiddenResponseForwardHeader(Lower(h))))
  }

  ghost predicate HeaderFault(headers: seq<string>, request: bool, i: nat, e: PolicyError) {
    && i < |headers| && (forall j | 0 <= j < i :: IsForwardable(headers[j], request))
    && HeaderError(headers[i], request, e)
  }

  lemma HeaderFaultCons(headers: seq<string>, request: bool, i: nat, e: PolicyError)
    requires headers != []
    ensures HeaderFault(headers, request, i + 1, e) <==>
            IsForwardable(headers[0], request) && HeaderFault(headers[1..], request, i, e)
  {
    assert forall j | 0 <= j < |headers[1..]| :: headers[1..][j] == headers[j + 1];
    if HeaderFault(headers[1..], request, i, e) && IsForwardable(headers[0], request) {
      forall j | 0 <= j < i + 1 ensures IsForwardable(headers[j], request) {
        assert j > 0 ==> headers[j] == headers[1..][j - 1];
      }
    }
  }

  lemma HeaderRefused(h: string, request: bool, e: PolicyError)
    ensures ValidateHeader(h, request) == Err(e) <==> HeaderError(h, request, e)
    ensures ValidateHeader(h, request).Ok? <==> IsForwardable(h, request)
    ensures ValidateHeader(h, request).Ok? ==> !HeaderError(h, request, e)
  {
  }

  lemma HeaderFaultAfter(headers: seq<string>, request: bool, e: PolicyError)
    requires headers != []
    ensures (exists i :: HeaderFault(headers, request, i, e)) <==>
            || HeaderError(headers[0], request, e)
            || (IsForwardable(headers[0], request) && exists i :: HeaderFault(headers[1..], request, i, e))
  {
    if i: nat :| HeaderFault(headers[1..], request, i, e) {
      HeaderFaultCons(headers, request, i, e);
    }
    if i: nat :| HeaderFault(headers, request, i, e) {
      if i > 0 {
        HeaderFaultCons(headers, request, i - 1, e);
      }
    }
    assert HeaderFault(headers, request, 0, e) <==> HeaderError(headers[0], request, e);
  }

  lemma {:induction false} HeadersRefused(headers: seq<string>, request: bool, e: PolicyError)
    ensures ValidateHeaders(headers, request) == Err(e) <==> exists i :: HeaderFault(headers, request, i, e)
  {
    if headers != [] {
      HeadersRefused(headers[1..], request, e);
      HeaderRefused(headers[0], request, e);
      HeaderFaultAfter(headers, request, e);
    }
  }

  predicate IsQueryEntry(n: string, q: map<string, QueryConstraint>)
    requires n in q
  {
    IsParameterName(n) && q[n] != QueryConstraint.AsciiToken(0)
  }

  function Unfit(q: map<string, QueryConstraint>): set<string> {
    set n | n in q && !IsQueryEntry(n, q)
  }

  /** The least name that is no parameter name, or is constrained to no text at all. */
  ghost predicate QueryFault(unfit: set<string>, e: PolicyError) {
    exists n :: Ordering.IsLeast(n, unfit)
                && e == if IsParameterName(n) then InvalidQueryConstraint(n) else InvalidParameterName(n)
  }

  lemma {:induction false} QueryRefusedFrom(names: seq<string>, q: map<string, QueryConstraint>, e: PolicyError)
    requires Ordering.Ascending(names) && forall n | n in names :: n in q
    ensures ValidateQuery(names, q) == Err(e) <==> QueryFault(Ordering.Among(names, Unfit(q)), e)
  {
    if names != [] {
      Ordering.LeastComesFirst(names, Unfit(q));
      if IsQueryEntry(names[0], q) {
        QueryRefusedFrom(names[1..], q, e);
      } else {
        assert Ordering.IsLeast(names[0], Ordering.Among(names, Unfit(q)));
      }
    }
  }

  lemma QueryRefused(q: map<string, QueryConstraint>, e: PolicyError)
    ensures ValidateQuery(SortedQueryNames(q), q) == Err(e) <==> QueryFault(Unfit(q), e)
  {
    Ordering.SortedElements(q.Keys);
    QueryRefusedFrom(SortedQueryNames(q), q, e);
    assert Ordering.Among(SortedQueryNames(q), Unfit(q)) == Unfit(q);
  }

  /** A browser path's own faults are reported as such, those of its parameters as they are. */
  ghost predicate BrowserFault(path: string, constraints: map<string, PathConstraint>, e: PolicyError) {
    || (TemplateFault(path, constraints, true, InvalidPathTemplate(path)) && e == InvalidBrowserPath(path))
    || (TemplateFault(path, constraints, true, e) && !e.InvalidPathTemplate?)
  }

  lemma BrowserPathRefused(path: string, constraints: map<string, PathConstraint>, e: PolicyError)
    ensures ValidateBrowserPath(path, constraints) == Err(e) <==> BrowserFault(path, constraints, e)
  {
    TemplateRefused(path, constraints, true, InvalidPathTemplate(path));
    TemplateRefused(path, constraints, true, e);
    var r := ParseTemplate(path, constraints, true);
    if r.Err? && r.error.InvalidPathTemplate? {
      TemplateRefused(path, constraints, true, r.error);
      FaultNamesTemplate(path, constraints, r.error);
    }
  }

  lemma FaultNamesTemplate(path: string, constraints: map<string, PathConstraint>, e: PolicyError)
    requires TemplateFault(path, constraints, true, e) && e.InvalidPathTemplate?
    ensures e == InvalidPathTemplate(path)
  {
  }

  ghost predicate OriginFault(u: Upstream, e: PolicyError) {
    || (Lower(u.scheme) != "https" && e == UnsupportedScheme(u.scheme))
    || (Lower(u.scheme) == "https" && !IsLogicalHost(u.host) && e == InvalidHost(u.host))
    || (Lower(u.scheme) == "https" && IsLogicalHost(u.host) && u.port == 0 && e == InvalidPort(0))
  }

  /** The checks of a definition in their order: each is made when all before it found nothing. */
  ghost predicate DefinitionFault(d: Definition, e: PolicyError) {
    || (!IsValidRouteId(d.id) && e == InvalidRouteId(d.id))
    || (IsValidRouteId(d.id) && d.methods == [] && e == EmptyMethodSet(d.id))
    || (IsValidRouteId(d.id) && exists i :: MethodFault(d.methods, i, e))
    || (&& IsValidRouteId(d.id) && d.methods != [] && (forall m | m in d.methods :: IsMethod(m))
        && PathsFault(d, e))
  }

  ghost predicate PathsFault(d: Definition, e: PolicyError) {
    || BrowserFault(d.browserPath, d.pathParameters, e)
    || (&& ParseTemplate(d.browserPath, d.pathParameters, true).Ok?
        && (|| OriginFault(d.upstream, e)
            || (&& ValidateOrigin(d.upstream).Ok?
                && (|| (d.upstream.followRedirects && e == RedirectFollowingForbidden(d.id))
                    || (&& !d.upstream.followRedirects
                        && TemplateFault(d.upstream.pathTemplate, d.pathParameters, false, e))
                    || (&& !d.upstream.followRedirects
                        && ParseTemplate(d.upstream.pathTemplate, d.pathParameters, false).Ok?
                        && ForwardingFault(d, e))))))
  }

  ghost predicate ForwardingFault(d: Definition, e: PolicyError) {
    || QueryFault(Unfit(d.queryParameters), e)
    || (&& (forall n | n in d.queryParameters :: IsQueryEntry(n, d.queryParameters))
        && exists i :: HeaderFault(d.requestHeaders, true, i, e))
    || (&& (forall n | n in d.queryParameters :: IsQueryEntry(n, d.queryParameters))
        && (forall h | h in d.requestHeaders :: IsForwardable(h, true))
        && exists i :: HeaderFault(d.responseHeaders, false, i, e))
  }

  lemma ForwardingRefused(d: Definition, e: PolicyError)
    ensures ForwardingFault(d, e) <==>
            || ValidateQuery(SortedQueryNames(d.queryParameters), d.queryParameters) == Err(e)
            || (&& ValidateQuery(SortedQueryNames(d.queryParameters), d.queryParameters).Ok?
                && ValidateHeaders(d.requestHeaders, true) == Err(e))
            || (&& ValidateQuery(SortedQueryNames(d.queryParameters), d.queryParameters).Ok?
                && ValidateHeaders(d.requestHeaders, true).Ok? && ValidateHeaders(d.responseHeaders, false) == Err(e))
  {
    QueryRefused(d.queryParameters, e);
    QueryPolicyExact(d.queryParameters);
    HeadersRefused(d.requestHeaders, true, e);
    HeadersRefused(d.responseHeaders, false, e);
    ValidateHeadersExact(d.requestHeaders, true);
  }

  lemma PathsRefused(d: Definition, e: PolicyError)
    requires IsValidRouteId(d.id) && d.methods != [] && ValidateMethods(d.methods).Ok?
    ensures Validate(d) == Err(e) <==> PathsFault(d, e)
  {
    BrowserPathRefused(d.browserPath, d.pathParameters, e);
    assert OriginFault(d.upstream, e) <==> ValidateOrigin(d.upstream) == Err(e);
    TemplateRefused(d.upstream.pathTemplate, d.pathParameters, false, e);
    ForwardingRefused(d, e);
  }

  /** Validation returns an error exactly when that is the first fault of the definition. */
  lemma DefinitionRefused(d: Definition, e: PolicyError)
    ensures Validate(d) == Err(e) <==> DefinitionFault(d, e)
  {
    MethodsRefused(d.methods, e);
    ValidateMethodsExact(d.methods);
    if IsValidRouteId(d.id) && d.methods != [] && ValidateMethods(d.methods).Ok? {
      PathsRefused(d, e);
    }
  }
}
