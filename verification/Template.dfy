/** Path templates: the parser, its printer, and the theorem that they are inverse. */
module Template {
  import opened Prelude
  import opened Text
  import opened Policy
  import Ordering

  function ParseParameterSegment(s: string): Option<string> {
    if |s| >= 2 && s[0] == '{' && s[|s| - 1] == '}' then
      var inner := s[1..|s| - 1];
      if '{' in inner || '}' in inner then None else Some(inner)
    else None
  }

  function ParseSegment(part: string, constraints: map<string, PathConstraint>, used: set<string>, template: string)
    : Result<Segment, PolicyError>
  {
    if part == "" || part == "." || part == ".." then Err(InvalidPathTemplate(template))
    else
      match ParseParameterSegment(part)
      case Some(name) =>
        if !IsParameterName(name) then Err(InvalidParameterName(name))
        else if name !in constraints then Err(MissingPathConstraint(name))
        else if name in used then Err(InvalidPathTemplate(template))
        else Ok(Parameter(name))
      case None =>
        if !All(part, IsUnreserved) then Err(InvalidPathTemplate(template))
        else Ok(Static(part))
  }

  function ParseSegments(
      parts: seq<string>, constraints: map<string, PathConstraint>, used: set<string>, template: string)
    : Result<seq<Segment>, PolicyError>
  {
    if parts == [] then Ok([])
    else
      var s :- ParseSegment(parts[0], constraints, used, template);
      var rest :- ParseSegments(parts[1..], constraints, used + ParametersOf([s]), template);
      Ok([s] + rest)
  }

  function FirstUnused(keys: seq<string>, used: set<string>): (r: Option<string>)
    ensures r.None? <==> forall k | k in keys :: k in used
  {
    if keys == [] then None
    else if keys[0] !in used then Some(keys[0])
    else FirstUnused(keys[1..], used)
  }

  predicate HasForbiddenChar(t: string) {
    exists i | 0 <= i < |t| :: t[i] == '?' || t[i] == '#' || t[i] == '\\' || t[i] == '%' || IsControl(t[i])
  }

  function ParseTemplate(t: string, constraints: map<string, PathConstraint>, browserPath: bool)
    : Result<seq<Segment>, PolicyError>
  {
    if t == "" || t[0] != '/' || HasForbiddenChar(t) then Err(InvalidPathTemplate(t))
    else if t == "/" then
      if browserPath then Err(InvalidBrowserPath(t))
      else
        match FirstUnused(Ordering.Sorted(constraints.Keys), {})
        case None => Ok([])
        case Some(k) => Err(UnusedPathConstraint(k))
    else
      var segments :- ParseSegments(Split(t[1..], '/'), constraints, {}, t);
      match FirstUnused(Ordering.Sorted(constraints.Keys), ParametersOf(segments))
      case None => Ok(segments)
      case Some(k) => Err(UnusedPathConstraint(k))
  }

  // ---- one segment ---------------------------------------------------------

  lemma RawPartChars(s: Segment)
    requires IsSegment(s)
    ensures forall c | c in RawPart(s) :: IsUnreserved(c) || c == '{' || c == '}'
    ensures RawPart(s) != "" && '/' !in RawPart(s) && '\n' !in RawPart(s)
  {
    forall c | c in RawPart(s) ensures IsUnreserved(c) || c == '{' || c == '}' {
      match s
      case Static(t) =>
        var i :| 0 <= i < |t| && t[i] == c;
      case Parameter(n) =>
        if c != '{' && c != '}' {
          var i :| 0 <= i < |n| && n[i] == c;
        }
    }
  }

  /** A printed segment is read back as itself, so printing loses nothing. */
  lemma ParseSegmentExact(
      part: string, constraints: map<string, PathConstraint>, used: set<string>, t: string, s: Segment)
    ensures ParseSegment(part, constraints, used, t) == Ok(s) <==>
            RawPart(s) == part && IsSegment(s) && (s.Parameter? ==> s.name in constraints && s.name !in used)
  {
    if RawPart(s) == part && IsSegment(s) {
      match s
      case Static(x) =>
        assert IsUnreserved(x[0]);
      case Parameter(n) =>
        var p := "{" + n + "}";
        assert p[1..|p| - 1] == n;
        assert forall i | 0 <= i < |n| :: n[i] != '{' && n[i] != '}';
    }
    if ParseParameterSegment(part).Some? {
      var n := part[1..|part| - 1];
      assert part == "{" + n + "}";
    }
  }

  lemma RawPartInjective(a: Segment, b: Segment)
    requires IsSegment(a) && IsSegment(b) && RawPart(a) == RawPart(b)
    ensures a == b
  {
    assert forall s | s == a || s == b :: s.Static? <==> IsUnreserved(RawPart(s)[0]);
    if a.Parameter? {
      assert a.name == RawPart(a)[1..|RawPart(a)| - 1];
      assert b.name == RawPart(b)[1..|RawPart(b)| - 1];
    }
  }

  // ---- segment lists -------------------------------------------------------

  lemma ParametersOfCons(s: Segment, rest: seq<Segment>)
    ensures ParametersOf([s] + rest) == ParametersOf([s]) + ParametersOf(rest)
  {
    var all := [s] + rest;
    forall n | n in ParametersOf(rest) ensures n in ParametersOf(all) {
      var i :| 0 <= i < |rest| && rest[i].Parameter? && rest[i].name == n;
      assert all[i + 1] == rest[i];
    }
    forall n | n in ParametersOf([s]) ensures n in ParametersOf(all) {
      assert all[0] == s && [s][0] == s;
    }
    forall n | n in ParametersOf(all) ensures n in ParametersOf([s]) + ParametersOf(rest) {
      var i :| 0 <= i < |all| && all[i].Parameter? && all[i].name == n;
      if i == 0 {
        assert [s][0] == all[0];
      } else {
        assert rest[i - 1] == all[i];
      }
    }
  }

  /** Parsing succeeds on exactly the printed forms of segment lists that are fresh for `used`. */
  ghost predicate FreshTemplate(segments: seq<Segment>, constraints: map<string, PathConstraint>, used: set<string>) {
    && IsTemplate(segments, ParametersOf(segments))
    && ParametersOf(segments) <= constraints.Keys
    && ParametersOf(segments) !! used
  }

  lemma ParametersOfOne(s: Segment)
    ensures ParametersOf([s]) == if s.Parameter? then {s.name} else {}
  {
    assert [s][0] == s;
  }

  lemma DistinctCons(s: Segment, rest: seq<Segment>)
    ensures IsTemplate([s] + rest, ParametersOf([s] + rest)) <==>
            && IsSegment(s) && IsTemplate(rest, ParametersOf(rest))
            && (s.Parameter? ==> s.name !in ParametersOf(rest))
  {
    var all := [s] + rest;
    if IsTemplate(all, ParametersOf(all)) {
      assert all[0] == s;
      assert forall i | 0 <= i < |rest| :: rest[i] == all[i + 1];
    }
    if IsSegment(s) && IsTemplate(rest, ParametersOf(rest)) && (s.Parameter? ==> s.name !in ParametersOf(rest)) {
      forall i, j | 0 <= i < j < |all| && all[i].Parameter? && all[j].Parameter?
        ensures all[i].name != all[j].name
      {
        assert all[j] == rest[j - 1] && rest[j - 1].name in ParametersOf(rest);
        if i > 0 {
          assert all[i] == rest[i - 1];
        }
      }
    }
  }

  lemma FreshTemplateCons(s: Segment, rest: seq<Segment>, constraints: map<string, PathConstraint>, used: set<string>)
    ensures FreshTemplate([s] + rest, constraints, used) <==>
            && IsSegment(s) && (s.Parameter? ==> s.name in constraints && s.name !in used)
            && FreshTemplate(rest, constraints, used + ParametersOf([s]))
  {
    DistinctCons(s, rest);
    ParametersOfCons(s, rest);
    ParametersOfOne(s);
  }

  lemma ParseSegmentsCons(
      parts: seq<string>, constraints: map<string, PathConstraint>, used: set<string>, t: string,
      s: Segment, rest: seq<Segment>)
    requires parts != []
    ensures ParseSegments(parts, constraints, used, t) == Ok([s] + rest) <==>
            && ParseSegment(parts[0], constraints, used, t) == Ok(s)
            && ParseSegments(parts[1..], constraints, used + ParametersOf([s]), t) == Ok(rest)
  {
    var head := ParseSegment(parts[0], constraints, used, t);
    if head.Ok? {
      var tail := ParseSegments(parts[1..], constraints, used + ParametersOf([head.value]), t);
      if tail.Ok? && [head.value] + tail.value == [s] + rest {
        assert ([head.value] + tail.value)[0] == s && ([head.value] + tail.value)[1..] == rest;
      }
    }
  }

  lemma RawPartsCons(s: Segment, rest: seq<Segment>, parts: seq<string>)
    requires parts != []
    ensures RawParts([s] + rest) == parts <==> RawPart(s) == parts[0] && RawParts(rest) == parts[1..]
  {
    assert ([s] + rest)[1..] == rest;
    assert parts == [parts[0]] + parts[1..];
    if RawParts([s] + rest) == parts {
      assert parts[1..] == RawParts(rest);
    }
  }

  lemma {:induction false} ParseSegmentsExact(
      parts: seq<string>, constraints: map<string, PathConstraint>, used: set<string>, t: string,
      segments: seq<Segment>)
    ensures ParseSegments(parts, constraints, used, t) == Ok(segments) <==>
            RawParts(segments) == parts && FreshTemplate(segments, constraints, used)
  {
    if parts == [] {
      assert ParametersOf([]) == {};
    } else if segments != [] {
      var s, rest := segments[0], segments[1..];
      assert segments == [s] + rest;
      ParseSegmentExact(parts[0], constraints, used, t, s);
      FreshTemplateCons(s, rest, constraints, used);
      ParseSegmentsCons(parts, constraints, used, t, s, rest);
      RawPartsCons(s, rest, parts);
      ParseSegmentsExact(parts[1..], constraints, used + ParametersOf([s]), t, rest);
    }
  }

  lemma RawPartsPlain(segments: seq<Segment>)
    requires forall i | 0 <= i < |segments| :: IsSegment(segments[i])
    ensures forall i | 0 <= i < |segments| :: '/' !in RawParts(segments)[i] && RawParts(segments)[i] != ""
    ensures forall c | c in Render(segments) :: IsUnreserved(c) || c == '{' || c == '}' || c == '/'
    ensures |segments| > 0 ==> |Render(segments)| > 1
  {
    var parts := RawParts(segments);
    forall i | 0 <= i < |segments| ensures '/' !in parts[i] && parts[i] != "" {
      RawPartChars(segments[i]);
    }
    forall c | c in Render(segments) ensures IsUnreserved(c) || c == '{' || c == '}' || c == '/' {
      if c != '/' {
        JoinChars(parts, '/', c);
        var i :| 0 <= i < |parts| && c in parts[i];
        RawPartChars(segments[i]);
      }
    }
    if |segments| > 0 {
      assert |parts[0]| > 0;
    }
  }

  /**
   * The parser accepts a text and yields `segments` exactly when `segments` is a template over
   * precisely the constrained parameters and prints as that text.
   */
  lemma ParseTemplateExact(
      t: string, constraints: map<string, PathConstraint>, browserPath: bool, segments: seq<Segment>)
    ensures ParseTemplate(t, constraints, browserPath) == Ok(segments) <==>
            && IsTemplate(segments, constraints.Keys)
            && Render(segments) == t
            && (browserPath ==> segments != [])
  {
    if t == "/" {
      RootTemplateExact(constraints, browserPath, segments);
    } else if ParseTemplate(t, constraints, browserPath) == Ok(segments) {
      RendersAccepted(t, constraints, browserPath, segments);
    } else if IsTemplate(segments, constraints.Keys) && Render(segments) == t && (browserPath ==> segments != []) {
      AcceptsRendering(t, constraints, browserPath, segments);
    }
  }

  lemma RootTemplateExact(constraints: map<string, PathConstraint>, browserPath: bool, segments: seq<Segment>)
    ensures ParseTemplate("/", constraints, browserPath) == Ok(segments) <==>
            && IsTemplate(segments, constraints.Keys)
            && Render(segments) == "/"
            && (browserPath ==> segments != [])
  {
    Ordering.SortedElements(constraints.Keys);
    assert ParametersOf([]) == {};
    assert !HasForbiddenChar("/");
    if IsTemplate(segments, constraints.Keys) {
      RawPartsPlain(segments);
    }
    assert FirstUnused(Ordering.Sorted(constraints.Keys), {}).None? <==> constraints.Keys == {};
  }

  lemma RendersAccepted(t: string, constraints: map<string, PathConstraint>, browserPath: bool, segments: seq<Segment>)
    requires t != "/" && ParseTemplate(t, constraints, browserPath) == Ok(segments)
    ensures IsTemplate(segments, constraints.Keys) && Render(segments) == t && segments != []
  {
    var parts := Split(t[1..], '/');
    ParseSegmentsExact(parts, constraints, {}, t, segments);
    assert Render(segments) == t by {
      JoinSplit(t[1..], '/');
      assert t == "/" + t[1..];
    }
    assert constraints.Keys <= ParametersOf(segments) by {
      Ordering.SortedElements(constraints.Keys);
      assert forall k | k in constraints.Keys :: k in Ordering.Sorted(constraints.Keys);
    }
  }

  lemma RenderingHasNoForbiddenChar(segments: seq<Segment>)
    requires forall i | 0 <= i < |segments| :: IsSegment(segments[i])
    ensures !HasForbiddenChar(Render(segments))
  {
    var t := Render(segments);
    RawPartsPlain(segments);
    forall i | 0 <= i < |t|
      ensures !(t[i] == '?' || t[i] == '#' || t[i] == '\\' || t[i] == '%' || IsControl(t[i]))
    {
      assert t[i] in t;
    }
  }

  lemma AcceptsRendering(t: string, constraints: map<string, PathConstraint>, browserPath: bool, segments: seq<Segment>)
    requires IsTemplate(segments, constraints.Keys) && Render(segments) == t && t != "/"
    ensures ParseTemplate(t, constraints, browserPath) == Ok(segments)
  {
    RenderingHasNoForbiddenChar(segments);
    assert ParseSegments(Split(t[1..], '/'), constraints, {}, t) == Ok(segments) by {
      RawPartsPlain(segments);
      assert t[1..] == Join(RawParts(segments), '/');
      SplitJoin(RawParts(segments), '/');
      ParseSegmentsExact(Split(t[1..], '/'), constraints, {}, t, segments);
    }
    assert FirstUnused(Ordering.Sorted(constraints.Keys), ParametersOf(segments)).None? by {
      Ordering.SortedElements(constraints.Keys);
    }
  }

  /** Every accepted text is printed back unchanged. */
  lemma PrintAfterParse(t: string, constraints: map<string, PathConstraint>, browserPath: bool)
    requires ParseTemplate(t, constraints, browserPath).Ok?
    ensures Render(ParseTemplate(t, constraints, browserPath).value) == t
  {
    ParseTemplateExact(t, constraints, browserPath, ParseTemplate(t, constraints, browserPath).value);
  }

  /** Printing distinguishes templates, even across different parameter sets. */
  lemma RenderInjective(a: seq<Segment>, b: seq<Segment>)
    requires forall i | 0 <= i < |a| :: IsSegment(a[i])
    requires forall i | 0 <= i < |b| :: IsSegment(b[i])
    requires Render(a) == Render(b)
    ensures a == b
  {
    RawPartsPlain(a);
    RawPartsPlain(b);
    assert Join(RawParts(a), '/') == Render(a)[1..] == Render(b)[1..] == Join(RawParts(b), '/');
    if a != [] && b != [] {
      SplitJoin(RawParts(a), '/');
      SplitJoin(RawParts(b), '/');
      forall i | 0 <= i < |a| ensures a[i] == b[i] {
        assert RawParts(a)[i] == RawParts(b)[i];
        RawPartInjective(a[i], b[i]);
      }
    }
  }

  // ---- the loops of the source ---------------------------------------------

  function After(done: seq<Segment>, rest: Result<seq<Segment>, PolicyError>): Result<seq<Segment>, PolicyError> {
    match rest
    case Ok(segments) => Ok(done + segments)
    case Err(e) => Err(e)
  }

  lemma ParametersOfSnoc(segments: seq<Segment>, s: Segment)
    ensures ParametersOf(segments + [s]) == ParametersOf(segments) + ParametersOf([s])
  {
    var all := segments + [s];
    forall n | n in ParametersOf(segments) ensures n in ParametersOf(all) {
      var i :| 0 <= i < |segments| && segments[i].Parameter? && segments[i].name == n;
      assert all[i] == segments[i];
    }
    forall n | n in ParametersOf([s]) ensures n in ParametersOf(all) {
      assert all[|segments|] == s && [s][0] == s;
    }
    forall n | n in ParametersOf(all) ensures n in ParametersOf(segments) + ParametersOf([s]) {
      var i :| 0 <= i < |all| && all[i].Parameter? && all[i].name == n;
      if i == |segments| {
        assert [s][0] == all[i];
      } else {
        assert segments[i] == all[i];
      }
    }
  }

  lemma AfterNothing(rest: Result<seq<Segment>, PolicyError>)
    ensures After([], rest) == rest
  {
    assert rest.Ok? ==> [] + rest.value == rest.value;
  }

  lemma ParseSegmentsStep(
      parts: seq<string>, i: nat, constraints: map<string, PathConstraint>, used: set<string>, t: string,
      done: seq<Segment>)
    requires i < |parts|
    ensures After(done, ParseSegments(parts[i..], constraints, used, t)) ==
            match ParseSegment(parts[i], constraints, used, t)
            case Err(e) => Err(e)
            case Ok(s) => After(done + [s], ParseSegments(parts[i + 1..], constraints, used + ParametersOf([s]), t))
  {
    assert parts[i..][0] == parts[i] && parts[i..][1..] == parts[i + 1..];
    var s := ParseSegment(parts[i], constraints, used, t);
    if s.Ok? {
      var rest := ParseSegments(parts[i + 1..], constraints, used + ParametersOf([s.value]), t);
      assert rest.Ok? ==> done + ([s.value] + rest.value) == (done + [s.value]) + rest.value;
    }
  }

  method CheckConstraintsUsed(constraints: map<string, PathConstraint>, used: set<string>)
    returns (r: Result<(), PolicyError>)
    ensures r == match FirstUnused(Ordering.Sorted(constraints.Keys), used)
                 case None => Ok(())
                 case Some(k) => Err(UnusedPathConstraint(k))
  {
    var keys := Ordering.Sorted(constraints.Keys);
    for i := 0 to |keys|
      invariant FirstUnused(keys, used) == FirstUnused(keys[i..], used)
    {
      if keys[i] !in used {
        return Err(UnusedPathConstraint(keys[i]));
      }
    }
    return Ok(());
  }

  method ParsePathTemplate(t: string, constraints: map<string, PathConstraint>, browserPath: bool)
    returns (r: Result<seq<Segment>, PolicyError>)
    ensures r == ParseTemplate(t, constraints, browserPath)
  {
    if t == "" || t[0] != '/' || HasForbiddenChar(t) {
      return Err(InvalidPathTemplate(t));
    }
    if t == "/" {
      if browserPath {
        return Err(InvalidBrowserPath(t));
      }
      var empty := CheckConstraintsUsed(constraints, {});
      return if empty.Ok? then Ok([]) else Err(empty.error);
    }

    var parts := Split(t[1..], '/');
    var segments: seq<Segment> := [];
    var used: set<string> := {};
    AfterNothing(ParseSegments(parts, constraints, {}, t));
    assert parts[0..] == parts;
    for i := 0 to |parts|
      invariant used == ParametersOf(segments)
      invariant ParseSegments(parts, constraints, {}, t)
             == After(segments, ParseSegments(parts[i..], constraints, used, t))
    {
      ParseSegmentsStep(parts, i, constraints, used, t, segments);
      var s := ParseSegment(parts[i], constraints, used, t);
      if s.Err? {
        return Err(s.error);
      }
      ParametersOfSnoc(segments, s.value);
      segments := segments + [s.value];
      used := used + ParametersOf([s.value]);
    }
    assert parts[|parts|..] == [] && segments + [] == segments;
    var unused := CheckConstraintsUsed(constraints, used);
    return if unused.Ok? then Ok(segments) else Err(unused.error);
  }

  method RenderTemplate(segments: seq<Segment>) returns (rendered: string)
    ensures rendered == Render(segments)
  {
    if segments == [] {
      return "/";
    }
    rendered := "";
    for i := 0 to |segments|
      invariant i == 0 ==> rendered == ""
      invariant i > 0 ==> rendered == Render(segments[..i])
    {
      RenderSnoc(segments[..i], segments[i]);
      assert segments[..i] + [segments[i]] == segments[..i + 1];
      rendered := rendered + "/" + RawPart(segments[i]);
    }
    assert segments[..|segments|] == segments;
  }

  lemma {:induction false} JoinSnoc(parts: seq<string>, part: string, c: char)
    requires parts != []
    ensures Join(parts + [part], c) == Join(parts, c) + [c] + part
  {
    if |parts| > 1 {
      JoinSnoc(parts[1..], part, c);
      assert (parts + [part])[1..] == parts[1..] + [part];
    } else {
      assert (parts + [part])[1..] == [part];
    }
  }

  lemma RenderSnoc(segments: seq<Segment>, s: Segment)
    ensures Render(segments + [s]) == if segments == [] then "/" + RawPart(s) else Render(segments) + "/" + RawPart(s)
  {
    assert RawParts(segments + [s]) == RawParts(segments) + [RawPart(s)];
    if segments != [] {
      JoinSnoc(RawParts(segments), RawPart(s), '/');
    }
  }
}
