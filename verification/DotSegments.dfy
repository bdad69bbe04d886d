/** What remove_dot_segments makes of any absolute path: a walk that `..` takes one step back. */
module DotSegments {
  import opened Text
  import opened Policy
  import opened Targets

  /** Where the walk along `parts` ends that has come to `at`; a final dot leaves an empty last part. */
  function Walk(at: seq<string>, parts: seq<string>): seq<string>
    decreases |parts|
  {
    if parts == [] then at
    else
      var back := if at == [] then [] else at[..|at| - 1];
      var here := if parts[0] == "." then at else if parts[0] == ".." then back else at + [parts[0]];
      if |parts| == 1 && (parts[0] == "." || parts[0] == "..") then here + [""] else Walk(here, parts[1..])
  }

  ghost predicate Slashless(parts: seq<string>) {
    forall i | 0 <= i < |parts| :: '/' !in parts[i]
  }

  lemma {:induction false} SuffixSnoc(parts: seq<string>, part: string)
    ensures Suffix(parts + [part]) == Suffix(parts) + ("/" + part)
  {
    if parts == [] {
      assert parts + [part] == [part] && [part][1..] == [];
      assert Suffix([part]) == "/" + part + "";
    } else {
      SuffixSnoc(parts[1..], part);
      assert (parts + [part])[1..] == parts[1..] + [part];
      assert "/" + parts[0] + (Suffix(parts[1..]) + ("/" + part)) == "/" + parts[0] + Suffix(parts[1..]) + ("/" + part);
    }
  }

  lemma {:induction false} LastSlashBehind(s: string, t: string)
    requires '/' !in t
    ensures LastSlash(s + ("/" + t)) == |s|
    decreases |t|
  {
    var u := s + ("/" + t);
    if t == "" {
      assert u[|u| - 1] == '/';
    } else {
      var t' := t[..|t| - 1];
      assert u[|u| - 1] == t[|t| - 1] && t[|t| - 1] in t;
      assert u[..|u| - 1] == s + ("/" + t');
      assert forall c | c in t' :: c in t;
      LastSlashBehind(s, t');
    }
  }

  /** Dropping the last segment of the output is stepping back. */
  lemma StepBack(at: seq<string>)
    requires Slashless(at)
    ensures var out := Suffix(at); out[..LastSlash(out)] == Suffix(if at == [] then [] else at[..|at| - 1])
  {
    if at != [] {
      var back, last := at[..|at| - 1], at[|at| - 1];
      assert at == back + [last];
      SuffixSnoc(back, last);
      LastSlashBehind(Suffix(back), last);
      assert (Suffix(back) + ("/" + last))[..|Suffix(back)|] == Suffix(back);
    }
  }

  lemma SuffixCons(part: string, rest: seq<string>)
    ensures Suffix([part] + rest) == "/" + part + Suffix(rest)
    ensures rest == [] ==> Suffix(rest) == ""
    ensures rest != [] ==> |Suffix(rest)| > 0 && Suffix(rest)[0] == '/'
  {
    assert ([part] + rest)[1..] == rest;
  }

  lemma DotStep(rest: string, output: string)
    requires rest == "" || rest[0] == '/'
    ensures RemoveDotSegmentsFrom("/." + rest, output)
         == RemoveDotSegmentsFrom(if rest == "" then "/" else rest, output)
  {
    var s := "/." + rest;
    assert s[0] == '/' && s[1] == '.';
    if rest != "" {
      assert s[2] == '/' && s[..3] == "/./" && s[2..] == rest;
    } else {
      assert s == "/." && s[..1] == "/";
    }
  }

  lemma DotsStep(rest: string, output: string)
    requires rest == "" || rest[0] == '/'
    ensures RemoveDotSegmentsFrom("/.." + rest, output)
         == RemoveDotSegmentsFrom(if rest == "" then "/" else rest, output[..LastSlash(output)])
  {
    var s := "/.." + rest;
    assert s[0] == '/' && s[1] == '.' && s[2] == '.';
    if rest != "" {
      assert s[3] == '/' && s[..4] == "/../" && s[3..] == rest;
    } else {
      assert s == "/.." && s[..1] == "/";
    }
  }

  lemma OtherStep(part: string, rest: string, output: string)
    requires part != "." && part != ".." && '/' !in part && (rest == "" || rest[0] == '/')
    ensures RemoveDotSegmentsFrom("/" + part + rest, output) == RemoveDotSegmentsFrom(rest, output + ("/" + part))
  {
    var s := "/" + part + rest;
    OtherHead(part, rest);
    assert s[1..] == part + rest;
    if rest == "" {
      assert part + rest == part;
      IndexOfAbsent(part, '/');
    } else {
      assert part + rest == part + "/" + rest[1..];
      IndexOfConcat(part, '/', rest[1..]);
    }
    assert s[..1 + |part|] == "/" + part && s[1 + |part|..] == rest;
  }

  lemma OtherHead(part: string, rest: string)
    requires part != "." && part != ".." && '/' !in part && (rest == "" || rest[0] == '/')
    ensures var s := "/" + part + rest;
            && !StartsWith(s, "../") && !StartsWith(s, "./") && !StartsWith(s, "/./") && s != "/."
            && !StartsWith(s, "/../") && s != "/.." && s != "." && s != ".."
  {
    var s := "/" + part + rest;
    assert s[0] == '/';
    assert |part| > 0 ==> s[1] == part[0] && part[0] in part;
    assert |part| > 1 ==> s[2] == part[1] && part[1] in part;
    assert |part| > 2 ==> s[3] == part[2] && part[2] in part;
    assert rest != "" ==> s[1 + |part|] == '/';
    assert |part| == 1 ==> part == [part[0]];
    assert |part| == 2 ==> part == [part[0], part[1]];
  }

  lemma SlashStep(output: string)
    ensures RemoveDotSegmentsFrom("/", output) == output + "/"
  {
    assert "/" + "" + "" == "/" && "/" + "" == "/";
    OtherStep("", "", output);
  }

  lemma {:induction false} WalksFrom(at: seq<string>, parts: seq<string>)
    requires Slashless(at) && Slashless(parts)
    ensures RemoveDotSegmentsFrom(Suffix(parts), Suffix(at)) == Suffix(Walk(at, parts))
    decreases |parts|
  {
    if parts != [] {
      var part, rest := parts[0], parts[1..];
      var back := if at == [] then [] else at[..|at| - 1];
      var here := if part == "." then at else if part == ".." then back else at + [part];
      assert parts == [part] + rest;
      SuffixCons(part, rest);
      StepTo(at, part, Suffix(rest), back);
      if rest == [] && (part == "." || part == "..") {
        SlashStep(Suffix(here));
        SuffixSnoc(here, "");
      } else {
        assert forall i | 0 <= i < |rest| :: rest[i] == parts[i + 1];
        WalksFrom(here, rest);
      }
    }
  }

  lemma StepTo(at: seq<string>, part: string, rest: string, back: seq<string>)
    requires Slashless(at) && '/' !in part && (rest == "" || rest[0] == '/')
    requires back == if at == [] then [] else at[..|at| - 1]
    ensures var next := if rest == "" && (part == "." || part == "..") then "/" else rest;
            var here := if part == "." then at else if part == ".." then back else at + [part];
            RemoveDotSegmentsFrom("/" + part + rest, Suffix(at)) == RemoveDotSegmentsFrom(next, Suffix(here))
  {
    if part == "." {
      assert "/" + part + rest == "/." + rest;
      DotStep(rest, Suffix(at));
    } else if part == ".." {
      assert "/" + part + rest == "/.." + rest;
      DotsStep(rest, Suffix(at));
      StepBack(at);
    } else {
      OtherStep(part, rest, Suffix(at));
      SuffixSnoc(at, part);
    }
  }

  lemma {:induction false} WalkArrives(at: seq<string>, parts: seq<string>)
    requires parts != []
    ensures Walk(at, parts) != []
    decreases |parts|
  {
    if |parts| > 1 {
      var back := if at == [] then [] else at[..|at| - 1];
      WalkArrives(if parts[0] == "." then at else if parts[0] == ".." then back else at + [parts[0]], parts[1..]);
    }
  }

  /** Section 5.2.4 of RFC 3986 on absolute paths: the dots are walked, and the path written out again. */
  lemma RemovesByWalking(parts: seq<string>)
    requires parts != [] && Slashless(parts)
    ensures RemoveDotSegments(PathText(parts)) == PathText(Walk([], parts))
  {
    SuffixIsPathText(parts);
    WalksFrom([], parts);
    WalkArrives([], parts);
    SuffixIsPathText(Walk([], parts));
  }
}
