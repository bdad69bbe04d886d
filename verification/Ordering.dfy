/** The order of Rust strings, and the ascending enumeration a BTreeSet or BTreeMap gives. */
module Ordering {
  /** Lexicographic by scalar value, which is also the order of the UTF-8 bytes. */
  predicate Less(a: string, b: string) {
    if b == "" then false
    else if a == "" then true
    else a[0] < b[0] || (a[0] == b[0] && Less(a[1..], b[1..]))
  }

  /** A proper prefix comes first; otherwise the first character in which two texts differ decides. */
  lemma {:induction false} LessExactly(a: string, b: string)
    ensures Less(a, b) <==>
            exists k :: 0 <= k <= |a| && k < |b| && a[..k] == b[..k] && (k < |a| ==> a[k] as int < b[k] as int)
  {
    if a != "" && b != "" && a[0] == b[0] {
      LessExactly(a[1..], b[1..]);
      if k :| 0 <= k <= |a| && k < |b| && a[..k] == b[..k] && (k < |a| ==> a[k] as int < b[k] as int) {
        assert k > 0;
        assert a[1..][..k - 1] == a[..k][1..] == b[1..][..k - 1];
      }
      if k :| 0 <= k <= |a[1..]| && k < |b[1..]| && a[1..][..k] == b[1..][..k]
              && (k < |a[1..]| ==> a[1..][k] as int < b[1..][k] as int)
      {
        assert a[..k + 1] == [a[0]] + a[1..][..k] == b[..k + 1];
      }
    } else if a != "" && b != "" {
      assert a[..0] == b[..0];
      assert forall k | 0 < k <= |a| && k < |b| :: a[..k][0] == a[0] && b[..k][0] == b[0];
    } else if a == "" && b != "" {
      assert a[..0] == b[..0];
    }
  }

  lemma {:induction false} LessTransitive(a: string, b: string, c: string)
    requires Less(a, b) && Less(b, c)
    ensures Less(a, c)
  {
    if a != "" && a[0] == b[0] == c[0] {
      LessTransitive(a[1..], b[1..], c[1..]);
    }
  }

  lemma {:induction false} LessTotal(a: string, b: string)
    ensures a == b || Less(a, b) || Less(b, a)
  {
    if a != "" && b != "" && a[0] == b[0] {
      LessTotal(a[1..], b[1..]);
      assert a == [a[0]] + a[1..] && b == [b[0]] + b[1..];
    }
  }

  lemma {:induction false} LessAsymmetric(a: string, b: string)
    requires Less(a, b)
    ensures !Less(b, a) && a != b
  {
    if a != "" && a[0] == b[0] {
      LessAsymmetric(a[1..], b[1..]);
    }
  }

  predicate IsLeast(x: string, s: set<string>) {
    x in s && forall y | y in s :: y == x || Less(x, y)
  }

  lemma {:induction false} LeastExists(s: set<string>)
    requires s != {}
    ensures exists x :: IsLeast(x, s)
    decreases |s|
  {
    var a :| a in s;
    if s == {a} {
      assert IsLeast(a, s);
    } else {
      LeastExists(s - {a});
      var b :| IsLeast(b, s - {a});
      LessTotal(a, b);
      var x := if Less(a, b) then a else b;
      forall y | y in s ensures y == x || Less(x, y) {
        if y != a && x == a && y != b {
          LessTransitive(a, b, y);
        }
      }
      assert IsLeast(x, s);
    }
  }

  lemma LeastUnique(x: string, y: string, s: set<string>)
    requires IsLeast(x, s) && IsLeast(y, s)
    ensures x == y
  {
    if x != y {
      LessAsymmetric(x, y);
    }
  }

  function Least(s: set<string>): (x: string)
    requires s != {}
    ensures IsLeast(x, s)
  {
    LeastExists(s);
    assert forall x, y | IsLeast(x, s) && IsLeast(y, s) :: x == y by {
      forall x, y | IsLeast(x, s) && IsLeast(y, s) ensures x == y {
        LeastUnique(x, y, s);
      }
    }
    var x :| IsLeast(x, s);
    x
  }

  /** The elements of `s` in iteration order. */
  function Sorted(s: set<string>): seq<string>
    decreases |s|
  {
    if s == {} then [] else [Least(s)] + Sorted(s - {Least(s)})
  }

  ghost predicate Ascending(xs: seq<string>) {
    forall i, j | 0 <= i < j < |xs| :: Less(xs[i], xs[j])
  }

  lemma {:induction false} SortedElements(s: set<string>)
    ensures forall x :: x in Sorted(s) <==> x in s
    ensures |Sorted(s)| == |s|
    ensures Ascending(Sorted(s))
    decreases |s|
  {
    if s != {} {
      var m := Least(s);
      var rest := Sorted(s - {m});
      SortedElements(s - {m});
      assert Sorted(s) == [m] + rest;
      forall i, j | 0 <= i < j < |Sorted(s)| ensures Less(Sorted(s)[i], Sorted(s)[j]) {
        assert rest[j - 1] in rest;
        if i > 0 {
          assert Less(rest[i - 1], rest[j - 1]);
        }
      }
    }
  }

  lemma SortedDistinct(s: set<string>)
    ensures forall i, j | 0 <= i < j < |Sorted(s)| :: Sorted(s)[i] != Sorted(s)[j]
  {
    SortedElements(s);
    forall i, j | 0 <= i < j < |Sorted(s)| ensures Sorted(s)[i] != Sorted(s)[j] {
      LessAsymmetric(Sorted(s)[i], Sorted(s)[j]);
    }
  }

  lemma SortedInjective(s: set<string>, t: set<string>)
    requires Sorted(s) == Sorted(t)
    ensures s == t
  {
    SortedElements(s);
    SortedElements(t);
    assert forall x :: x in s <==> x in Sorted(s);
  }

  function Among(names: seq<string>, wanted: set<string>): set<string> {
    set n | n in names && n in wanted
  }

  /** Scanning an ascending enumeration finds the least of the wanted elements first. */
  lemma LeastComesFirst(names: seq<string>, wanted: set<string>)
    requires names != [] && Ascending(names)
    ensures Ascending(names[1..])
    ensures names[0] !in wanted ==> Among(names, wanted) == Among(names[1..], wanted)
    ensures names[0] in wanted ==> forall n :: IsLeast(n, Among(names, wanted)) <==> n == names[0]
  {
    assert forall i | 0 <= i < |names[1..]| :: names[1..][i] == names[i + 1];
    assert forall n :: n in names <==> n == names[0] || n in names[1..];
    forall y | y in names[1..] ensures Less(names[0], y) {
      var i :| 0 <= i < |names[1..]| && names[1..][i] == y;
      assert Less(names[0], names[i + 1]);
    }
    if names[0] in wanted {
      assert IsLeast(names[0], Among(names, wanted));
      forall n | IsLeast(n, Among(names, wanted)) ensures n == names[0] {
        LeastUnique(n, names[0], Among(names, wanted));
      }
    }
  }
}
