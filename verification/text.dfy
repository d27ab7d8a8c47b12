/** Text as the database and Go's sort see it: ordered character by character. */
module Text {
  predicate Less(a: string, b: string) {
    b != [] && (a == [] || a[0] < b[0] || (a[0] == b[0] && Less(a[1..], b[1..])))
  }

  lemma {:induction false} LessIrreflexive(a: string)
    ensures !Less(a, a)
  {
    if a != [] {
      LessIrreflexive(a[1..]);
    }
  }

  lemma {:induction false} LessTransitive(a: string, b: string, c: string)
    requires Less(a, b) && Less(b, c)
    ensures Less(a, c)
  {
    if a != [] && a[0] == b[0] && b[0] == c[0] {
      LessTransitive(a[1..], b[1..], c[1..]);
    }
  }

  lemma {:induction false} LessTotal(a: string, b: string)
    ensures Less(a, b) || a == b || Less(b, a)
  {
    if a != [] && b != [] && a[0] == b[0] {
      LessTotal(a[1..], b[1..]);
    }
  }

  lemma LessAsymmetric(a: string, b: string)
    requires Less(a, b)
    ensures !Less(b, a)
  {
    if Less(b, a) {
      LessTransitive(a, b, a);
      LessIrreflexive(a);
    }
  }

  lemma {:induction false} LessCommonPrefix(p: string, a: string, b: string)
    ensures Less(p + a, p + b) <==> Less(a, b)
  {
    if p == [] {
      assert p + a == a && p + b == b;
    } else {
      assert (p + a)[1..] == p[1..] + a && (p + b)[1..] == p[1..] + b;
      LessCommonPrefix(p[1..], a, b);
    }
  }

  ghost predicate IsLeast(m: string, s: set<string>) {
    m in s && forall x :: x in s && x != m ==> Less(m, x)
  }

  /** The least element of a set of texts. */
  method Least(s: set<string>) returns (m: string)
    requires s != {}
    ensures IsLeast(m, s)
  {
    m :| m in s;
    var rest := s - {m};
    while rest != {}
      invariant m in s && rest <= s
      invariant forall x :: x in s - rest && x != m ==> Less(m, x)
    {
      var x :| x in rest;
      if Less(x, m) {
        forall y | y in s - rest && y != m
          ensures Less(x, y)
        {
          LessTransitive(x, m, y);
        }
        m := x;
      } else {
        LessTotal(x, m);
      }
      rest := rest - {x};
    }
  }

  lemma {:induction false} LeastExists(s: set<string>)
    requires s != {}
    ensures exists m :: IsLeast(m, s)
  {
    var x :| x in s;
    if s == {x} {
      assert IsLeast(x, s);
    } else {
      LeastExists(s - {x});
      var m :| IsLeast(m, s - {x});
      LessTotal(x, m);
      if Less(x, m) {
        forall y | y in s && y != x
          ensures Less(x, y)
        {
          if y != m {
            LessTransitive(x, m, y);
          }
        }
        assert IsLeast(x, s);
      } else {
        assert IsLeast(m, s);
      }
    }
  }

  lemma LeastUnique(m: string, n: string, s: set<string>)
    requires IsLeast(m, s) && IsLeast(n, s)
    ensures m == n
  {
    if m != n {
      LessAsymmetric(m, n);
    }
  }

  /** What sort.Strings makes of the keys of a map. */
  ghost function Sorted(s: set<string>): (r: seq<string>)
    ensures |r| == |s|
    ensures forall x :: x in r <==> x in s
  {
    if s == {} then []
    else
      LeastExists(s);
      var m :| IsLeast(m, s);
      [m] + Sorted(s - {m})
  }

  lemma SortedFromLeast(s: set<string>)
    requires s != {}
    ensures var m := Sorted(s)[0]; IsLeast(m, s) && Sorted(s) == [m] + Sorted(s - {m})
  {
  }

  lemma {:induction false} SortedIncreases(s: set<string>, i: nat, j: nat)
    requires i < j < |s|
    ensures Less(Sorted(s)[i], Sorted(s)[j])
  {
    var m := Sorted(s)[0];
    SortedFromLeast(s);
    hide Sorted, Less;
    var rest := Sorted(s - {m});
    if i == 0 {
      assert Sorted(s)[j] == rest[j - 1] && rest[j - 1] in rest;
    } else {
      SortedIncreases(s - {m}, i - 1, j - 1);
    }
  }

  method Sort(s: set<string>) returns (r: seq<string>)
    ensures r == Sorted(s)
  {
    hide Sorted, IsLeast;
    r := [];
    var rest := s;
    while rest != {}
      invariant r + Sorted(rest) == Sorted(s)
    {
      var m := Least(rest);
      MoveLeast(r, rest, m);
      r := r + [m];
      rest := rest - {m};
    }
    SortedNothing();
  }

  lemma SortedNothing()
    ensures Sorted({}) == []
  {
  }

  lemma MoveLeast(r: seq<string>, rest: set<string>, m: string)
    requires IsLeast(m, rest)
    ensures r + Sorted(rest) == r + [m] + Sorted(rest - {m})
  {
    SortedStartsWithLeast(rest, m);
  }

  lemma SortedStartsWithLeast(s: set<string>, m: string)
    requires IsLeast(m, s)
    ensures Sorted(s) == [m] + Sorted(s - {m})
  {
    SortedFromLeast(s);
    LeastUnique(m, Sorted(s)[0], s);
  }
}
