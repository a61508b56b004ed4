/** The order of names, and sorting a set of them: the same list whatever order the set was
    walked in. */
module Names {
  predicate Less(a: string, b: string) {
    b != [] && (a == [] || a[0] < b[0] || (a[0] == b[0] && Less(a[1..], b[1..])))
  }

  lemma {:induction false} LessIsTotal(a: string, b: string)
    ensures Less(a, b) || a == b || Less(b, a)
    ensures !(Less(a, b) && Less(b, a)) && !Less(a, a)
  {
    if a != [] && b != [] && a[0] == b[0] {
      LessIsTotal(a[1..], b[1..]);
      assert a == [a[0]] + a[1..] && b == [b[0]] + b[1..];
    }
    if a != [] {
      LessIsIrreflexive(a);
    }
  }

  lemma {:induction false} LessIsIrreflexive(a: string)
    ensures !Less(a, a)
  {
    if a != [] {
      LessIsIrreflexive(a[1..]);
    }
  }

  lemma {:induction false} LessIsTransitive(a: string, b: string, c: string)
    requires Less(a, b) && Less(b, c)
    ensures Less(a, c)
  {
    if a != [] && a[0] == b[0] == c[0] {
      LessIsTransitive(a[1..], b[1..], c[1..]);
    }
  }

  ghost predicate Ascending(s: seq<string>) {
    forall i, j :: 0 <= i < j < |s| ==> Less(s[i], s[j])
  }

  /** s lists exactly the names of the set, each once, in order. */
  ghost predicate Lists(s: seq<string>, names: set<string>) {
    Ascending(s) && forall x :: x in s <==> x in names
  }

  lemma TailLists(s: seq<string>, names: set<string>)
    requires Lists(s, names) && s != []
    ensures Lists(s[1..], names - {s[0]})
    ensures forall x :: x in names && x != s[0] ==> Less(s[0], x)
  {
    LessIsIrreflexive(s[0]);
    forall x | x in names && x != s[0] ensures Less(s[0], x) && x in s[1..] {
      var i :| 0 <= i < |s| && s[i] == x;
      assert s[1..][i - 1] == x;
    }
    forall x | x in s[1..] ensures x in names - {s[0]} {
      var i :| 0 <= i < |s[1..]| && s[1..][i] == x;
      assert s[i + 1] == x && Less(s[0], s[i + 1]);
    }
  }

  /** A set has one sorted list. */
  lemma {:induction false} ListIsUnique(s: seq<string>, t: seq<string>, names: set<string>)
    requires Lists(s, names) && Lists(t, names)
    ensures s == t
    decreases |s|
  {
    if s == [] {
      assert forall i :: 0 <= i < |t| ==> t[i] in s;
    } else {
      assert s[0] in names;
      TailLists(s, names);
      TailLists(t, names);
      LessIsTotal(s[0], t[0]);
      ListIsUnique(s[1..], t[1..], names - {s[0]});
      assert s == [s[0]] + s[1..] && t == [t[0]] + t[1..];
    }
  }

  /** The least name of a set, found by walking it in any order. */
  method Least(names: set<string>) returns (least: string)
    requires names != {}
    ensures least in names && forall x :: x in names && x != least ==> Less(least, x)
  {
    least :| least in names;
    var rest := names - {least};
    while rest != {}
      invariant rest <= names && least in names
      invariant forall x :: x in names - rest && x != least ==> Less(least, x)
      decreases |rest|
    {
      var x :| x in rest;
      rest := rest - {x};
      LessIsTotal(x, least);
      if Less(x, least) {
        forall y | y in names - rest && y != x ensures Less(x, y) {
          if y != least {
            LessIsTransitive(x, least, y);
          }
        }
        least := x;
      }
    }
  }

  method Sort(names: set<string>) returns (s: seq<string>)
    ensures Lists(s, names)
  {
    s := [];
    var rest := names;
    while rest != {}
      invariant rest <= names && Lists(s, names - rest)
      invariant forall x, y :: x in s && y in rest ==> Less(x, y)
      decreases |rest|
    {
      var least := Least(rest);
      s := s + [least];
      rest := rest - {least};
    }
    assert names - rest == names;
  }

  lemma {:induction false} LeastExists(names: set<string>) returns (least: string)
    requires names != {}
    ensures least in names && forall x :: x in names && x != least ==> Less(least, x)
    decreases |names|
  {
    var x :| x in names;
    least := x;
    if names != {x} {
      var rest := names - {x};
      assert names == {x} + rest;
      var y := LeastExists(rest);
      LessIsTotal(x, y);
      if Less(x, y) {
        forall z | z in names && z != x ensures Less(x, z) {
          if z != y {
            LessIsTransitive(x, y, z);
          }
        }
      } else {
        least := y;
      }
    }
  }

  lemma {:induction false} ListExists(names: set<string>) returns (s: seq<string>)
    ensures Lists(s, names)
    decreases |names|
  {
    if names == {} {
      s := [];
    } else {
      var least := LeastExists(names);
      var rest := ListExists(names - {least});
      s := [least] + rest;
      assert names == {least} + (names - {least});
      forall i, j | 0 <= i < j < |s| ensures Less(s[i], s[j]) {
        assert s[j] == rest[j - 1] && rest[j - 1] in names - {least};
      }
    }
  }

  /** The sorted list of a set. */
  ghost function Sorted(names: set<string>): (s: seq<string>)
    ensures Lists(s, names)
  {
    assert exists s :: Lists(s, names) by {
      var s := ListExists(names);
    }
    var s :| Lists(s, names);
    s
  }
}
