/** Strings in code point order, and sorting a set of them. */
module Ordering {
  import opened Wrappers

  /** Lexicographic order of strings. */
  predicate Less(a: string, b: string) {
    b != "" && (a == "" || a[0] < b[0] || (a[0] == b[0] && Less(a[1..], b[1..])))
  }

  lemma {:induction false} LessIsTotal(a: string, b: string)
    ensures a != b ==> Less(a, b) || Less(b, a)
    ensures !(Less(a, b) && Less(b, a))
  {
    if a != "" && b != "" {
      LessIsTotal(a[1..], b[1..]);
      assert a == [a[0]] + a[1..] && b == [b[0]] + b[1..];
    }
  }

  /** Where two strings first differ the smaller has the smaller character, or has ended. */
  ghost predicate DiffersAt(a: string, b: string, i: nat) {
    && i <= |a| && i < |b| && a[..i] == b[..i] && (i == |a| || a[i] < b[i])
  }

  lemma {:induction false} LessExactly(a: string, b: string)
    ensures Less(a, b) <==> exists i: nat :: DiffersAt(a, b, i)
  {
    forall i: nat | DiffersAt(a, b, i) && i > 0
      ensures a != "" && b != "" && a[0] == b[0]
    {
      assert a[..i][0] == b[..i][0];
    }
    if a == "" || b == "" || a[0] != b[0] {
      assert b != "" && (a == "" || a[0] < b[0]) <==> DiffersAt(a, b, 0);
    } else {
      LessExactly(a[1..], b[1..]);
      if i: nat :| DiffersAt(a[1..], b[1..], i) {
        assert a[..i + 1] == [a[0]] + a[1..][..i] && b[..i + 1] == [b[0]] + b[1..][..i];
        assert DiffersAt(a, b, i + 1);
      }
      if i: nat :| DiffersAt(a, b, i) {
        assert i > 0;
        assert a[1..][..i - 1] == a[..i][1..] && b[1..][..i - 1] == b[..i][1..];
        assert DiffersAt(a[1..], b[1..], i - 1);
      }
    }
  }

  lemma {:induction false} LessIsTransitive(a: string, b: string, c: string)
    requires Less(a, b) && Less(b, c)
    ensures Less(a, c)
  {
    if a != "" && a[0] == b[0] == c[0] {
      LessIsTransitive(a[1..], b[1..], c[1..]);
    }
  }

  predicate StrictlySorted(s: seq<string>) {
    forall i, j | 0 <= i < j < |s| :: Less(s[i], s[j])
  }

  predicate IsLeast(m: string, s: set<string>) {
    m in s && forall x | x in s :: x == m || Less(m, x)
  }

  lemma {:induction false} LeastExists(s: set<string>) returns (m: string)
    requires s != {}
    ensures IsLeast(m, s)
    decreases |s|
  {
    var x :| x in s;
    if s == {x} {
      m := x;
    } else {
      var rest := LeastExists(s - {x});
      LessIsTotal(x, rest);
      m := if Less(x, rest) then x else rest;
      forall y | y in s
        ensures y == m || Less(m, y)
      {
        if y != x && y != rest && Less(x, rest) {
          LessIsTransitive(x, rest, y);
        }
      }
    }
  }

  lemma {:induction false} LeastIsUnique(m: string, n: string, s: set<string>)
    requires IsLeast(m, s) && IsLeast(n, s)
    ensures m == n
  {
    LessIsTotal(m, n);
  }

  function Least(s: set<string>): (m: string)
    requires s != {}
    ensures IsLeast(m, s)
  {
    assert exists m :: IsLeast(m, s) by {
      var m := LeastExists(s);
    }
    assert forall m, n | IsLeast(m, s) && IsLeast(n, s) :: m == n by {
      forall m, n | IsLeast(m, s) && IsLeast(n, s)
        ensures m == n
      {
        LeastIsUnique(m, n, s);
      }
    }
    var m :| IsLeast(m, s);
    m
  }

  lemma {:induction false} LeastFirst(m: string, s: set<string>, rest: seq<string>)
    requires IsLeast(m, s) && Elements(rest) == s - {m} && StrictlySorted(rest)
    ensures Elements([m] + rest) == s && StrictlySorted([m] + rest)
  {
    var all := [m] + rest;
    assert forall i | 1 <= i < |all| :: all[i] == rest[i - 1] && rest[i - 1] in Elements(rest);
    forall x
      ensures x in Elements(all) <==> x in s
    {
      assert x in all <==> x == m || x in rest;
      assert x in rest <==> x in Elements(rest);
    }
  }

  /** The elements of a set in increasing order, as `sorted` lists them. */
  function Sorted(s: set<string>): (r: seq<string>)
    ensures Elements(r) == s && StrictlySorted(r) && |r| == |s|
  {
    if s == {} then [] else
    var m := Least(s);
    LeastFirst(m, s, Sorted(s - {m}));
    [m] + Sorted(s - {m})
  }

  lemma {:induction false} FirstIsLeast(s: seq<string>)
    requires s != [] && StrictlySorted(s)
    ensures IsLeast(s[0], Elements(s)) && Elements(s) - {s[0]} == Elements(s[1..])
  {
    assert s[0] in s;
    forall x | x in Elements(s)
      ensures x == s[0] || Less(s[0], x)
    {
      var i :| 0 <= i < |s| && s[i] == x;
    }
    SortedIsDistinct(s);
    assert s == [s[0]] + s[1..];
  }

  /** A strictly increasing sequence is what sorting its elements gives. */
  lemma {:induction false} SortedIsUnique(s: seq<string>)
    requires StrictlySorted(s)
    ensures Sorted(Elements(s)) == s
  {
    if s == [] {
      assert Elements(s) == {};
    } else {
      FirstIsLeast(s);
      LeastIsUnique(Least(Elements(s)), s[0], Elements(s));
      SortedIsUnique(s[1..]);
      assert s == [s[0]] + s[1..];
    }
  }

  lemma {:induction false} SortedIsDistinct(s: seq<string>)
    requires StrictlySorted(s)
    ensures Distinct(s)
  {
    forall i, j | 0 <= i < j < |s|
      ensures s[i] != s[j]
    {
      LessIsTotal(s[i], s[j]);
    }
  }
}
