/** The order in which Python compares strings and paths, and sorting by it.
    `str` compares by code point, a proper prefix first; a POSIX `PurePath`
    compares the LISTS of its parts, so "a/b" sorts before "a-c" although the
    string "a-c" is smaller than "a/b". */
module PathOrder {
  import opened Common

  predicate StrLt(a: string, b: string)
    decreases |a|
  {
    if a == [] then b != []
    else if b == [] then false
    else if a[0] != b[0] then a[0] < b[0]
    else StrLt(a[1..], b[1..])
  }

  predicate PathLt(p: Path, q: Path)
    decreases |p|
  {
    if p == [] then q != []
    else if q == [] then false
    else if p[0] != q[0] then StrLt(p[0], q[0])
    else PathLt(p[1..], q[1..])
  }

  lemma {:induction false} StrLtIrreflexive(a: string)
    ensures !StrLt(a, a)
    decreases |a|
  {
    if a != [] { StrLtIrreflexive(a[1..]); }
  }

  lemma {:induction false} StrLtTransitive(a: string, b: string, c: string)
    requires StrLt(a, b) && StrLt(b, c)
    ensures StrLt(a, c)
    decreases |a|
  {
    if a != [] && b != [] && c != [] && a[0] == b[0] && b[0] == c[0] {
      StrLtTransitive(a[1..], b[1..], c[1..]);
    }
  }

  lemma {:induction false} StrLtTotal(a: string, b: string)
    ensures a == b || StrLt(a, b) || StrLt(b, a)
    decreases |a|
  {
    if a != [] && b != [] && a[0] == b[0] {
      StrLtTotal(a[1..], b[1..]);
      if a[1..] == b[1..] { assert a == [a[0]] + a[1..] && b == [b[0]] + b[1..]; }
    }
  }

  lemma {:induction false} StrLtAsymmetric(a: string, b: string)
    requires StrLt(a, b)
    ensures !StrLt(b, a)
  {
    if StrLt(b, a) {
      StrLtTransitive(a, b, a);
      StrLtIrreflexive(a);
    }
  }

  lemma {:induction false} PathLtIrreflexive(p: Path)
    ensures !PathLt(p, p)
    decreases |p|
  {
    if p != [] { PathLtIrreflexive(p[1..]); }
  }

  lemma {:induction false} PathLtTransitive(p: Path, q: Path, r: Path)
    requires PathLt(p, q) && PathLt(q, r)
    ensures PathLt(p, r)
    decreases |p|
  {
    if p != [] && q != [] && r != [] {
      if p[0] == q[0] && q[0] == r[0] {
        PathLtTransitive(p[1..], q[1..], r[1..]);
      } else if p[0] == q[0] {
      } else if q[0] == r[0] {
      } else {
        StrLtTransitive(p[0], q[0], r[0]);
        if p[0] == r[0] {
          StrLtAsymmetric(p[0], q[0]);
        }
      }
    }
  }

  lemma {:induction false} PathLtTotal(p: Path, q: Path)
    ensures p == q || PathLt(p, q) || PathLt(q, p)
    decreases |p|
  {
    if p != [] && q != [] {
      if p[0] == q[0] {
        PathLtTotal(p[1..], q[1..]);
        if p[1..] == q[1..] { assert p == [p[0]] + p[1..] && q == [q[0]] + q[1..]; }
      } else {
        StrLtTotal(p[0], q[0]);
      }
    }
  }

  lemma PathLtAsymmetric(p: Path, q: Path)
    requires PathLt(p, q)
    ensures !PathLt(q, p)
  {
    if PathLt(q, p) {
      PathLtTransitive(p, q, p);
      PathLtIrreflexive(p);
    }
  }

  predicate IsLeast(m: Path, s: set<Path>) {
    m in s && forall x :: x in s ==> x == m || PathLt(m, x)
  }

  lemma {:induction false} LeastExists(s: set<Path>)
    requires s != {}
    ensures exists m :: IsLeast(m, s)
    decreases |s|
  {
    var x :| x in s;
    if s != {x} {
      LeastExists(s - {x});
      var m :| IsLeast(m, s - {x});
      PathLtTotal(x, m);
      if PathLt(x, m) {
        forall y | y in s ensures y == x || PathLt(x, y) {
          if y != x && y != m { PathLtTransitive(x, m, y); }
        }
        assert IsLeast(x, s);
      } else {
        assert IsLeast(m, s);
      }
    } else {
      assert IsLeast(x, s);
    }
  }

  lemma LeastUnique(m: Path, m': Path, s: set<Path>)
    requires IsLeast(m, s) && IsLeast(m', s)
    ensures m == m'
  {
    if m != m' { PathLtAsymmetric(m, m'); }
  }

  /** The least path of a non-empty set. */
  function Least(s: set<Path>): (m: Path)
    requires s != {}
    ensures IsLeast(m, s)
  {
    LeastExists(s);
    assert forall m, m' :: IsLeast(m, s) && IsLeast(m', s) ==> m == m' by {
      forall m, m' | IsLeast(m, s) && IsLeast(m', s) ensures m == m' { LeastUnique(m, m', s); }
    }
    var m :| IsLeast(m, s);
    m
  }

  predicate StrictlySorted(s: seq<Path>) {
    forall i, j :: 0 <= i < j < |s| ==> PathLt(s[i], s[j])
  }

  /** The paths of a set in increasing order: the one listing a set has once sorted. */
  function SortSet(s: set<Path>): (r: seq<Path>)
    ensures StrictlySorted(r) && |r| == |s|
    ensures forall x :: x in r <==> x in s
    decreases |s|
  {
    if s == {} then []
    else
      var m := Least(s);
      var rest := SortSet(s - {m});
      assert forall j :: 0 <= j < |rest| ==> PathLt(m, rest[j]) by {
        forall j | 0 <= j < |rest| ensures PathLt(m, rest[j]) { assert rest[j] in s - {m}; }
      }
      [m] + rest
  }

  predicate Ordered(s: seq<Path>) {
    forall i, j :: 0 <= i < j < |s| ==> !PathLt(s[j], s[i])
  }

  function Insert(x: Path, s: seq<Path>): (r: seq<Path>)
    requires Ordered(s)
    ensures Ordered(r) && multiset(r) == multiset(s) + multiset{x}
  {
    if s == [] then [x]
    else if !PathLt(s[0], x) then
      assert forall j :: 0 <= j < |s| ==> !PathLt(s[j], x) by {
        forall j | 0 <= j < |s| ensures !PathLt(s[j], x) {
          if j > 0 && PathLt(s[j], x) {
            PathLtTotal(s[0], s[j]);
            if PathLt(s[0], s[j]) { PathLtTransitive(s[0], s[j], x); }
          }
        }
      }
      [x] + s
    else
      var rest := Insert(x, s[1..]);
      assert s == [s[0]] + s[1..];
      assert forall j :: 0 <= j < |rest| ==> !PathLt(rest[j], s[0]) by {
        forall j | 0 <= j < |rest| ensures !PathLt(rest[j], s[0]) {
          assert rest[j] in multiset(rest);
          assert rest[j] == x || rest[j] in multiset(s[1..]);
          if rest[j] == x {
            PathLtAsymmetric(s[0], x);
          } else {
            var k :| 0 <= k < |s[1..]| && s[1..][k] == rest[j];
            assert s[k + 1] == rest[j];
          }
        }
      }
      [s[0]] + rest
  }

  /** Python's `sorted` on a list of paths. */
  function Sorted(xs: seq<Path>): (r: seq<Path>)
    ensures Ordered(r) && multiset(r) == multiset(xs)
  {
    if xs == [] then []
    else
      assert xs == xs[..|xs| - 1] + [xs[|xs| - 1]];
      Insert(xs[|xs| - 1], Sorted(xs[..|xs| - 1]))
  }

  predicate Distinct(s: seq<Path>) {
    forall i, j :: 0 <= i < j < |s| ==> s[i] != s[j]
  }

  lemma {:induction false} SortedUnique(a: seq<Path>, b: seq<Path>)
    requires StrictlySorted(a) && StrictlySorted(b)
    requires forall x :: x in a <==> x in b
    ensures a == b
    decreases |a|
  {
    assert a == [] <==> b == [] by {
      if a != [] { assert a[0] in b; }
      if b != [] { assert b[0] in a; }
    }
    if a != [] {
      if a[0] != b[0] {
        assert b[0] in a;
        var i :| 0 <= i < |a| && a[i] == b[0];
        assert a[0] in b;
        var j :| 0 <= j < |b| && b[j] == a[0];
        assert PathLt(a[0], a[i]) && PathLt(b[0], b[j]);
        PathLtAsymmetric(a[0], b[0]);
      }
      forall x ensures x in a[1..] <==> x in b[1..] {
        if x in a[1..] {
          var i :| 0 <= i < |a[1..]| && a[1..][i] == x;
          assert PathLt(a[0], a[i + 1]);
          PathLtIrreflexive(x);
          assert x in b;
          assert x != b[0];
        }
        if x in b[1..] {
          var i :| 0 <= i < |b[1..]| && b[1..][i] == x;
          assert PathLt(b[0], b[i + 1]);
          PathLtIrreflexive(x);
          assert x in a;
          assert x != a[0];
        }
      }
      SortedUnique(a[1..], b[1..]);
      assert a == [a[0]] + a[1..] && b == [b[0]] + b[1..];
    }
  }

  /** Sorting any duplicate-free listing of a set gives the set's sorted
      enumeration, whatever order the listing came in. */
  lemma SortedListing(xs: seq<Path>, s: set<Path>)
    requires Distinct(xs)
    requires forall x :: x in xs <==> x in s
    ensures Sorted(xs) == SortSet(s)
  {
    var r := Sorted(xs);
    SortedDistinct(xs);
    forall x ensures x in r <==> x in s {
      assert x in r <==> x in multiset(r);
      assert x in xs <==> x in multiset(xs);
    }
    SortedUnique(r, SortSet(s));
  }

  lemma SortedDistinct(xs: seq<Path>)
    requires Distinct(xs)
    ensures StrictlySorted(Sorted(xs))
  {
    var r := Sorted(xs);
    forall i, j | 0 <= i < j < |r| ensures PathLt(r[i], r[j]) {
      PathLtTotal(r[i], r[j]);
      if r[i] == r[j] {
        TwoCopies(r, i, j);
        DistinctCount(xs, r[i]);
        assert false;
      }
    }
  }

  lemma TwoCopies(r: seq<Path>, i: nat, j: nat)
    requires i < j < |r| && r[i] == r[j]
    ensures multiset(r)[r[i]] >= 2
  {
    assert r == r[..j] + r[j..];
    assert multiset(r) == multiset(r[..j]) + multiset(r[j..]);
    assert r[..j][i] == r[i];
    assert r[i] in multiset(r[..j]);
    assert r[j..][0] == r[j];
    assert r[j] in multiset(r[j..]);
  }

  lemma {:induction false} DistinctCount(xs: seq<Path>, x: Path)
    requires Distinct(xs)
    ensures multiset(xs)[x] <= 1
    decreases |xs|
  {
    if xs != [] {
      assert xs == [xs[0]] + xs[1..];
      assert Distinct(xs[1..]) by {
        forall i, j | 0 <= i < j < |xs[1..]| ensures xs[1..][i] != xs[1..][j] {
          assert xs[1..][i] == xs[i + 1] && xs[1..][j] == xs[j + 1];
        }
      }
      DistinctCount(xs[1..], x);
      if x == xs[0] {
        forall k | 0 <= k < |xs[1..]| ensures xs[1..][k] != x {
          assert xs[1..][k] == xs[k + 1];
        }
        assert x !in xs[1..];
        assert multiset(xs[1..])[x] == 0;
      }
    }
  }
}
