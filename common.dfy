/** Values shared by every layer of the engine model: optional values, results
    carrying an error, bytes, and relative filesystem paths as pathlib sees them. */
module Common {

  datatype Option<+T> = None | Some(value: T) {
    function GetOr(default: T): T {
      match this
      case Some(v) => v
      case None => default
    }
  }

  /** A value, or the error that the source raises instead of returning one. */
  datatype Result<+T, +E> = Ok(value: T) | Err(error: E)

  newtype byte = x: int | 0 <= x < 256

  /** A path relative to the working directory, as the list of its parts
      (pathlib's `parts`). The empty list is `Path(".")`. */
  type Path = seq<string>

  /** A part as pathlib keeps it: not empty, not ".", without a separator. */
  predicate ValidPart(c: string) {
    c != "" && c != "." && '/' !in c
  }

  predicate ValidPath(p: Path) {
    forall i :: 0 <= i < |p| ==> ValidPart(p[i])
  }

  /** The parts pathlib makes of a POSIX path string: split on '/', dropping
      empty and "." parts. */
  function Split(s: string): (p: Path)
    ensures ValidPath(p)
  {
    SplitFrom(s, "")
  }

  function PartOf(cur: string): (p: Path)
    requires '/' !in cur
    ensures ValidPath(p)
  {
    if cur == "" || cur == "." then [] else [cur]
  }

  function SplitFrom(s: string, cur: string): (p: Path)
    requires '/' !in cur
    ensures ValidPath(p)
    decreases |s|
  {
    if s == [] then PartOf(cur)
    else if s[0] == '/' then PartOf(cur) + SplitFrom(s[1..], "")
    else SplitFrom(s[1..], cur + [s[0]])
  }

  /** The parts joined with '/'. */
  function Join(p: Path): string {
    if p == [] then ""
    else if |p| == 1 then p[0]
    else p[0] + "/" + Join(p[1..])
  }

  /** `str()` of a relative path: "." for the empty path. */
  function Show(p: Path): (s: string)
    ensures s != ""
  {
    if p == [] then "." else if Join(p) == "" then "." else Join(p)
  }

  /** `os.path.normpath` of a relative path string, without ".." collapsing. */
  function NormPath(s: string): string {
    Show(Split(s))
  }

  /** The separator heuristic: neither '/' nor '\\' occurs in the string. */
  predicate HasSeparator(s: string) {
    '/' in s || '\\' in s
  }

  lemma {:induction false} SplitFromPart(s: string, cur: string)
    requires '/' !in s && '/' !in cur
    ensures SplitFrom(s, cur) == PartOf(cur + s)
    decreases |s|
  {
    if s != [] {
      assert s[0] != '/' by { assert s[0] in s; }
      assert '/' !in cur + [s[0]];
      assert '/' !in s[1..] by {
        forall i | 0 <= i < |s[1..]| ensures s[1..][i] != '/' { assert s[1..][i] == s[i + 1]; }
      }
      SplitFromPart(s[1..], cur + [s[0]]);
      assert cur + [s[0]] + s[1..] == cur + s;
    } else {
      assert cur + s == cur;
    }
  }

  lemma {:induction false} SplitFromSlash(a: string, rest: string)
    requires '/' !in a
    ensures SplitFrom(a + "/" + rest, "") == PartOf(a) + SplitFrom(rest, "")
  {
    SplitFromPrefix(a, "", "/" + rest);
    assert a + "/" + rest == a + ("/" + rest);
    assert ("/" + rest)[1..] == rest;
    assert "" + a == a;
  }

  lemma {:induction false} SplitFromPrefix(a: string, cur: string, rest: string)
    requires '/' !in a && '/' !in cur
    requires rest != [] && rest[0] == '/'
    ensures SplitFrom(a + rest, cur) == PartOf(cur + a) + SplitFrom(rest[1..], "")
    decreases |a|
  {
    if a == [] {
      assert a + rest == rest;
      assert cur + a == cur;
    } else {
      assert a[0] != '/' by { assert a[0] in a; }
      assert (a + rest)[0] == a[0];
      assert (a + rest)[1..] == a[1..] + rest;
      assert '/' !in a[1..] by {
        forall i | 0 <= i < |a[1..]| ensures a[1..][i] != '/' { assert a[1..][i] == a[i + 1]; }
      }
      assert '/' !in cur + [a[0]];
      SplitFromPrefix(a[1..], cur + [a[0]], rest);
      assert cur + [a[0]] + a[1..] == cur + a;
    }
  }

  /** Round trip: pathlib parses the string of a path back into the same parts. */
  lemma {:induction false} SplitJoin(p: Path)
    requires ValidPath(p)
    ensures Split(Join(p)) == p
    decreases |p|
  {
    if p == [] {
    } else if |p| == 1 {
      SplitFromPart(p[0], "");
      assert "" + p[0] == p[0];
    } else {
      assert ValidPart(p[0]);
      assert ValidPath(p[1..]) by {
        forall i | 0 <= i < |p[1..]| ensures ValidPart(p[1..][i]) { assert p[1..][i] == p[i + 1]; }
      }
      SplitFromSlash(p[0], Join(p[1..]));
      SplitJoin(p[1..]);
    }
  }

  lemma ShowValid(p: Path)
    requires ValidPath(p)
    ensures Split(Show(p)) == p
  {
    SplitJoin(p);
    if p == [] {
      assert SplitFrom(".", "") == SplitFrom("", ".");
    } else {
      assert ValidPart(p[0]);
      assert |p| == 1 || Join(p) == p[0] + ("/" + Join(p[1..]));
      assert Join(p) != "";
    }
  }
}
