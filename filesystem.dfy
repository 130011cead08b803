/** The filesystem the engine reads and writes, as a map from relative path to
    node, and `Path.mkdir(parents=True, exist_ok=True)` on it. */
module FileSystems {
  import opened Common

  /** A regular file, a directory, or anything else that exists (a socket, a
      device): pathlib's `exists()` holds of it but neither `is_file()` nor
      `is_dir()` does. */
  datatype Node = File(content: seq<byte>) | Dir | Special

  type FileSystem = map<Path, Node>

  /** The working directory, `Path(".")`, always exists as a directory. */
  predicate Exists(fs: FileSystem, p: Path) {
    p == [] || p in fs
  }

  predicate IsFile(fs: FileSystem, p: Path) {
    p != [] && p in fs && fs[p].File?
  }

  predicate IsDir(fs: FileSystem, p: Path) {
    p == [] || (p in fs && fs[p].Dir?)
  }

  /** `Path.parent`: the parent of "." is ".". */
  function Parent(p: Path): Path {
    if p == [] then [] else p[..|p| - 1]
  }

  /** `fs'` differs from `fs` only by directories created where nothing was. */
  ghost predicate AddsOnlyDirs(fs: FileSystem, fs': FileSystem) {
    && fs.Keys <= fs'.Keys
    && (forall p :: p in fs ==> fs'[p] == fs[p])
    && (forall p :: p in fs' && p !in fs ==> fs'[p] == Dir)
  }

  lemma AddsOnlyDirsTrans(a: FileSystem, b: FileSystem, c: FileSystem)
    requires AddsOnlyDirs(a, b) && AddsOnlyDirs(b, c)
    ensures AddsOnlyDirs(a, c)
  {
  }

  /** `p.mkdir(parents=True, exist_ok=True)`: creates the missing directories on
      the way to `p`; fails when `p` or one of its ancestors exists and is not a
      directory. */
  function MakeDirs(fs: FileSystem, p: Path): (r: Result<FileSystem, string>)
    ensures r.Ok? ==> AddsOnlyDirs(fs, r.value) && IsDir(r.value, p)
    decreases |p|
  {
    if p == [] then Ok(fs)
    else if p in fs then
      if fs[p].Dir? then Ok(fs) else Err("[Errno 17] File exists: '" + Show(p) + "'")
    else if Exists(fs, Parent(p)) && !IsDir(fs, Parent(p)) then
      Err("[Errno 20] Not a directory: '" + Show(p) + "'")
    else
      match MakeDirs(fs, Parent(p))
      case Err(e) => Err(e)
      case Ok(fs') => Ok(fs'[p := Dir])
  }

  /** The directories MakeDirs creates are `p` and its ancestors. */
  lemma {:induction false} MakeDirsOnlyPrefixes(fs: FileSystem, p: Path)
    requires MakeDirs(fs, p).Ok?
    ensures forall q :: q in MakeDirs(fs, p).value && q !in fs ==> q <= p
    decreases |p|
  {
    if p != [] && p !in fs {
      MakeDirsOnlyPrefixes(fs, Parent(p));
    }
  }

  /** `exist_ok=True`: creating the same directories twice changes nothing the
      second time. */
  lemma MakeDirsIdempotent(fs: FileSystem, p: Path)
    requires MakeDirs(fs, p).Ok?
    ensures MakeDirs(MakeDirs(fs, p).value, p) == MakeDirs(fs, p)
  {
    var fs' := MakeDirs(fs, p).value;
    assert IsDir(fs', p);
  }

  /** MakeDirs fails exactly when the deepest prefix of `p` that exists is a
      non-empty path and not a directory. */
  lemma {:induction false} MakeDirsFails(fs: FileSystem, p: Path)
    ensures MakeDirs(fs, p).Err? <==>
              exists k :: 1 <= k <= |p| && p[..k] in fs && !fs[p[..k]].Dir? && Absent(fs, p, k)
    decreases |p|
  {
    if p == [] {
    } else if p in fs {
      assert p[..|p|] == p;
      if fs[p].Dir? {
        forall k | 1 <= k < |p| ensures !Absent(fs, p, k) {
          assert p[..|p|] in fs;
        }
      }
    } else {
      var q := Parent(p);
      forall j | 0 <= j <= |q| ensures q[..j] == p[..j] { }
      assert p[..|p|] == p;
      if Exists(fs, q) && !IsDir(fs, q) {
        assert q == p[..|q|];
        assert Absent(fs, p, |q|);
      } else {
        MakeDirsFails(fs, q);
        forall k | 1 <= k <= |q| ensures Absent(fs, q, k) <==> Absent(fs, p, k) {
          if Absent(fs, q, k) {
            forall j | k < j <= |p| ensures p[..j] !in fs {
              if j <= |q| { assert p[..j] == q[..j]; }
            }
          }
        }
        if MakeDirs(fs, p).Err? {
          var k :| 1 <= k <= |q| && q[..k] in fs && !fs[q[..k]].Dir? && Absent(fs, q, k);
          assert p[..k] == q[..k];
        } else {
          forall k | 1 <= k <= |p| && p[..k] in fs && Absent(fs, p, k) ensures fs[p[..k]].Dir? {
            assert k <= |q|;
            assert p[..k] == q[..k];
          }
        }
      }
    }
  }

  /** No prefix of `p` longer than `k` parts exists. */
  predicate Absent(fs: FileSystem, p: Path, k: nat)
    requires k <= |p|
  {
    forall j :: k < j <= |p| ==> p[..j] !in fs
  }

  /** The world outside the engine: the filesystem, changed in place by stage
      handlers and by directory creation. */
  class Disk {
    var fs: FileSystem

    constructor (fs: FileSystem)
      ensures this.fs == fs
    {
      this.fs := fs;
    }
  }
}
