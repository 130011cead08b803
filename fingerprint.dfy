/** The content fingerprint of a file or a directory tree: a file hashed in
    chunks, a directory hashed over its files' relative paths and file hashes
    in sorted path order. */
module Fingerprint {
  import opened Common
  import opened PathOrder
  import opened FileSystems
  import Utf8

  /** A hashlib algorithm, by name, applied to a whole byte string, giving its
      hex digest. The hash functions themselves are not modelled. */
  type Digest = (string, seq<byte>) -> string

  /** The chunk size a file is read with unless the caller gives another. */
  const DefaultChunkSize := 8192

  /** A hashlib hash object: what it has been fed so far. */
  class RunningDigest {
    const algorithm: string
    const digest: Digest
    var fed: seq<byte>

    constructor (algorithm: string, digest: Digest)
      ensures this.algorithm == algorithm && this.digest == digest && fed == []
    {
      this.algorithm := algorithm;
      this.digest := digest;
      fed := [];
    }

    method Update(data: seq<byte>)
      modifies this
      ensures fed == old(fed) + data
    {
      fed := fed + data;
    }

    function HexDigest(): string
      reads this
    {
      digest(algorithm, fed)
    }
  }

  /** `f.read(n)` on a file positioned at `pos`: at most `n` bytes, all of the
      rest when `n` is negative, nothing when `n` is 0 or at the end. */
  function Read(content: seq<byte>, pos: nat, n: int): (chunk: seq<byte>)
    requires pos <= |content|
    ensures pos + |chunk| <= |content| && chunk == content[pos..pos + |chunk|]
    ensures chunk == [] <==> n == 0 || pos == |content|
    ensures n < 0 ==> pos + |chunk| == |content|
  {
    if n < 0 || pos + n > |content| then content[pos..] else content[pos..pos + n]
  }

  /** The message of the OSError `open(p, "rb")` raises on what is not a
      regular file. */
  function OpenError(fs: FileSystem, p: Path): string {
    if !Exists(fs, p) then "[Errno 2] No such file or directory: '" + Show(p) + "'"
    else if IsDir(fs, p) then "[Errno 21] Is a directory: '" + Show(p) + "'"
    else "[Errno 6] No such device or address: '" + Show(p) + "'"
  }

  /** `p` lies strictly inside directory `d`. */
  predicate Below(d: Path, p: Path) {
    |d| < |p| && p[..|d|] == d
  }

  /** The regular files anywhere under `d`: what `rglob("*")` filtered by
      `is_file()` lists. */
  function FilesUnder(fs: FileSystem, d: Path): set<Path> {
    set q | q in fs.Keys && InDir(fs, d, q)
  }

  /** The directory's files in path order, each of them a file under it. */
  lemma SortedFilesInDir(fs: FileSystem, d: Path)
    ensures forall i :: 0 <= i < |SortSet(FilesUnder(fs, d))| ==> InDir(fs, d, SortSet(FilesUnder(fs, d))[i])
  {
    var files := SortSet(FilesUnder(fs, d));
    forall i | 0 <= i < |files| ensures InDir(fs, d, files[i]) { assert files[i] in FilesUnder(fs, d); }
  }

  /** `q` is a regular file strictly under `d`. */
  predicate InDir(fs: FileSystem, d: Path, q: Path) {
    Below(d, q) && IsFile(fs, q)
  }

  function FileDigest(fs: FileSystem, p: Path, digest: Digest, algorithm: string): string
    requires IsFile(fs, p)
  {
    digest(algorithm, fs[p].content)
  }

  /** What one file contributes to its directory's digest: its path relative to
      the directory, then its own hex digest, each UTF-8 encoded. */
  function EntryFeed(fs: FileSystem, d: Path, q: Path, digest: Digest, algorithm: string): seq<byte>
    requires InDir(fs, d, q)
  {
    Utf8.Encode(Show(q[|d|..])) + Utf8.Encode(FileDigest(fs, q, digest, algorithm))
  }

  /** The bytes fed for the files `qs`, in that order. */
  function Feed(fs: FileSystem, d: Path, qs: seq<Path>, digest: Digest, algorithm: string): seq<byte>
    requires forall i :: 0 <= i < |qs| ==> InDir(fs, d, qs[i])
  {
    if qs == [] then []
    else Feed(fs, d, qs[..|qs| - 1], digest, algorithm) + EntryFeed(fs, d, qs[|qs| - 1], digest, algorithm)
  }

  /** The bytes a directory's digest is computed over: its files in path order. */
  function DirFeed(fs: FileSystem, d: Path, digest: Digest, algorithm: string): seq<byte> {
    SortedFilesInDir(fs, d);
    Feed(fs, d, SortSet(FilesUnder(fs, d)), digest, algorithm)
  }

  /** The fingerprint of whatever `p` names, or the error raised instead. */
  function ArtifactHash(fs: FileSystem, p: Path, digest: Digest, algorithm: string): Result<string, string> {
    if IsFile(fs, p) then Ok(FileDigest(fs, p, digest, algorithm))
    else if IsDir(fs, p) then Ok(digest(algorithm, DirFeed(fs, p, digest, algorithm)))
    else Err("Path does not exist or is not a file/directory: " + Show(p))
  }

  /** Hashes a file by reading it in chunks of `chunkSize` bytes. Any non-zero
      chunk size gives the digest of the whole content. */
  method CalculateFileHash(fs: FileSystem, p: Path, digest: Digest, algorithm: string, chunkSize: int)
    returns (r: Result<string, string>)
    ensures IsFile(fs, p) && chunkSize != 0 ==> r == Ok(FileDigest(fs, p, digest, algorithm))
    ensures IsFile(fs, p) && chunkSize == 0 ==> r == Ok(digest(algorithm, []))
    ensures !IsFile(fs, p) ==> r == Err(OpenError(fs, p))
  {
    var h := new RunningDigest(algorithm, digest);
    if !IsFile(fs, p) {
      return Err(OpenError(fs, p));
    }
    var content := fs[p].content;
    var pos := 0;
    var chunk := Read(content, pos, chunkSize);
    while chunk != []
      invariant 0 <= pos <= |content| && chunk == Read(content, pos, chunkSize)
      invariant h.fed == content[..pos] && h.algorithm == algorithm && h.digest == digest
      invariant chunkSize == 0 ==> pos == 0
      decreases |content| - pos
    {
      h.Update(chunk);
      assert content[..pos] + chunk == content[..pos + |chunk|];
      pos := pos + |chunk|;
      chunk := Read(content, pos, chunkSize);
    }
    assert chunkSize != 0 ==> content[..pos] == content;
    return Ok(h.HexDigest());
  }

  /** `rglob("*")`: every entry strictly under `d`, once each, in an order the
      operating system chooses. */
  method Rglob(fs: FileSystem, d: Path) returns (xs: seq<Path>)
    ensures Distinct(xs)
    ensures forall q :: q in xs <==> q in fs && Below(d, q)
  {
    var left := set q | q in fs.Keys && Below(d, q);
    xs := [];
    while left != {}
      invariant forall q :: q in left ==> q in fs && Below(d, q)
      invariant forall q :: q in xs <==> q in fs && Below(d, q) && q !in left
      invariant Distinct(xs)
      decreases |left|
    {
      var q :| q in left;
      xs := xs + [q];
      left := left - {q};
    }
  }

  /** The entries of `xs` that are regular files, in their order. */
  function OnlyFiles(fs: FileSystem, xs: seq<Path>): (r: seq<Path>)
    requires Distinct(xs)
    ensures Distinct(r)
    ensures forall q :: q in r <==> q in xs && IsFile(fs, q)
  {
    if xs == [] then []
    else
      assert Distinct(xs[1..]) by {
        forall i, j | 0 <= i < j < |xs[1..]| ensures xs[1..][i] != xs[1..][j] {
          assert xs[1..][i] == xs[i + 1] && xs[1..][j] == xs[j + 1];
        }
      }
      assert xs[0] !in xs[1..] by {
        forall k | 0 <= k < |xs[1..]| ensures xs[1..][k] != xs[0] { assert xs[1..][k] == xs[k + 1]; }
      }
      assert forall q :: q in xs <==> q == xs[0] || q in xs[1..] by {
        assert xs == [xs[0]] + xs[1..];
      }
      (if IsFile(fs, xs[0]) then [xs[0]] else []) + OnlyFiles(fs, xs[1..])
  }

  /** Hashes a directory: its files sorted by path, each contributing its
      relative path and its file hash. The result does not depend on the order
      in which the directory is listed. */
  method CalculateDirHash(fs: FileSystem, d: Path, digest: Digest, algorithm: string)
    returns (r: Result<string, string>)
    ensures IsDir(fs, d) ==> r == Ok(digest(algorithm, DirFeed(fs, d, digest, algorithm)))
    ensures !IsDir(fs, d) ==> r == Err("Not a directory: " + Show(d))
  {
    if !IsDir(fs, d) {
      return Err("Not a directory: " + Show(d));
    }
    var listing := Rglob(fs, d);
    var found := OnlyFiles(fs, listing);
    var files := Sorted(found);
    SortedListing(found, FilesUnder(fs, d));
    var hex := HashFiles(fs, d, files, digest, algorithm);
    return Ok(hex);
  }

  /** Feeds each file's relative path and file hash, in the order given, to a
      fresh hash object. */
  method HashFiles(fs: FileSystem, d: Path, files: seq<Path>, digest: Digest, algorithm: string)
    returns (hex: string)
    requires forall i :: 0 <= i < |files| ==> InDir(fs, d, files[i])
    ensures hex == digest(algorithm, Feed(fs, d, files, digest, algorithm))
  {
    var h := new RunningDigest(algorithm, digest);
    for i := 0 to |files|
      invariant h.fed == Feed(fs, d, files[..i], digest, algorithm)
      invariant h.algorithm == algorithm && h.digest == digest
    {
      HashEntry(h, fs, d, files[i]);
      FeedStep(fs, d, files, i, digest, algorithm);
    }
    assert files[..|files|] == files;
    return h.HexDigest();
  }

  /** Feeds one file's path relative to `d`, then its file hash. */
  method HashEntry(h: RunningDigest, fs: FileSystem, d: Path, q: Path)
    requires InDir(fs, d, q)
    modifies h
    ensures h.fed == old(h.fed) + EntryFeed(fs, d, q, h.digest, h.algorithm)
  {
    h.Update(Utf8.Encode(Show(q[|d|..])));
    var fileHash := CalculateFileHash(fs, q, h.digest, h.algorithm, DefaultChunkSize);
    h.Update(Utf8.Encode(fileHash.value));
  }

  lemma FeedStep(fs: FileSystem, d: Path, files: seq<Path>, i: nat, digest: Digest, algorithm: string)
    requires forall i :: 0 <= i < |files| ==> InDir(fs, d, files[i])
    requires i < |files|
    ensures Feed(fs, d, files[..i + 1], digest, algorithm)
              == Feed(fs, d, files[..i], digest, algorithm) + EntryFeed(fs, d, files[i], digest, algorithm)
  {
    assert files[..i + 1][..i] == files[..i];
  }

  /** Dispatches on what `p` is: a file, a directory, or an error. */
  method CalculateArtifactHash(fs: FileSystem, p: Path, digest: Digest, algorithm: string)
    returns (r: Result<string, string>)
    ensures r == ArtifactHash(fs, p, digest, algorithm)
    ensures r.Err? <==> !IsFile(fs, p) && !IsDir(fs, p)
  {
    if IsFile(fs, p) {
      r := CalculateFileHash(fs, p, digest, algorithm, DefaultChunkSize);
    } else if IsDir(fs, p) {
      r := CalculateDirHash(fs, p, digest, algorithm);
    } else {
      r := Err("Path does not exist or is not a file/directory: " + Show(p));
    }
  }

  /** The feed depends only on the listed files' contents. */
  lemma {:induction false} FeedCongruent(fs: FileSystem, fs': FileSystem, d: Path, qs: seq<Path>,
                                         digest: Digest, algorithm: string)
    requires forall i :: 0 <= i < |qs| ==> InDir(fs, d, qs[i]) && InDir(fs', d, qs[i])
    requires forall i :: 0 <= i < |qs| ==> qs[i] in fs && qs[i] in fs' && fs'[qs[i]] == fs[qs[i]]
    ensures Feed(fs', d, qs, digest, algorithm) == Feed(fs, d, qs, digest, algorithm)
    decreases |qs|
  {
    if qs != [] {
      FeedCongruent(fs, fs', d, qs[..|qs| - 1], digest, algorithm);
    }
  }

  /** Creating directories changes no fingerprint of anything that already
      existed: empty directories contribute nothing to a directory's digest. */
  lemma AddingDirsKeepsHash(fs: FileSystem, fs': FileSystem, p: Path, digest: Digest, algorithm: string)
    requires AddsOnlyDirs(fs, fs')
    requires Exists(fs, p)
    ensures ArtifactHash(fs', p, digest, algorithm) == ArtifactHash(fs, p, digest, algorithm)
  {
    if !IsFile(fs, p) && IsDir(fs, p) {
      assert FilesUnder(fs', p) == FilesUnder(fs, p) by {
        forall q | q in FilesUnder(fs', p) ensures q in FilesUnder(fs, p) {
        }
      }
      var qs := SortSet(FilesUnder(fs, p));
      assert forall i :: 0 <= i < |qs| ==> InDir(fs, p, qs[i]) && InDir(fs', p, qs[i]) by {
        forall i | 0 <= i < |qs| ensures InDir(fs, p, qs[i]) && InDir(fs', p, qs[i]) {
          assert qs[i] in FilesUnder(fs, p);
        }
      }
      FeedCongruent(fs, fs', p, qs, digest, algorithm);
    }
  }

  lemma EncodeCancel(a: seq<byte>, b: seq<byte>, x: seq<byte>, y: seq<byte>)
    requires a + x == b + y && |a| == |b|
    ensures a == b && x == y
  {
    assert a == (a + x)[..|a|] && b == (b + y)[..|b|];
    assert x == (a + x)[|a|..] && y == (b + y)[|b|..];
  }

  /** A directory without regular files under it, however many subdirectories
      it holds, is hashed over no bytes at all. */
  lemma EmptyDirFeed(fs: FileSystem, d: Path, digest: Digest, algorithm: string)
    requires FilesUnder(fs, d) == {}
    ensures DirFeed(fs, d, digest, algorithm) == []
  {
    assert SortSet(FilesUnder(fs, d)) == [];
  }

  /** A directory holding a single file, whose digest only depends on its
      relative path and its hash. */
  lemma SingleFileFeed(fs: FileSystem, d: Path, q: Path, digest: Digest, algorithm: string)
    requires FilesUnder(fs, d) == {q}
    ensures DirFeed(fs, d, digest, algorithm)
              == Utf8.Encode(Show(q[|d|..])) + Utf8.Encode(FileDigest(fs, q, digest, algorithm))
  {
    var qs := SortSet(FilesUnder(fs, d));
    assert |qs| == 1 && qs[0] == q;
    assert qs == [q] && qs[..0] == [];
    assert Feed(fs, d, qs, digest, algorithm) == Feed(fs, d, [], digest, algorithm) + EntryFeed(fs, d, q, digest, algorithm);
  }

  /** Renaming the only file of a directory changes the bytes its digest is
      computed over, even when the content stays the same. */
  lemma RenameChangesFeed(fs1: FileSystem, fs2: FileSystem, d: Path, q1: Path, q2: Path,
                          digest: Digest, algorithm: string)
    requires FilesUnder(fs1, d) == {q1} && FilesUnder(fs2, d) == {q2}
    requires ValidPath(q1) && ValidPath(q2) && q1 != q2
    requires fs1[q1] == fs2[q2]
    ensures DirFeed(fs1, d, digest, algorithm) != DirFeed(fs2, d, digest, algorithm)
  {
    SingleFileFeed(fs1, d, q1, digest, algorithm);
    SingleFileFeed(fs2, d, q2, digest, algorithm);
    var r1, r2 := q1[|d|..], q2[|d|..];
    assert q1 == d + r1 && q2 == d + r2;
    assert ValidPath(r1) && ValidPath(r2) by {
      forall i | 0 <= i < |r1| ensures ValidPart(r1[i]) { assert r1[i] == q1[|d| + i]; }
      forall i | 0 <= i < |r2| ensures ValidPart(r2[i]) { assert r2[i] == q2[|d| + i]; }
    }
    ShowValid(r1);
    ShowValid(r2);
    var h := Utf8.Encode(FileDigest(fs1, q1, digest, algorithm));
    if DirFeed(fs1, d, digest, algorithm) == DirFeed(fs2, d, digest, algorithm) {
      var e1, e2 := Utf8.Encode(Show(r1)), Utf8.Encode(Show(r2));
      assert e1 + h == e2 + h;
      assert |e1| == |e2|;
      EncodeCancel(e1, e2, h, h);
      Utf8.Injective(Show(r1), Show(r2));
    }
  }

  /** Changing the hash of the only file of a directory changes the bytes the
      directory's digest is computed over. */
  lemma ContentChangesFeed(fs1: FileSystem, fs2: FileSystem, d: Path, q: Path,
                           digest: Digest, algorithm: string)
    requires FilesUnder(fs1, d) == {q} && FilesUnder(fs2, d) == {q}
    requires FileDigest(fs1, q, digest, algorithm) != FileDigest(fs2, q, digest, algorithm)
    ensures DirFeed(fs1, d, digest, algorithm) != DirFeed(fs2, d, digest, algorithm)
  {
    SingleFileFeed(fs1, d, q, digest, algorithm);
    SingleFileFeed(fs2, d, q, digest, algorithm);
    var name := Utf8.Encode(Show(q[|d|..]));
    var h1 := Utf8.Encode(FileDigest(fs1, q, digest, algorithm));
    var h2 := Utf8.Encode(FileDigest(fs2, q, digest, algorithm));
    if DirFeed(fs1, d, digest, algorithm) == DirFeed(fs2, d, digest, algorithm) {
      EncodeCancel(name, name, h1, h2);
      Utf8.Injective(FileDigest(fs1, q, digest, algorithm), FileDigest(fs2, q, digest, algorithm));
    }
  }
}
