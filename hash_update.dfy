/** `update_output_hashes`: after a stage runs in experiment mode, the hash of
    every file it declared (directly, or inside a declared directory) is
    written to its ledger entry. */
module HashUpdate {
  import opened Common
  import opened Records
  import opened FileSystems
  import opened Fingerprint
  import opened Validation
  import opened Scope
  import opened PathOrder

  /** The order in which the operating system lists everything under a
      directory, as `rglob("*")` yields it. */
  type Lister = (FileSystem, Path) -> seq<Path>

  /** A listing names every entry under the directory exactly once. */
  ghost predicate ValidLister(rglob: Lister) {
    forall fs: FileSystem, d: Path :: Lists(rglob, fs, d)
  }

  /** The listing of `d` in `fs` names every entry under `d` exactly once. */
  ghost predicate Lists(rglob: Lister, fs: FileSystem, d: Path) {
    Distinct(rglob(fs, d)) && forall q :: q in rglob(fs, d) <==> q in fs && Below(d, q)
  }

  /** A declaration as hash recording reads it: its path, the scope the shared
      heuristic gives it, and its hash method. */
  datatype Target = Target(path: string, shared: bool, hashMethod: string)

  function UpdateTarget(decl: OutputDecl): (t: Option<Target>)
    ensures t.None? <==> decl.OtherDecl?
    ensures t.Some? ==> Some(t.value.path) == GetOutputScopeAndPath(decl).0
    ensures t.Some? ==> t.value.shared == GetOutputScopeAndPath(decl).1
    ensures decl.PathDecl? ==> t.value.hashMethod == Sha256
    ensures decl.DictDecl? ==> t.value.hashMethod == decl.artifact.hashMethod.GetOr(Sha256)
  {
    match decl
    case PathDecl(p) => Some(Target(p, !HasSeparator(p), Sha256))
    case DictDecl(a) =>
      var shared := if a.shared.Some? then a.shared.value else a.path != "" && !HasSeparator(a.path);
      Some(Target(a.path, shared, a.hashMethod.GetOr(Sha256)))
    case OtherDecl => None
  }

  /** The ledger entry written for one hashed file. */
  function Entry(key: string, hash: string, t: Target): Artifact {
    Artifact(key, None, Some(t.shared), None, Some(hash), Some(t.hashMethod))
  }

  /** The entries for the files of a declared directory, keyed by their path
      relative to the scope's base directory. */
  function DirEntries(fs: FileSystem, files: seq<Path>, base: Path, t: Target, digest: Digest): (r: seq<Artifact>)
    requires forall i :: 0 <= i < |files| ==> IsFile(fs, files[i]) && base <= files[i]
    ensures |r| == |files|
  {
    if files == [] then []
    else
      var q := files[|files| - 1];
      DirEntries(fs, files[..|files| - 1], base, t, digest)
        + [Entry(Show(q[|base|..]), FileDigest(fs, q, digest, t.hashMethod), t)]
  }

  /** The files `rglob` lists under a resolved output, in its order. */
  function Listed(fs: FileSystem, resolved: Path, rglob: Lister): (r: seq<Path>)
    requires ValidLister(rglob)
    ensures forall i :: 0 <= i < |r| ==> IsFile(fs, r[i]) && Below(resolved, r[i])
  {
    assert Lists(rglob, fs, resolved);
    var r := OnlyFiles(fs, rglob(fs, resolved));
    assert forall i :: 0 <= i < |r| ==> r[i] in r;
    r
  }

  /** One declaration: the entries it records and the file system after its
      parent directory was created. A declaration without a path, whose parent
      cannot be created, or whose path does not exist records nothing. */
  function UpdateDecl(fs: FileSystem, decl: OutputDecl, active: Path, sharedDir: Path, digest: Digest,
                      rglob: Lister): (r: (seq<Artifact>, FileSystem))
    requires ValidLister(rglob)
  {
    match UpdateTarget(decl)
    case None => ([], fs)
    case Some(t) =>
      if t.path == "" then ([], fs)
      else
        var base := Base(t.shared, active, sharedDir);
        var resolved := base + Split(t.path);
        match MakeDirs(fs, Parent(resolved))
        case Err(_) => ([], fs)
        case Ok(fs') =>
          if !Exists(fs', resolved) then ([], fs')
          else if IsFile(fs', resolved) then
            ([Entry(Show(Split(t.path)), FileDigest(fs', resolved, digest, t.hashMethod), t)], fs')
          else if IsDir(fs', resolved) then
            var files := Listed(fs', resolved, rglob);
            assert forall i :: 0 <= i < |files| ==> base <= files[i] by {
              forall i | 0 <= i < |files| ensures base <= files[i] {
                assert files[i][..|resolved|] == resolved;
              }
            }
            (DirEntries(fs', files, base, t, digest), fs')
          else ([], fs')
  }

  /** The declarations in order, each seeing the file system the previous
      ones left. */
  function UpdateAll(fs: FileSystem, decls: seq<OutputDecl>, active: Path, sharedDir: Path, digest: Digest,
                     rglob: Lister): (r: (seq<Artifact>, FileSystem))
    requires ValidLister(rglob)
  {
    if decls == [] then ([], fs)
    else
      var (es, fs') := UpdateAll(fs, decls[..|decls| - 1], active, sharedDir, digest, rglob);
      var (more, fs'') := UpdateDecl(fs', decls[|decls| - 1], active, sharedDir, digest, rglob);
      (es + more, fs'')
  }

  /** The ledger after `update_artifact` for each entry in turn. */
  function Recorded(ledger: map<string, StageRecord>, stageId: string, entries: seq<Artifact>)
    : map<string, StageRecord>
  {
    if entries == [] then ledger
    else
      var e := entries[|entries| - 1];
      WithArtifact(Recorded(ledger, stageId, entries[..|entries| - 1]), stageId, e.path, e)
  }

  /** The `(path, hash)` pairs the call returns. */
  function Pairs(entries: seq<Artifact>): (r: seq<(string, string)>)
    ensures |r| == |entries|
    ensures forall i :: 0 <= i < |r| ==> r[i] == (entries[i].path, entries[i].hash.GetOr(""))
  {
    if entries == [] then [] else Pairs(entries[..|entries| - 1]) + [(entries[|entries| - 1].path,
                                                                   entries[|entries| - 1].hash.GetOr(""))]
  }

  lemma {:induction false} RecordedAppend(ledger: map<string, StageRecord>, stageId: string, a: seq<Artifact>,
                                          b: seq<Artifact>)
    ensures Recorded(ledger, stageId, a + b) == Recorded(Recorded(ledger, stageId, a), stageId, b)
    decreases |b|
  {
    if b == [] {
      assert a + b == a;
    } else {
      RecordedAppend(ledger, stageId, a, b[..|b| - 1]);
      assert (a + b)[..|a + b| - 1] == a + b[..|b| - 1];
    }
  }

  lemma {:induction false} PairsAppend(a: seq<Artifact>, b: seq<Artifact>)
    ensures Pairs(a + b) == Pairs(a) + Pairs(b)
  {
    assert |Pairs(a + b)| == |Pairs(a) + Pairs(b)|;
    forall i | 0 <= i < |a + b| ensures Pairs(a + b)[i] == (Pairs(a) + Pairs(b))[i] {
      if i >= |a| {
        assert (a + b)[i] == b[i - |a|];
      }
    }
  }

  lemma UpdateAllStep(fs: FileSystem, decls: seq<OutputDecl>, i: nat, active: Path, sharedDir: Path,
                      digest: Digest, rglob: Lister)
    requires ValidLister(rglob) && i < |decls|
    ensures var (es, fs') := UpdateAll(fs, decls[..i], active, sharedDir, digest, rglob);
            var (more, fs'') := UpdateDecl(fs', decls[i], active, sharedDir, digest, rglob);
            UpdateAll(fs, decls[..i + 1], active, sharedDir, digest, rglob) == (es + more, fs'')
  {
    assert decls[..i + 1][..i] == decls[..i];
  }

  lemma DirEntriesStep(fs: FileSystem, files: seq<Path>, j: nat, base: Path, t: Target, digest: Digest)
    requires forall i :: 0 <= i < |files| ==> IsFile(fs, files[i]) && base <= files[i]
    requires j < |files|
    ensures DirEntries(fs, files[..j + 1], base, t, digest) ==
              DirEntries(fs, files[..j], base, t, digest)
                + [Entry(Show(files[j][|base|..]), FileDigest(fs, files[j], digest, t.hashMethod), t)]
  {
    assert files[..j + 1][..j] == files[..j];
  }

  lemma RecordedStep(ledger: map<string, StageRecord>, stageId: string, entries: seq<Artifact>, e: Artifact)
    ensures Recorded(ledger, stageId, entries + [e]) == WithArtifact(Recorded(ledger, stageId, entries), stageId, e.path, e)
  {
    assert (entries + [e])[..|entries|] == entries;
  }

  /** After recording, each key's ledger entry carries the hash, method and
      scope of the last entry recorded under that key. A stage absent from the
      ledger stays absent. */
  lemma {:induction false} LedgerHoldsLastHash(ledger: map<string, StageRecord>, stageId: string,
                                               entries: seq<Artifact>, i: nat)
    requires i < |entries| && forall j :: i < j < |entries| ==> entries[j].path != entries[i].path
    ensures stageId in Recorded(ledger, stageId, entries) <==> stageId in ledger
    ensures stageId in ledger ==>
              var outs := Recorded(ledger, stageId, entries)[stageId].outputs;
              outs.Some? && Holds(outs.value, entries[i])
    decreases |entries|
  {
    var n := |entries| - 1;
    var prev := Recorded(ledger, stageId, entries[..n]);
    var e := entries[n];
    if i < n {
      LedgerHoldsLastHash(ledger, stageId, entries[..n], i);
    } else {
      RecordedKeepsStages(ledger, stageId, entries[..n]);
    }
    if stageId in ledger {
      UpsertHolds(prev[stageId].outputs.GetOr([]), e, entries[i]);
    }
  }

  lemma {:induction false} RecordedKeepsStages(ledger: map<string, StageRecord>, stageId: string,
                                               entries: seq<Artifact>)
    ensures Recorded(ledger, stageId, entries).Keys == ledger.Keys
    decreases |entries|
  {
    if entries != [] {
      RecordedKeepsStages(ledger, stageId, entries[..|entries| - 1]);
    }
  }

  // ------------------------------------------- recorded hashes re-validate

  /** Every declaration that names a hash method names sha256, the only
      algorithm validation re-hashes with. */
  predicate AllSha256(decls: seq<OutputDecl>) {
    forall i :: 0 <= i < |decls| && UpdateTarget(decls[i]).Some? ==> UpdateTarget(decls[i]).value.hashMethod == Sha256
  }

  ghost predicate ValidKeys(fs: FileSystem) {
    forall q :: q in fs ==> ValidPath(q)
  }

  /** The entry's file, at the location its scope and key give, is a regular
      file whose sha256 digest is the recorded hash. */
  ghost predicate Confirms(fs: FileSystem, e: Artifact, active: Path, sharedDir: Path, digest: Digest) {
    && e.shared.Some? && e.hash.Some?
    && var p := Base(e.shared.value, active, sharedDir) + Split(e.path);
       IsFile(fs, p) && FileDigest(fs, p, digest, Sha256) == e.hash.value
  }

  lemma ConfirmsKept(fs: FileSystem, fs': FileSystem, e: Artifact, active: Path, sharedDir: Path, digest: Digest)
    requires Confirms(fs, e, active, sharedDir, digest) && AddsOnlyDirs(fs, fs')
    ensures Confirms(fs', e, active, sharedDir, digest)
  {
  }

  lemma {:induction false} DirEntriesAt(fs: FileSystem, files: seq<Path>, base: Path, t: Target, digest: Digest,
                                        i: nat)
    requires forall i :: 0 <= i < |files| ==> IsFile(fs, files[i]) && base <= files[i]
    requires i < |files|
    ensures DirEntries(fs, files, base, t, digest)[i] ==
              Entry(Show(files[i][|base|..]), FileDigest(fs, files[i], digest, t.hashMethod), t)
    decreases |files|
  {
    if i < |files| - 1 {
      DirEntriesAt(fs, files[..|files| - 1], base, t, digest, i);
    }
  }

  /** A key computed from a file below the base directory names that file. */
  lemma KeyNamesFile(q: Path, base: Path)
    requires ValidPath(q) && base <= q
    ensures base + Split(Show(q[|base|..])) == q
  {
    ShowValid(q[|base|..]);
    assert q == q[..|base|] + q[|base|..];
  }

  lemma MakeDirsKeepsValidKeys(fs: FileSystem, p: Path)
    requires ValidKeys(fs) && ValidPath(p) && MakeDirs(fs, p).Ok?
    ensures ValidKeys(MakeDirs(fs, p).value)
  {
    MakeDirsOnlyPrefixes(fs, p);
    forall q | q in MakeDirs(fs, p).value ensures ValidPath(q) {
      if q !in fs {
        assert forall i :: 0 <= i < |q| ==> q[i] == p[i];
      }
    }
  }

  /** The files of a declared directory lie under the scope's base directory. */
  lemma ListedUnderBase(fs: FileSystem, resolved: Path, base: Path, rglob: Lister)
    requires ValidLister(rglob) && base <= resolved
    ensures forall i :: 0 <= i < |Listed(fs, resolved, rglob)| ==> base <= Listed(fs, resolved, rglob)[i]
  {
    var files := Listed(fs, resolved, rglob);
    forall i | 0 <= i < |files| ensures base <= files[i] {
      assert files[i][..|resolved|] == resolved;
    }
  }

  lemma DirEntriesConfirm(fs: FileSystem, resolved: Path, t: Target, active: Path, sharedDir: Path,
                          digest: Digest, rglob: Lister)
    requires ValidLister(rglob) && ValidKeys(fs) && t.hashMethod == Sha256
    requires Base(t.shared, active, sharedDir) <= resolved
    ensures var base := Base(t.shared, active, sharedDir);
            var files := Listed(fs, resolved, rglob);
            && (forall i :: 0 <= i < |files| ==> base <= files[i])
            && forall e :: e in DirEntries(fs, files, base, t, digest) ==> Confirms(fs, e, active, sharedDir, digest)
  {
    var base := Base(t.shared, active, sharedDir);
    var files := Listed(fs, resolved, rglob);
    ListedUnderBase(fs, resolved, base, rglob);
    var entries := DirEntries(fs, files, base, t, digest);
    forall e | e in entries ensures Confirms(fs, e, active, sharedDir, digest) {
      var i :| 0 <= i < |entries| && entries[i] == e;
      DirEntriesAt(fs, files, base, t, digest, i);
      KeyNamesFile(files[i], base);
    }
  }

  lemma {:induction false} UpdateDeclConfirms(fs: FileSystem, decl: OutputDecl, active: Path, sharedDir: Path,
                                              digest: Digest, rglob: Lister)
    requires ValidLister(rglob) && ValidKeys(fs) && ValidPath(active) && ValidPath(sharedDir)
    requires AllSha256([decl])
    ensures var (entries, fs') := UpdateDecl(fs, decl, active, sharedDir, digest, rglob);
            && AddsOnlyDirs(fs, fs') && ValidKeys(fs')
            && forall e :: e in entries ==> Confirms(fs', e, active, sharedDir, digest)
  {
    assert [decl][0] == decl;
    if UpdateTarget(decl).Some? && UpdateTarget(decl).value.path != "" {
      var t := UpdateTarget(decl).value;
      var base := Base(t.shared, active, sharedDir);
      var resolved := base + Split(t.path);
      if MakeDirs(fs, Parent(resolved)).Ok? {
        var fs' := MakeDirs(fs, Parent(resolved)).value;
        assert ValidPath(resolved);
        MakeDirsKeepsValidKeys(fs, Parent(resolved));
        if Exists(fs', resolved) && IsFile(fs', resolved) {
          ShowValid(Split(t.path));
        } else if Exists(fs', resolved) && IsDir(fs', resolved) {
          DirEntriesConfirm(fs', resolved, t, active, sharedDir, digest, rglob);
        }
      }
    }
  }

  lemma {:induction false} UpdateAllConfirms(fs: FileSystem, decls: seq<OutputDecl>, active: Path,
                                             sharedDir: Path, digest: Digest, rglob: Lister)
    requires ValidLister(rglob) && ValidKeys(fs) && ValidPath(active) && ValidPath(sharedDir)
    requires AllSha256(decls)
    ensures var (entries, fs') := UpdateAll(fs, decls, active, sharedDir, digest, rglob);
            && AddsOnlyDirs(fs, fs') && ValidKeys(fs')
            && forall e :: e in entries ==> Confirms(fs', e, active, sharedDir, digest)
    decreases |decls|
  {
    if decls != [] {
      var init := decls[..|decls| - 1];
      var last := decls[|decls| - 1];
      assert AllSha256(init);
      assert [last][0] == decls[|decls| - 1];
      UpdateAllConfirms(fs, init, active, sharedDir, digest, rglob);
      var (es, fs1) := UpdateAll(fs, init, active, sharedDir, digest, rglob);
      UpdateDeclConfirms(fs1, last, active, sharedDir, digest, rglob);
      var (more, fs2) := UpdateDecl(fs1, last, active, sharedDir, digest, rglob);
      AddsOnlyDirsTrans(fs, fs1, fs2);
      forall e | e in es ensures Confirms(fs2, e, active, sharedDir, digest) {
        ConfirmsKept(fs1, fs2, e, active, sharedDir, digest);
      }
    }
  }

  /** The round trip of hash recording and validation: every hash recorded for
      sha256 declarations validates as an exact match, whatever the validation
      type, against the filesystem the recording left. */
  lemma {:induction false} RecordedHashesValidate(fs: FileSystem, decls: seq<OutputDecl>, active: Path,
                                                  sharedDir: Path, digest: Digest, rglob: Lister,
                                                  validationType: string, tolAbs: Option<real>,
                                                  tolRel: Option<real>, threshold: Option<real>)
    requires ValidLister(rglob) && ValidKeys(fs) && ValidPath(active) && ValidPath(sharedDir)
    requires AllSha256(decls)
    ensures var (entries, fs') := UpdateAll(fs, decls, active, sharedDir, digest, rglob);
            forall e :: e in entries ==>
              && e.shared.Some? && e.hash.Some?
              && ValidateArtifact(fs', Base(e.shared.value, active, sharedDir) + Split(e.path), e.hash.value,
                                  validationType, tolAbs, tolRel, threshold, digest)
                 == Verdict(true, Text("Exact hash match"))
  {
    UpdateAllConfirms(fs, decls, active, sharedDir, digest, rglob);
  }

  // ------------------------------------------------------------ the methods

  method UpdateOutputHashes(disk: Disk, ledger: Ledger, stageId: string, decls: seq<OutputDecl>, active: Path,
                            sharedDir: Path, digest: Digest, rglob: Lister)
    returns (hashes: seq<(string, string)>)
    requires ValidLister(rglob)
    modifies disk, ledger
    ensures var (entries, fs') := UpdateAll(old(disk.fs), decls, active, sharedDir, digest, rglob);
            && disk.fs == fs'
            && hashes == Pairs(entries)
            && ledger.stages == Recorded(old(ledger.stages), stageId, entries)
            && ledger.persisted == old(ledger.persisted)
  {
    ghost var entries: seq<Artifact> := [];
    hashes := [];
    for i := 0 to |decls|
      invariant (entries, disk.fs) == UpdateAll(old(disk.fs), decls[..i], active, sharedDir, digest, rglob)
      invariant hashes == Pairs(entries)
      invariant ledger.stages == Recorded(old(ledger.stages), stageId, entries)
      invariant ledger.persisted == old(ledger.persisted)
    {
      UpdateAllStep(old(disk.fs), decls, i, active, sharedDir, digest, rglob);
      var added := HashDecl(disk, ledger, stageId, decls[i], active, sharedDir, digest, rglob);
      RecordedAppend(old(ledger.stages), stageId, entries, added);
      PairsAppend(entries, added);
      entries := entries + added;
      hashes := hashes + Pairs(added);
    }
    assert decls[..|decls|] == decls;
  }

  /** The body of the loop over declarations, for one declaration. */
  method HashDecl(disk: Disk, ledger: Ledger, stageId: string, decl: OutputDecl, active: Path, sharedDir: Path,
                  digest: Digest, rglob: Lister)
    returns (added: seq<Artifact>)
    requires ValidLister(rglob)
    modifies disk, ledger
    ensures (added, disk.fs) == UpdateDecl(old(disk.fs), decl, active, sharedDir, digest, rglob)
    ensures ledger.stages == Recorded(old(ledger.stages), stageId, added)
    ensures ledger.persisted == old(ledger.persisted)
  {
    added := [];
    var target := UpdateTarget(decl);
    if target.None? || target.value.path == "" {
      return;
    }
    var t := target.value;
    var made := ResolveOutputPath(disk, t.path, t.shared, active, sharedDir);
    if made.Err? {
      return;
    }
    var resolved := made.value;
    var base := Base(t.shared, active, sharedDir);
    if !Exists(disk.fs, resolved) {
      return;
    }
    if IsFile(disk.fs, resolved) {
      var h := CalculateArtifactHash(disk.fs, resolved, digest, t.hashMethod);
      assert resolved[|base|..] == Split(t.path);
      var key := Show(resolved[|base|..]);
      var entry := Entry(key, h.value, t);
      ledger.UpdateArtifact(stageId, key, entry);
      added := [entry];
      assert [entry][..0] == [];
    } else if IsDir(disk.fs, resolved) {
      added := HashDirectory(disk.fs, ledger, stageId, resolved, base, t, digest, rglob);
    }
  }

  /** Records every file `rglob` lists under a declared directory. */
  method HashDirectory(fs: FileSystem, ledger: Ledger, stageId: string, resolved: Path, base: Path, t: Target,
                       digest: Digest, rglob: Lister)
    returns (added: seq<Artifact>)
    requires ValidLister(rglob) && base <= resolved
    modifies ledger
    ensures forall i :: 0 <= i < |Listed(fs, resolved, rglob)| ==> base <= Listed(fs, resolved, rglob)[i]
    ensures added == DirEntries(fs, Listed(fs, resolved, rglob), base, t, digest)
    ensures ledger.stages == Recorded(old(ledger.stages), stageId, added)
    ensures ledger.persisted == old(ledger.persisted)
  {
    var files := ListFiles(fs, resolved, base, rglob);
    added := RecordFiles(fs, ledger, stageId, files, base, t, digest);
  }

  /** The regular files `rglob` lists under a resolved output, each below the
      base directory. */
  method ListFiles(fs: FileSystem, resolved: Path, base: Path, rglob: Lister) returns (files: seq<Path>)
    requires ValidLister(rglob) && base <= resolved
    ensures files == Listed(fs, resolved, rglob)
    ensures forall i :: 0 <= i < |files| ==> base <= files[i]
  {
    files := Listed(fs, resolved, rglob);
    forall i | 0 <= i < |files| ensures base <= files[i] {
      assert resolved <= files[i];
      assert files[i][..|base|] == resolved[..|base|];
    }
  }

  /** The loop of `update_output_hashes` over the files of a directory: each
      file's hash is written under its path relative to the base directory. */
  method RecordFiles(fs: FileSystem, ledger: Ledger, stageId: string, files: seq<Path>, base: Path, t: Target,
                     digest: Digest)
    returns (added: seq<Artifact>)
    requires forall i :: 0 <= i < |files| ==> IsFile(fs, files[i]) && base <= files[i]
    modifies ledger
    ensures added == DirEntries(fs, files, base, t, digest)
    ensures ledger.stages == Recorded(old(ledger.stages), stageId, added)
    ensures ledger.persisted == old(ledger.persisted)
  {
    added := [];
    for j := 0 to |files|
      invariant added == DirEntries(fs, files[..j], base, t, digest)
      invariant ledger.stages == Recorded(old(ledger.stages), stageId, added)
      invariant ledger.persisted == old(ledger.persisted)
    {
      DirEntriesStep(fs, files, j, base, t, digest);
      var q := files[j];
      var h := CalculateArtifactHash(fs, q, digest, t.hashMethod);
      var key := Show(q[|base|..]);
      var entry := Entry(key, h.value, t);
      ledger.UpdateArtifact(stageId, key, entry);
      RecordedStep(old(ledger.stages), stageId, added, entry);
      added := added + [entry];
    }
    assert files[..|files|] == files;
  }
}
