/** `check_outputs_unchanged`: a stage may be skipped only when every output it
    declares is on disk and every recorded file under it passes validation
    against its recorded hash. */
module SkipCheck {
  import opened Common
  import opened Records
  import opened FileSystems
  import opened Fingerprint
  import opened Validation
  import opened Stages
  import opened Scope

  /** A declaration as this check reads it: path, scope, reproduction record. */
  datatype Target = Target(path: string, shared: bool, repro: Option<Repro>)

  /** Unlike the other consumers, this check applies no heuristic: a string is
      never shared, a dict is shared only when its "shared" value is true. */
  function CheckTarget(decl: OutputDecl): (t: Option<Target>)
    ensures t.None? <==> decl.OtherDecl?
    ensures decl.PathDecl? ==> t.value == Target(decl.path, false, None)
    ensures decl.DictDecl? ==> t.value.path == decl.artifact.path &&
                                (t.value.shared <==> decl.artifact.shared == Some(true))
  {
    match decl
    case PathDecl(p) => Some(Target(p, false, None))
    case DictDecl(a) => Some(Target(a.path, a.shared.GetOr(false), a.reproduction))
    case OtherDecl => None
  }

  /** The ledger entries this check compares against: those with a hash. */
  predicate HasHash(e: Artifact) {
    e.hash.Some?
  }

  ghost predicate Expected(expected: Dict) {
    WellFormed(expected) && forall k :: k in expected.values ==> HasHash(expected.values[k])
  }

  /** Where the file recorded under `k` lies. */
  function Location(k: string, isShared: bool, active: Path, sharedDir: Path): Path {
    Base(isShared, active, sharedDir) + Split(k)
  }

  /** The recorded files found for one declaration, or a reason to run. */
  datatype Collected = Collected(files: seq<(string, Artifact)>) | Changed

  function Prepend(acc: seq<(string, Artifact)>, c: Collected): Collected {
    if c.Changed? then Changed else Collected(acc + c.files)
  }

  /** An entry recorded under `k` lies inside `resolved` (or is it). */
  predicate Inside(expected: Dict, k: string, resolved: Path, active: Path, sharedDir: Path)
    requires k in expected.values
  {
    resolved <= Location(k, expected.values[k].shared.GetOr(false), active, sharedDir)
  }

  /** An entry inside the declared directory that is missing from disk or
      recorded in the other scope. */
  predicate Stale(fs: FileSystem, resolved: Path, isShared: bool, expected: Dict, k: string, active: Path,
                  sharedDir: Path)
    requires k in expected.values
  {
    var cShared := expected.values[k].shared.GetOr(false);
    && Inside(expected, k, resolved, active, sharedDir)
    && (!Exists(fs, Location(k, cShared, active, sharedDir)) || cShared != isShared)
  }

  /** The recorded entries inside `resolved`, in ledger order. */
  function InsideEntries(expected: Dict, keys: seq<string>, resolved: Path, active: Path, sharedDir: Path)
    : (r: seq<(string, Artifact)>)
    requires forall k :: k in keys ==> k in expected.values
    ensures forall f :: f in r ==> f.0 in keys && f.1 == expected.values[f.0]
  {
    if keys == [] then []
    else
      var k := keys[|keys| - 1];
      var init := InsideEntries(expected, keys[..|keys| - 1], resolved, active, sharedDir);
      if Inside(expected, k, resolved, active, sharedDir) then init + [(k, expected.values[k])] else init
  }

  /** Case 2, a declared directory: any stale entry inside means changed,
      otherwise the entries inside are the files to validate. */
  function CollectDir(fs: FileSystem, resolved: Path, isShared: bool, expected: Dict, keys: seq<string>,
                      active: Path, sharedDir: Path): (c: Collected)
    requires forall k :: k in keys ==> k in expected.values
  {
    if exists k :: k in keys && Stale(fs, resolved, isShared, expected, k, active, sharedDir) then Changed
    else Collected(InsideEntries(expected, keys, resolved, active, sharedDir))
  }

  /** Case 1 and case 2 together: the files to validate for a declaration
      resolved to `resolved`, whose path relative to its base is `key`. */
  function Collect(fs: FileSystem, resolved: Path, key: string, isShared: bool, expected: Dict,
                   active: Path, sharedDir: Path): (c: Collected)
    requires Expected(expected)
    ensures c.Collected? ==> c.files != [] && forall f :: f in c.files ==> Lookup(expected, f.0) == Some(f.1)
  {
    if IsFile(fs, resolved) then
      match Lookup(expected, key)
      case None => Changed
      case Some(e) => if e.shared.GetOr(false) == isShared then Collected([(key, e)]) else Changed
    else if IsDir(fs, resolved) then
      var c := CollectDir(fs, resolved, isShared, expected, expected.keys, active, sharedDir);
      if c.Collected? && c.files == [] then Changed else c
    else Changed
  }

  /** One recorded file passes validation with the settings it resolves to. */
  predicate FileValidates(fs: FileSystem, k: string, e: Artifact, declShared: bool, declRepro: Option<Repro>,
                          d: Defaults, active: Path, sharedDir: Path, digest: Digest)
    requires HasHash(e)
  {
    var s := Effective(e.reproduction, declRepro, d);
    ValidateArtifact(fs, Location(k, e.shared.GetOr(declShared), active, sharedDir), e.hash.value,
                     s.mode, s.tolAbs, s.tolRel, s.threshold, digest).success
  }

  /** The outcome of one declaration: changed (after whatever directories were
      created), skipped as invalid, or passed with this many files checked. */
  datatype Step = Abort(fs: FileSystem) | Skip | Pass(fs: FileSystem, checked: nat)

  function CheckDecl(fs: FileSystem, decl: OutputDecl, expected: Dict, d: Defaults, active: Path, sharedDir: Path,
                     digest: Digest): (s: Step)
    requires Expected(expected)
    ensures s.Skip? <==> decl.OtherDecl?
    ensures s.Pass? ==> s.checked >= 1
  {
    match CheckTarget(decl)
    case None => Skip
    case Some(t) =>
      var resolved := Base(t.shared, active, sharedDir) + Split(t.path);
      match MakeDirs(fs, Parent(resolved))
      case Err(_) => Abort(fs)
      case Ok(fs') =>
        match Collect(fs', resolved, Show(Split(t.path)), t.shared, expected, active, sharedDir)
        case Changed => Abort(fs')
        case Collected(files) =>
          if forall i :: 0 <= i < |files| ==>
                FileValidates(fs', files[i].0, files[i].1, t.shared, t.repro, d, active, sharedDir, digest)
          then Pass(fs', |files|)
          else Abort(fs')
  }

  /** The declarations from index `i` on, `count` files checked so far. */
  function CheckFrom(fs: FileSystem, decls: seq<OutputDecl>, i: nat, expected: Dict, d: Defaults, active: Path,
                     sharedDir: Path, digest: Digest, count: nat): (bool, FileSystem)
    requires Expected(expected) && i <= |decls|
    decreases |decls| - i, 1
  {
    if i == |decls| then (count > 0, fs)
    else Resume(CheckDecl(fs, decls[i], expected, d, active, sharedDir, digest), fs, decls, i, expected, d, active,
                sharedDir, digest, count)
  }

  /** What follows the outcome `step` of declaration `i`: a change ends the
      check, otherwise it goes on with the next declaration. */
  function Resume(step: Step, fs: FileSystem, decls: seq<OutputDecl>, i: nat, expected: Dict, d: Defaults,
                  active: Path, sharedDir: Path, digest: Digest, count: nat): (bool, FileSystem)
    requires Expected(expected) && i < |decls|
    decreases |decls| - i, 0
  {
    match step
    case Abort(fs') => (false, fs')
    case Skip => CheckFrom(fs, decls, i + 1, expected, d, active, sharedDir, digest, count)
    case Pass(fs', n) => CheckFrom(fs', decls, i + 1, expected, d, active, sharedDir, digest, count + n)
  }

  /** The whole check: its answer and the file system after it. */
  function Unchanged(fs: FileSystem, decls: seq<OutputDecl>, record: Option<StageRecord>, d: Defaults,
                     active: Path, sharedDir: Path, digest: Digest): (bool, FileSystem)
  {
    if record.None? || record.value.outputs.None? || decls == [] || record.value.outputs.value == [] then (false, fs)
    else
      var expected := Index(record.value.outputs.value, HasHash);
      if expected.keys == [] then (false, fs)
      else CheckFrom(fs, decls, 0, expected, d, active, sharedDir, digest, 0)
  }

  // ------------------------------------------------------------ properties

  /** A declared file passes exactly when the ledger records it with a hash,
      in the declared scope, and it validates against that hash. */
  lemma FileDeclaration(fs: FileSystem, decl: OutputDecl, expected: Dict, d: Defaults, active: Path,
                        sharedDir: Path, digest: Digest)
    requires Expected(expected) && !decl.OtherDecl?
    requires var t := CheckTarget(decl).value;
             && MakeDirs(fs, Parent(Base(t.shared, active, sharedDir) + Split(t.path))).Ok?
             && IsFile(MakeDirs(fs, Parent(Base(t.shared, active, sharedDir) + Split(t.path))).value,
                       Base(t.shared, active, sharedDir) + Split(t.path))
    ensures var t := CheckTarget(decl).value;
            var fs' := MakeDirs(fs, Parent(Base(t.shared, active, sharedDir) + Split(t.path))).value;
            var key := Show(Split(t.path));
            CheckDecl(fs, decl, expected, d, active, sharedDir, digest).Pass? <==>
              && Lookup(expected, key).Some?
              && Lookup(expected, key).value.shared.GetOr(false) == t.shared
              && FileValidates(fs', key, Lookup(expected, key).value, t.shared, t.repro, d, active, sharedDir, digest)
  {
    var t := CheckTarget(decl).value;
    var fs' := MakeDirs(fs, Parent(Base(t.shared, active, sharedDir) + Split(t.path))).value;
    var key := Show(Split(t.path));
    var c := Collect(fs', Base(t.shared, active, sharedDir) + Split(t.path), key, t.shared, expected, active, sharedDir);
    if c.Collected? {
      var e := Lookup(expected, key).value;
      assert c.files == [(key, e)];
      assert (forall i :: 0 <= i < |c.files| ==>
                FileValidates(fs', c.files[i].0, c.files[i].1, t.shared, t.repro, d, active, sharedDir, digest))
             <==> FileValidates(fs', key, e, t.shared, t.repro, d, active, sharedDir, digest) by {
        assert c.files[0] == (key, e);
      }
    }
  }

  /** What the entries collected inside a directory are. */
  lemma {:induction false} InsideEntriesMembers(expected: Dict, keys: seq<string>, resolved: Path, active: Path,
                                                sharedDir: Path)
    requires forall k :: k in keys ==> k in expected.values
    ensures var r := InsideEntries(expected, keys, resolved, active, sharedDir);
            && (forall i :: 0 <= i < |r| ==>
                  r[i].0 in expected.values && Inside(expected, r[i].0, resolved, active, sharedDir) &&
                  r[i].1 == expected.values[r[i].0])
            && (forall k :: k in keys && Inside(expected, k, resolved, active, sharedDir) ==>
                  exists i :: 0 <= i < |r| && r[i].0 == k)
  {
    if keys != [] {
      var init, last := keys[..|keys| - 1], keys[|keys| - 1];
      InsideEntriesMembers(expected, init, resolved, active, sharedDir);
      var r0 := InsideEntries(expected, init, resolved, active, sharedDir);
      var r := InsideEntries(expected, keys, resolved, active, sharedDir);
      assert r == r0 + if Inside(expected, last, resolved, active, sharedDir) then [(last, expected.values[last])]
                       else [];
      forall i | 0 <= i < |r|
        ensures r[i].0 in expected.values && Inside(expected, r[i].0, resolved, active, sharedDir) &&
                r[i].1 == expected.values[r[i].0]
      {
        if i < |r0| {
          assert r0[i].0 in expected.values && Inside(expected, r0[i].0, resolved, active, sharedDir);
          assert r[i] == r0[i];
        } else {
          assert r[i] == (last, expected.values[last]);
        }
      }
      forall k | k in keys && Inside(expected, k, resolved, active, sharedDir)
        ensures exists i :: 0 <= i < |r| && r[i].0 == k
      {
        if k == last {
          assert r[|r| - 1].0 == k;
        } else {
          assert k in init by {
            var j :| 0 <= j < |keys| && keys[j] == k;
            assert init[j] == k;
          }
          var i :| 0 <= i < |r0| && r0[i].0 == k;
          assert r[i] == r0[i];
        }
      }
    }
  }

  /** The entries collected inside a directory are non-empty exactly when
      some entry is inside, and all pass a test exactly when every entry
      inside does. */
  lemma InsideEntriesAll(expected: Dict, resolved: Path, active: Path, sharedDir: Path,
                         ok: ((string, Artifact)) -> bool)
    requires WellFormed(expected)
    ensures var files := InsideEntries(expected, expected.keys, resolved, active, sharedDir);
            && (files != [] <==> exists k :: k in expected.values && Inside(expected, k, resolved, active, sharedDir))
            && ((forall i :: 0 <= i < |files| ==> ok(files[i])) <==>
                (forall k :: k in expected.values && Inside(expected, k, resolved, active, sharedDir) ==>
                   ok((k, expected.values[k]))))
  {
    var files := InsideEntries(expected, expected.keys, resolved, active, sharedDir);
    InsideEntriesMembers(expected, expected.keys, resolved, active, sharedDir);
    if files != [] {
      assert files[0].0 in expected.values && Inside(expected, files[0].0, resolved, active, sharedDir);
    }
    if forall i :: 0 <= i < |files| ==> ok(files[i]) {
      forall k | k in expected.values && Inside(expected, k, resolved, active, sharedDir)
        ensures ok((k, expected.values[k]))
      {
        var i :| 0 <= i < |files| && files[i].0 == k;
        assert files[i] == (k, expected.values[k]);
      }
    } else {
      var i :| 0 <= i < |files| && !ok(files[i]);
      assert files[i] == (files[i].0, expected.values[files[i].0]);
    }
  }

  /** Case 2 collects a non-empty list of files that all validate exactly when
      some entry is inside, and every entry inside is fresh and validates. */
  lemma CollectDirMeaning(fs: FileSystem, resolved: Path, isShared: bool, repro: Option<Repro>, expected: Dict,
                          d: Defaults, active: Path, sharedDir: Path, digest: Digest)
    requires Expected(expected)
    ensures var c := CollectDir(fs, resolved, isShared, expected, expected.keys, active, sharedDir);
            (c.Collected? && c.files != [] &&
             forall i :: 0 <= i < |c.files| ==>
               FileValidates(fs, c.files[i].0, c.files[i].1, isShared, repro, d, active, sharedDir, digest))
            <==>
            && (exists k :: k in expected.values && Inside(expected, k, resolved, active, sharedDir))
            && (forall k :: k in expected.values && Inside(expected, k, resolved, active, sharedDir) ==>
                  && !Stale(fs, resolved, isShared, expected, k, active, sharedDir)
                  && FileValidates(fs, k, expected.values[k], isShared, repro, d, active, sharedDir, digest))
  {
    var ok := (f: (string, Artifact)) =>
                f.1.hash.Some? && FileValidates(fs, f.0, f.1, isShared, repro, d, active, sharedDir, digest);
    InsideEntriesAll(expected, resolved, active, sharedDir, ok);
    var files := InsideEntries(expected, expected.keys, resolved, active, sharedDir);
    assert forall i :: 0 <= i < |files| ==> files[i] in files;
  }

  /** A declared directory passes exactly when the ledger records at least one
      hashed file inside it, and every recorded file inside it is on disk, is
      recorded in the declared scope and validates. */
  lemma DirectoryDeclaration(fs: FileSystem, decl: OutputDecl, expected: Dict, d: Defaults, active: Path,
                             sharedDir: Path, digest: Digest)
    requires Expected(expected) && !decl.OtherDecl?
    requires var t := CheckTarget(decl).value;
             var resolved := Base(t.shared, active, sharedDir) + Split(t.path);
             && MakeDirs(fs, Parent(resolved)).Ok?
             && !IsFile(MakeDirs(fs, Parent(resolved)).value, resolved)
             && IsDir(MakeDirs(fs, Parent(resolved)).value, resolved)
    ensures var t := CheckTarget(decl).value;
            var resolved := Base(t.shared, active, sharedDir) + Split(t.path);
            var fs' := MakeDirs(fs, Parent(resolved)).value;
            CheckDecl(fs, decl, expected, d, active, sharedDir, digest).Pass? <==>
              && (exists k :: k in expected.values && Inside(expected, k, resolved, active, sharedDir))
              && (forall k :: k in expected.values && Inside(expected, k, resolved, active, sharedDir) ==>
                    && !Stale(fs', resolved, t.shared, expected, k, active, sharedDir)
                    && FileValidates(fs', k, expected.values[k], t.shared, t.repro, d, active, sharedDir, digest))
  {
    var t := CheckTarget(decl).value;
    var resolved := Base(t.shared, active, sharedDir) + Split(t.path);
    var fs' := MakeDirs(fs, Parent(resolved)).value;
    CollectDirMeaning(fs', resolved, t.shared, t.repro, expected, d, active, sharedDir, digest);
  }

  /** A declared path that is neither a file nor a directory, or whose parent
      cannot be created, means the stage has to run. */
  lemma MissingDeclaration(fs: FileSystem, decl: OutputDecl, expected: Dict, d: Defaults, active: Path,
                           sharedDir: Path, digest: Digest)
    requires Expected(expected) && !decl.OtherDecl?
    requires var t := CheckTarget(decl).value;
             var resolved := Base(t.shared, active, sharedDir) + Split(t.path);
             || MakeDirs(fs, Parent(resolved)).Err?
             || (!IsFile(MakeDirs(fs, Parent(resolved)).value, resolved) &&
                 !IsDir(MakeDirs(fs, Parent(resolved)).value, resolved))
    ensures CheckDecl(fs, decl, expected, d, active, sharedDir, digest).Abort?
  {
  }

  /** A plain file name is looked for in the active directory and taken to be
      mode-specific here, while hash recording stores it as shared. Once its
      ledger entry says shared, the declaration never passes unless a
      directory of that name exists in the active directory. */
  lemma BareNameRecordedShared(fs: FileSystem, p: string, expected: Dict, d: Defaults, active: Path,
                               sharedDir: Path, digest: Digest)
    requires Expected(expected)
    requires Lookup(expected, Show(Split(p))).Some? && Lookup(expected, Show(Split(p))).value.shared == Some(true)
    requires MakeDirs(fs, Parent(active + Split(p))).Ok?
    requires !IsDir(MakeDirs(fs, Parent(active + Split(p))).value, active + Split(p))
    ensures CheckDecl(fs, PathDecl(p), expected, d, active, sharedDir, digest).Abort?
  {
  }

  /** No ledger entry with a hash, no ledger record, or nothing declared: the
      stage is never skipped. */
  lemma {:induction false} NothingRecordedNeverSkips(fs: FileSystem, decls: seq<OutputDecl>,
                                                     record: Option<StageRecord>, d: Defaults, active: Path,
                                                     sharedDir: Path, digest: Digest)
    requires || record.None? || record.value.outputs.None? || decls == []
             || forall i :: 0 <= i < |record.value.outputs.value| ==> record.value.outputs.value[i].hash.None?
    ensures !Unchanged(fs, decls, record, d, active, sharedDir, digest).0
  {
    if record.Some? && record.value.outputs.Some? && decls != [] && record.value.outputs.value != [] {
      var outs := record.value.outputs.value;
      var expected := Index(outs, HasHash);
      if expected.keys != [] {
        IndexLookup(outs, HasHash, expected.keys[0]);
      }
    }
  }

  /** Skipping needs at least one well-formed declaration, since only those
      check files. */
  lemma {:induction false} SkipNeedsADeclaration(fs: FileSystem, decls: seq<OutputDecl>, i: nat, expected: Dict,
                                                 d: Defaults, active: Path, sharedDir: Path, digest: Digest,
                                                 count: nat)
    requires Expected(expected) && i <= |decls|
    requires CheckFrom(fs, decls, i, expected, d, active, sharedDir, digest, count).0
    ensures count > 0 || exists j :: i <= j < |decls| && !decls[j].OtherDecl?
    decreases |decls| - i
  {
    if i < |decls| {
      var step := CheckDecl(fs, decls[i], expected, d, active, sharedDir, digest);
      if step.Skip? {
        SkipNeedsADeclaration(fs, decls, i + 1, expected, d, active, sharedDir, digest, count);
      } else {
        assert !decls[i].OtherDecl?;
      }
    }
  }

  /** The check touches the file system only by creating directories. */
  lemma {:induction false} CheckOnlyCreatesDirs(fs: FileSystem, decls: seq<OutputDecl>, i: nat, expected: Dict,
                                                d: Defaults, active: Path, sharedDir: Path, digest: Digest,
                                                count: nat)
    requires Expected(expected) && i <= |decls|
    ensures AddsOnlyDirs(fs, CheckFrom(fs, decls, i, expected, d, active, sharedDir, digest, count).1)
    decreases |decls| - i
  {
    if i < |decls| {
      var step := CheckDecl(fs, decls[i], expected, d, active, sharedDir, digest);
      StepOnlyCreatesDirs(fs, decls[i], expected, d, active, sharedDir, digest);
      if step.Skip? {
        CheckOnlyCreatesDirs(fs, decls, i + 1, expected, d, active, sharedDir, digest, count);
      } else if step.Pass? {
        CheckOnlyCreatesDirs(step.fs, decls, i + 1, expected, d, active, sharedDir, digest, count + step.checked);
        assert CheckFrom(fs, decls, i, expected, d, active, sharedDir, digest, count) ==
               CheckFrom(step.fs, decls, i + 1, expected, d, active, sharedDir, digest, count + step.checked);
        AddsOnlyDirsTrans(fs, step.fs, CheckFrom(fs, decls, i, expected, d, active, sharedDir, digest, count).1);
      }
    }
  }

  lemma StepOnlyCreatesDirs(fs: FileSystem, decl: OutputDecl, expected: Dict, d: Defaults, active: Path,
                            sharedDir: Path, digest: Digest)
    requires Expected(expected)
    ensures var s := CheckDecl(fs, decl, expected, d, active, sharedDir, digest);
            !s.Skip? ==> AddsOnlyDirs(fs, s.fs)
  {
  }

  // ------------------------------------------------------------ the methods

  method CheckOutputsUnchanged(disk: Disk, stageId: string, stage: StageFunction, ledger: Ledger, active: Path,
                               sharedDir: Path, digest: Digest)
    returns (canSkip: bool)
    modifies disk
    ensures (canSkip, disk.fs) ==
              Unchanged(old(disk.fs), stage.outputs, ledger.GetStage(stageId), stage.defaults, active, sharedDir, digest)
  {
    var record := ledger.GetStage(stageId);
    if record.None? || record.value.outputs.None? {
      return false;
    }
    var decls := stage.outputs;
    if decls == [] {
      return false;
    }
    var outs := record.value.outputs.value;
    if outs == [] {
      return false;
    }
    var expected := Index(outs, HasHash);
    if expected.keys == [] {
      return false;
    }
    canSkip := CheckAll(disk, decls, expected, stage.defaults, active, sharedDir, digest);
  }

  /** The loop over the declarations: stops at the first one that shows a
      change, and otherwise reports whether any file was checked. */
  method CheckAll(disk: Disk, decls: seq<OutputDecl>, expected: Dict, d: Defaults, active: Path, sharedDir: Path,
                  digest: Digest)
    returns (canSkip: bool)
    requires Expected(expected)
    modifies disk
    ensures (canSkip, disk.fs) == CheckFrom(old(disk.fs), decls, 0, expected, d, active, sharedDir, digest, 0)
  {
    var count: nat := 0;
    var i := 0;
    while i < |decls|
      invariant 0 <= i <= |decls|
      invariant CheckFrom(disk.fs, decls, i, expected, d, active, sharedDir, digest, count) ==
                CheckFrom(old(disk.fs), decls, 0, expected, d, active, sharedDir, digest, 0)
    {
      var step := CheckOne(disk, decls[i], expected, d, active, sharedDir, digest);
      if step.Abort? {
        return false;
      }
      if step.Pass? {
        count := count + step.checked;
      }
      i := i + 1;
    }
    return count > 0;
  }

  /** The body of the loop over declarations, for one declaration. */
  method CheckOne(disk: Disk, decl: OutputDecl, expected: Dict, d: Defaults, active: Path, sharedDir: Path,
                  digest: Digest)
    returns (step: Step)
    requires Expected(expected)
    modifies disk
    ensures step == CheckDecl(old(disk.fs), decl, expected, d, active, sharedDir, digest)
    ensures disk.fs == if step.Skip? then old(disk.fs) else step.fs
  {
    var t := CheckTarget(decl);
    if t.None? {
      return Skip;
    }
    var target := t.value;
    var made := ResolveOutputPath(disk, target.path, target.shared, active, sharedDir);
    if made.Err? {
      return Abort(disk.fs);
    }
    var resolved := made.value;
    var base := Base(target.shared, active, sharedDir);
    assert resolved[|base|..] == Split(target.path);
    var key := Show(resolved[|base|..]);
    var c := CollectFiles(disk.fs, resolved, key, target.shared, expected, active, sharedDir);
    if c.Changed? {
      return Abort(disk.fs);
    }
    var ok := ValidateFiles(disk.fs, c.files, target.shared, target.repro, d, active, sharedDir, digest);
    if !ok {
      return Abort(disk.fs);
    }
    return Pass(disk.fs, |c.files|);
  }

  method CollectFiles(fs: FileSystem, resolved: Path, key: string, isShared: bool, expected: Dict, active: Path,
                      sharedDir: Path)
    returns (c: Collected)
    requires Expected(expected)
    ensures c == Collect(fs, resolved, key, isShared, expected, active, sharedDir)
  {
    if IsFile(fs, resolved) {
      var entry := Lookup(expected, key);
      if entry.None? || entry.value.shared.GetOr(false) != isShared {
        return Changed;
      }
      return Collected([(key, entry.value)]);
    } else if IsDir(fs, resolved) {
      c := CollectInDir(fs, resolved, isShared, expected, active, sharedDir);
      if c.Collected? && c.files == [] {
        return Changed;
      }
    } else {
      return Changed;
    }
  }

  /** The loop of case 2 over the recorded entries. */
  method CollectInDir(fs: FileSystem, resolved: Path, isShared: bool, expected: Dict, active: Path, sharedDir: Path)
    returns (c: Collected)
    requires WellFormed(expected)
    ensures c.Changed? ==> exists k :: k in expected.keys && Stale(fs, resolved, isShared, expected, k, active, sharedDir)
    ensures c.Collected? ==> && (forall k :: k in expected.keys ==> !Stale(fs, resolved, isShared, expected, k, active, sharedDir))
                             && c.files == InsideEntries(expected, expected.keys, resolved, active, sharedDir)
  {
    var keys := expected.keys;
    var files: seq<(string, Artifact)> := [];
    var j := 0;
    assert keys[..0] == [];
    while j < |keys|
      invariant 0 <= j <= |keys|
      invariant Scanned(fs, resolved, isShared, expected, keys[..j], files, active, sharedDir)
    {
      var k := keys[j];
      ScannedStep(fs, resolved, isShared, expected, keys, j, files, active, sharedDir);
      if Inside(expected, k, resolved, active, sharedDir) {
        if Stale(fs, resolved, isShared, expected, k, active, sharedDir) {
          return Changed;
        }
        files := files + [(k, expected.values[k])];
      }
      j := j + 1;
    }
    assert keys[..j] == keys;
    return Collected(files);
  }

  /** The first keys scanned: none of them stale, and `files` the entries
      among them inside the directory. */
  ghost predicate Scanned(fs: FileSystem, resolved: Path, isShared: bool, expected: Dict, keys: seq<string>,
                          files: seq<(string, Artifact)>, active: Path, sharedDir: Path)
  {
    && (forall k :: k in keys ==> k in expected.values)
    && (forall i :: 0 <= i < |keys| ==> !Stale(fs, resolved, isShared, expected, keys[i], active, sharedDir))
    && files == InsideEntries(expected, keys, resolved, active, sharedDir)
  }

  lemma ScannedStep(fs: FileSystem, resolved: Path, isShared: bool, expected: Dict, keys: seq<string>, j: nat,
                    files: seq<(string, Artifact)>, active: Path, sharedDir: Path)
    requires j < |keys| && forall k :: k in keys ==> k in expected.values
    requires Scanned(fs, resolved, isShared, expected, keys[..j], files, active, sharedDir)
    ensures var k := keys[j];
            && (!Inside(expected, k, resolved, active, sharedDir) ==>
                  Scanned(fs, resolved, isShared, expected, keys[..j + 1], files, active, sharedDir))
            && (Inside(expected, k, resolved, active, sharedDir) &&
                !Stale(fs, resolved, isShared, expected, k, active, sharedDir) ==>
                  Scanned(fs, resolved, isShared, expected, keys[..j + 1], files + [(k, expected.values[k])],
                          active, sharedDir))
  {
    var k, next := keys[j], keys[..j + 1];
    assert next[..j] == keys[..j];
    assert InsideEntries(expected, next, resolved, active, sharedDir) ==
           InsideEntries(expected, keys[..j], resolved, active, sharedDir) +
           if Inside(expected, k, resolved, active, sharedDir) then [(k, expected.values[k])] else [];
    if !Stale(fs, resolved, isShared, expected, k, active, sharedDir) {
      forall i | 0 <= i < |next| ensures !Stale(fs, resolved, isShared, expected, next[i], active, sharedDir) {
        if i < j {
          assert next[i] == keys[..j][i];
        }
      }
    }
  }

  /** Validates the collected files in order, stopping at the first failure. */
  method ValidateFiles(fs: FileSystem, files: seq<(string, Artifact)>, declShared: bool, declRepro: Option<Repro>,
                       d: Defaults, active: Path, sharedDir: Path, digest: Digest)
    returns (ok: bool)
    requires forall i :: 0 <= i < |files| ==> HasHash(files[i].1)
    ensures ok <==> forall i :: 0 <= i < |files| ==>
                      FileValidates(fs, files[i].0, files[i].1, declShared, declRepro, d, active, sharedDir, digest)
  {
    var j := 0;
    while j < |files|
      invariant 0 <= j <= |files|
      invariant forall i :: 0 <= i < j ==>
                  FileValidates(fs, files[i].0, files[i].1, declShared, declRepro, d, active, sharedDir, digest)
    {
      if !FileValidates(fs, files[j].0, files[j].1, declShared, declRepro, d, active, sharedDir, digest) {
        return false;
      }
      j := j + 1;
    }
    return true;
  }
}
