/** `validate_outputs`: in reproduction mode, every recorded file a stage's
    declarations cover is checked against its recorded hash, and each check
    leaves a validation record. */
module OutputValidation {
  import opened Common
  import opened Records
  import opened FileSystems
  import opened Fingerprint
  import opened Validation
  import opened Stages
  import opened Scope
  import opened SkipCheck
  import opened HashUpdate

  datatype Status = Passed | Failed | Ignored

  /** One entry of the run's validation results. */
  datatype ValidationRecord = ValidationRecord(stage: string, file: string, status: Status, mode: string,
                                               message: Message)

  /** The ledger entries validation compares against: a non-empty path and a
      non-empty hash. */
  predicate Hashed(e: Artifact) {
    e.path != "" && e.hash.Some? && e.hash.value != ""
  }

  ghost predicate Reference(expected: Dict) {
    WellFormed(expected) && forall k :: k in expected.values ==> Hashed(expected.values[k])
  }

  /** A recorded path belongs to a declared directory when its normalised form
      continues the declared one after a separator, or when its location lies
      inside (or is) the declared directory. */
  predicate InDir(k: string, e: Artifact, path: string, resolved: Path, active: Path, sharedDir: Path) {
    NormPath(path) + "/" <= NormPath(k) || resolved <= Location(k, e.shared.GetOr(false), active, sharedDir)
  }

  /** The recorded entries, among `keys` in their order, inside a declared
      directory. */
  function DirMatches(expected: Dict, keys: seq<string>, path: string, resolved: Path, active: Path,
                      sharedDir: Path): (r: seq<(string, Artifact)>)
    requires forall k :: k in keys ==> k in expected.values
    ensures forall f :: f in r ==>
              f.0 in keys && f.1 == expected.values[f.0] && InDir(f.0, f.1, path, resolved, active, sharedDir)
    ensures forall k :: k in keys && InDir(k, expected.values[k], path, resolved, active, sharedDir) ==>
              (k, expected.values[k]) in r
  {
    if keys == [] then []
    else
      var k := keys[|keys| - 1];
      var prev := DirMatches(expected, keys[..|keys| - 1], path, resolved, active, sharedDir);
      if InDir(k, expected.values[k], path, resolved, active, sharedDir) then prev + [(k, expected.values[k])]
      else prev
  }

  /** The recorded files one declaration covers: the entry recorded under the
      declared path itself, or else, for a directory on disk, the entries
      inside it. */
  function Matches(fs: FileSystem, expected: Dict, path: string, resolved: Path, active: Path, sharedDir: Path)
    : (r: seq<(string, Artifact)>)
    requires WellFormed(expected)
    ensures forall f :: f in r ==> f.0 in expected.values && f.1 == expected.values[f.0]
    ensures path in expected.values ==> r == [(path, expected.values[path])]
    ensures path !in expected.values && !IsDir(fs, resolved) ==> r == []
    ensures path !in expected.values && Exists(fs, resolved) && IsDir(fs, resolved) ==>
              forall k :: k in expected.values && InDir(k, expected.values[k], path, resolved, active, sharedDir) ==>
                (k, expected.values[k]) in r
  {
    if path in expected.values then [(path, expected.values[path])]
    else if Exists(fs, resolved) && IsDir(fs, resolved) then
      DirMatches(expected, expected.keys, path, resolved, active, sharedDir)
    else []
  }

  /** The check of one recorded file. Its scope is the recorded one, else the
      declaration's; its settings come from the file's record, then the
      declaration's, then the stage's. */
  function CheckFile(fs: FileSystem, stageId: string, k: string, e: Artifact, declShared: bool,
                     declRepro: Option<Repro>, d: Defaults, active: Path, sharedDir: Path, digest: Digest)
    : (r: ValidationRecord)
    requires e.hash.Some?
    ensures var actual := Location(k, e.shared.GetOr(declShared), active, sharedDir);
            var s := Effective(e.reproduction, declRepro, d);
            && r.stage == stageId && r.file == Show(actual) && r.mode == s.mode
            && (r.status == Ignored <==> s.mode == "ignore")
            && (s.mode != "ignore" && !Exists(fs, actual) ==>
                  r.status == Failed && r.message == Text("Output file not found: " + Show(actual)))
            && (r.status == Passed <==>
                  s.mode != "ignore" && Exists(fs, actual)
                  && ValidateArtifact(fs, actual, e.hash.value, s.mode, s.tolAbs, s.tolRel, s.threshold, digest).success)
  {
    var actual := Location(k, e.shared.GetOr(declShared), active, sharedDir);
    var s := Effective(e.reproduction, declRepro, d);
    if s.mode == "ignore" then
      ValidationRecord(stageId, Show(actual), Ignored, s.mode, Text("Validation skipped (ignore mode)"))
    else if !Exists(fs, actual) then
      ValidationRecord(stageId, Show(actual), Failed, s.mode, Text("Output file not found: " + Show(actual)))
    else
      var v := ValidateArtifact(fs, actual, e.hash.value, s.mode, s.tolAbs, s.tolRel, s.threshold, digest);
      ValidationRecord(stageId, Show(actual), if v.success then Passed else Failed, s.mode, v.message)
  }

  /** The checks of the files one declaration covers, in order. */
  function CheckFiles(fs: FileSystem, stageId: string, files: seq<(string, Artifact)>, declShared: bool,
                      declRepro: Option<Repro>, d: Defaults, active: Path, sharedDir: Path, digest: Digest)
    : (r: seq<ValidationRecord>)
    requires forall i :: 0 <= i < |files| ==> files[i].1.hash.Some?
    ensures |r| == |files|
  {
    if files == [] then []
    else
      var (k, e) := files[|files| - 1];
      CheckFiles(fs, stageId, files[..|files| - 1], declShared, declRepro, d, active, sharedDir, digest)
        + [CheckFile(fs, stageId, k, e, declShared, declRepro, d, active, sharedDir, digest)]
  }

  /** One declaration: its records and the file system after its parent
      directory was created. A declaration without a path, or whose parent
      cannot be created, checks nothing. */
  function DeclRecords(fs: FileSystem, decl: OutputDecl, expected: Dict, stageId: string, d: Defaults,
                       active: Path, sharedDir: Path, digest: Digest): (r: (seq<ValidationRecord>, FileSystem))
    requires Reference(expected)
  {
    match GetOutputScopeAndPath(decl)
    case (None, _) => ([], fs)
    case (Some(path), shared) =>
      var resolved := Base(shared, active, sharedDir) + Split(path);
      match MakeDirs(fs, Parent(resolved))
      case Err(_) => ([], fs)
      case Ok(fs') =>
        var files := Matches(fs', expected, path, resolved, active, sharedDir);
        assert forall i :: 0 <= i < |files| ==> files[i] in files;
        (CheckFiles(fs', stageId, files, shared, DeclRepro(decl), d, active, sharedDir, digest), fs')
  }

  function DeclsRecords(fs: FileSystem, decls: seq<OutputDecl>, expected: Dict, stageId: string, d: Defaults,
                        active: Path, sharedDir: Path, digest: Digest): (r: (seq<ValidationRecord>, FileSystem))
    requires Reference(expected)
  {
    if decls == [] then ([], fs)
    else
      var (rs, fs') := DeclsRecords(fs, decls[..|decls| - 1], expected, stageId, d, active, sharedDir, digest);
      var (more, fs'') := DeclRecords(fs', decls[|decls| - 1], expected, stageId, d, active, sharedDir, digest);
      (rs + more, fs'')
  }

  /** The whole validation of a stage: nothing is checked when the ledger has
      no outputs for it, when it declares none, or when no recorded output has
      a hash. */
  function Validated(fs: FileSystem, decls: seq<OutputDecl>, record: Option<StageRecord>, d: Defaults,
                     stageId: string, active: Path, sharedDir: Path, digest: Digest)
    : (r: (seq<ValidationRecord>, FileSystem))
    ensures record.None? || record.value.outputs.GetOr([]) == [] || decls == [] ==> r == ([], fs)
    ensures record.Some? && (forall e :: e in record.value.outputs.GetOr([]) ==> !Hashed(e)) ==> r == ([], fs)
  {
    if record.None? || record.value.outputs.None? || record.value.outputs.value == [] || decls == [] then ([], fs)
    else
      var expected := Index(record.value.outputs.value, Hashed);
      NoHashedEntries(record.value.outputs.value);
      if expected.keys == [] then ([], fs)
      else DeclsRecords(fs, decls, expected, stageId, d, active, sharedDir, digest)
  }

  lemma NoHashedEntries(outs: seq<Artifact>)
    ensures Index(outs, Hashed).keys == [] <==> forall e :: e in outs ==> !Hashed(e)
  {
    var expected := Index(outs, Hashed);
    if expected.keys != [] {
      var k := expected.keys[0];
      IndexLookup(outs, Hashed, k);
      var i :| 0 <= i < |outs| && Hashed(outs[i]) && outs[i].path == k;
      assert outs[i] in outs;
    }
    forall e | e in outs && Hashed(e) ensures expected.keys != [] {
      IndexLookup(outs, Hashed, e.path);
      var i :| 0 <= i < |outs| && outs[i] == e;
      assert e.path in expected.values;
    }
  }

  /** No record failed. */
  predicate AllPassed(records: seq<ValidationRecord>) {
    forall i :: 0 <= i < |records| ==> records[i].status != Failed
  }

  lemma AllPassedAppend(a: seq<ValidationRecord>, b: seq<ValidationRecord>)
    ensures AllPassed(a + b) <==> AllPassed(a) && AllPassed(b)
  {
    if AllPassed(a) && AllPassed(b) {
      forall i | 0 <= i < |a + b| ensures (a + b)[i].status != Failed {
        if i >= |a| { assert (a + b)[i] == b[i - |a|]; }
      }
    }
    if AllPassed(a + b) {
      forall i | 0 <= i < |b| ensures b[i].status != Failed { assert (a + b)[|a| + i] == b[i]; }
      forall i | 0 <= i < |a| ensures a[i].status != Failed { assert (a + b)[i] == a[i]; }
    }
  }

  // --------------------------------------------- files as recorded pass

  /** Every recorded file whose file is on disk with the recorded sha256 digest,
      at the location its recorded scope gives, is not a failure. */
  lemma {:induction false} ConfirmedFilesPass(fs: FileSystem, stageId: string, files: seq<(string, Artifact)>,
                                              declShared: bool, declRepro: Option<Repro>, d: Defaults,
                                              active: Path, sharedDir: Path, digest: Digest)
    requires forall i :: 0 <= i < |files| ==>
               files[i].0 == files[i].1.path && files[i].1.hash.Some? && Confirms(fs, files[i].1, active, sharedDir, digest)
    ensures AllPassed(CheckFiles(fs, stageId, files, declShared, declRepro, d, active, sharedDir, digest))
    decreases |files|
  {
    if files != [] {
      var n := |files| - 1;
      ConfirmedFilesPass(fs, stageId, files[..n], declShared, declRepro, d, active, sharedDir, digest);
      var (k, e) := files[n];
      var s := Effective(e.reproduction, declRepro, d);
      var actual := Location(k, e.shared.GetOr(declShared), active, sharedDir);
      assert ArtifactHash(fs, actual, digest, Sha256) == Ok(e.hash.value);
      AllPassedAppend(CheckFiles(fs, stageId, files[..n], declShared, declRepro, d, active, sharedDir, digest),
                      [CheckFile(fs, stageId, k, e, declShared, declRepro, d, active, sharedDir, digest)]);
    }
  }

  /** Every entry of the reference is confirmed on disk. */
  ghost predicate AllConfirmed(fs: FileSystem, expected: Dict, active: Path, sharedDir: Path, digest: Digest) {
    forall k :: k in expected.values ==> Confirms(fs, expected.values[k], active, sharedDir, digest)
  }

  lemma {:induction false} ConfirmedDeclsPass(fs: FileSystem, decls: seq<OutputDecl>, expected: Dict,
                                              stageId: string, d: Defaults, active: Path, sharedDir: Path,
                                              digest: Digest)
    requires Reference(expected) && AllConfirmed(fs, expected, active, sharedDir, digest)
    requires forall k :: k in expected.values ==> expected.values[k].path == k
    ensures var (records, fs') := DeclsRecords(fs, decls, expected, stageId, d, active, sharedDir, digest);
            AllPassed(records) && AddsOnlyDirs(fs, fs')
    decreases |decls|
  {
    if decls != [] {
      var n := |decls| - 1;
      ConfirmedDeclsPass(fs, decls[..n], expected, stageId, d, active, sharedDir, digest);
      var (rs, fs1) := DeclsRecords(fs, decls[..n], expected, stageId, d, active, sharedDir, digest);
      forall k | k in expected.values ensures Confirms(fs1, expected.values[k], active, sharedDir, digest) {
        ConfirmsKept(fs, fs1, expected.values[k], active, sharedDir, digest);
      }
      ConfirmedDeclPasses(fs1, decls[n], expected, stageId, d, active, sharedDir, digest);
      var (more, fs2) := DeclRecords(fs1, decls[n], expected, stageId, d, active, sharedDir, digest);
      AllPassedAppend(rs, more);
      AddsOnlyDirsTrans(fs, fs1, fs2);
    }
  }

  lemma ConfirmedDeclPasses(fs: FileSystem, decl: OutputDecl, expected: Dict, stageId: string, d: Defaults,
                            active: Path, sharedDir: Path, digest: Digest)
    requires Reference(expected) && AllConfirmed(fs, expected, active, sharedDir, digest)
    requires forall k :: k in expected.values ==> expected.values[k].path == k
    ensures var (records, fs') := DeclRecords(fs, decl, expected, stageId, d, active, sharedDir, digest);
            AllPassed(records) && AddsOnlyDirs(fs, fs')
  {
    match GetOutputScopeAndPath(decl)
    case (None, _) =>
    case (Some(path), shared) =>
      var resolved := Base(shared, active, sharedDir) + Split(path);
      match MakeDirs(fs, Parent(resolved))
      case Err(_) =>
      case Ok(fs') =>
        var files := Matches(fs', expected, path, resolved, active, sharedDir);
        forall i | 0 <= i < |files|
          ensures files[i].0 == files[i].1.path && files[i].1.hash.Some?
          ensures Confirms(fs', files[i].1, active, sharedDir, digest)
        {
          assert files[i] in files;
          ConfirmsKept(fs, fs', files[i].1, active, sharedDir, digest);
        }
        ConfirmedFilesPass(fs', stageId, files, shared, DeclRepro(decl), d, active, sharedDir, digest);
  }

  /** Reproduction succeeds on files as they were recorded: when every hashed
      ledger entry of the stage is confirmed on disk, no validation record
      fails. */
  lemma RecordedFilesValidate(fs: FileSystem, decls: seq<OutputDecl>, record: Option<StageRecord>,
                              d: Defaults, stageId: string, active: Path, sharedDir: Path, digest: Digest)
    requires record.Some? ==>
               forall e :: e in record.value.outputs.GetOr([]) && Hashed(e) ==>
                 Confirms(fs, e, active, sharedDir, digest)
    ensures AllPassed(Validated(fs, decls, record, d, stageId, active, sharedDir, digest).0)
  {
    if record.Some? && record.value.outputs.Some? && record.value.outputs.value != [] && decls != [] {
      var outs := record.value.outputs.value;
      var expected := Index(outs, Hashed);
      forall k | k in expected.values ensures Confirms(fs, expected.values[k], active, sharedDir, digest) {
        IndexLookup(outs, Hashed, k);
        var i :| 0 <= i < |outs| && Hashed(outs[i]) && outs[i].path == k
                 && Lookup(expected, k) == Some(outs[i]);
        assert outs[i] in outs;
      }
      ConfirmedDeclsPass(fs, decls, expected, stageId, d, active, sharedDir, digest);
    }
  }

  // ------------------------------------------------------------ the methods

  /** Returns whether the stage passed validation, and the validation records
      to append to the run's results. */
  method ValidateOutputs(disk: Disk, stageId: string, stage: StageFunction, ledger: Ledger, active: Path,
                         sharedDir: Path, digest: Digest)
    returns (passed: bool, records: seq<ValidationRecord>)
    modifies disk
    ensures (records, disk.fs) ==
              Validated(old(disk.fs), stage.outputs, ledger.GetStage(stageId), stage.defaults, stageId, active,
                        sharedDir, digest)
    ensures passed <==> AllPassed(records)
  {
    records := [];
    var record := ledger.GetStage(stageId);
    var decls := stage.outputs;
    if record.None? || record.value.outputs.None? || record.value.outputs.value == [] || decls == [] {
      return true, [];
    }
    var expected := Index(record.value.outputs.value, Hashed);
    if expected.keys == [] {
      NoHashedEntries(record.value.outputs.value);
      return true, [];
    }
    passed := true;
    var performed := false;
    for i := 0 to |decls|
      invariant (records, disk.fs) ==
                  DeclsRecords(old(disk.fs), decls[..i], expected, stageId, stage.defaults, active, sharedDir, digest)
      invariant passed <==> AllPassed(records)
      invariant performed <==> records != []
    {
      assert decls[..i + 1][..i] == decls[..i];
      var more, ok := ValidateDecl(disk, decls[i], expected, stageId, stage.defaults, active, sharedDir, digest);
      AllPassedAppend(records, more);
      records := records + more;
      passed := passed && ok;
      performed := performed || more != [];
    }
    assert decls[..|decls|] == decls;
    if !performed {
      passed := true;
    }
  }

  /** The body of the loop over declarations. */
  method ValidateDecl(disk: Disk, decl: OutputDecl, expected: Dict, stageId: string, d: Defaults, active: Path,
                      sharedDir: Path, digest: Digest)
    returns (records: seq<ValidationRecord>, passed: bool)
    requires Reference(expected)
    modifies disk
    ensures (records, disk.fs) == DeclRecords(old(disk.fs), decl, expected, stageId, d, active, sharedDir, digest)
    ensures passed <==> AllPassed(records)
  {
    records, passed := [], true;
    var (path, shared) := GetOutputScopeAndPath(decl);
    if path.None? {
      return;
    }
    var made := ResolveOutputPath(disk, path.value, shared, active, sharedDir);
    if made.Err? {
      return;
    }
    var resolved := made.value;
    var files := Matches(disk.fs, expected, path.value, resolved, active, sharedDir);
    assert forall i :: 0 <= i < |files| ==> files[i] in files;
    records, passed := CheckMatches(disk.fs, stageId, files, shared, DeclRepro(decl), d, active, sharedDir, digest);
  }

  /** Checks each covered file in turn. */
  method CheckMatches(fs: FileSystem, stageId: string, files: seq<(string, Artifact)>, declShared: bool,
                      declRepro: Option<Repro>, d: Defaults, active: Path, sharedDir: Path, digest: Digest)
    returns (records: seq<ValidationRecord>, passed: bool)
    requires forall i :: 0 <= i < |files| ==> files[i].1.hash.Some?
    ensures records == CheckFiles(fs, stageId, files, declShared, declRepro, d, active, sharedDir, digest)
    ensures passed <==> AllPassed(records)
  {
    records, passed := [], true;
    for j := 0 to |files|
      invariant records == CheckFiles(fs, stageId, files[..j], declShared, declRepro, d, active, sharedDir, digest)
      invariant passed <==> AllPassed(records)
    {
      CheckFilesStep(fs, stageId, files, j, declShared, declRepro, d, active, sharedDir, digest);
      var rec, success, mode := CheckOne(fs, stageId, files[j].0, files[j].1, declShared, declRepro, d, active,
                                         sharedDir, digest);
      PassedStep(records, rec);
      records := records + [rec];
      if !success && mode != "ignore" {
        passed := false;
      }
    }
    assert files[..|files|] == files;
  }

  lemma CheckFilesStep(fs: FileSystem, stageId: string, files: seq<(string, Artifact)>, j: nat, declShared: bool,
                       declRepro: Option<Repro>, d: Defaults, active: Path, sharedDir: Path, digest: Digest)
    requires forall i :: 0 <= i < |files| ==> files[i].1.hash.Some?
    requires j < |files|
    ensures CheckFiles(fs, stageId, files[..j + 1], declShared, declRepro, d, active, sharedDir, digest) ==
              CheckFiles(fs, stageId, files[..j], declShared, declRepro, d, active, sharedDir, digest)
                + [CheckFile(fs, stageId, files[j].0, files[j].1, declShared, declRepro, d, active, sharedDir, digest)]
  {
    assert files[..j + 1][..j] == files[..j];
  }

  lemma PassedStep(records: seq<ValidationRecord>, rec: ValidationRecord)
    ensures AllPassed(records + [rec]) <==> AllPassed(records) && rec.status != Failed
  {
    AllPassedAppend(records, [rec]);
    assert AllPassed([rec]) <==> rec.status != Failed by { assert [rec][0] == rec; }
  }

  /** The check of one covered file: its record, whether it succeeded, and the
      mode it was checked in. */
  method CheckOne(fs: FileSystem, stageId: string, k: string, e: Artifact, declShared: bool,
                  declRepro: Option<Repro>, d: Defaults, active: Path, sharedDir: Path, digest: Digest)
    returns (rec: ValidationRecord, success: bool, mode: string)
    requires e.hash.Some?
    ensures rec == CheckFile(fs, stageId, k, e, declShared, declRepro, d, active, sharedDir, digest)
    ensures rec.status == Failed <==> !success && mode != "ignore"
  {
    var actual := Location(k, e.shared.GetOr(declShared), active, sharedDir);
    var s := Effective(e.reproduction, declRepro, d);
    mode := s.mode;
    var status: Status;
    var message: Message;
    if mode == "ignore" {
      success, status, message := true, Ignored, Text("Validation skipped (ignore mode)");
    } else if !Exists(fs, actual) {
      success, status, message := false, Failed, Text("Output file not found: " + Show(actual));
    } else {
      var v := ValidateArtifact(fs, actual, e.hash.value, mode, s.tolAbs, s.tolRel, s.threshold, digest);
      success, message := v.success, v.message;
      status := if success then Passed else Failed;
    }
    rec := ValidationRecord(stageId, Show(actual), status, mode, message);
  }
}
