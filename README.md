# cresp engine model

A Dafny model of the engine of cresp, a tool that records the outputs of an
experiment's stages and later checks that a reproduction run produces the same
outputs. The model covers four layers:

- **Fingerprinting.** A file's hash is a digest fed the file's bytes chunk by chunk. A directory's hash is one
  running digest fed, for every regular file under it in sorted relative-path order, that path and then the
  file's hex hash.
- **The tiered validator.** `strict`, `standard` and `tolerant` checks sit behind an exact-match fast path, and
  every other type is an "unknown validation type" failure.
- **Output scoping and stage declarations.** This covers the separator heuristic for shared outputs, the
  resolution of a declared path against the shared or the mode directory, the filling of stage defaults into each
  output's reproduction record, and the check of the reproduction mode.
- **Running a workflow.** This covers the depth-first topological sort of stages, the memoised recursive stage
  runner with its skip check, hash recording in experiment mode, output validation with file > declaration >
  stage precedence in reproduction mode, and the stop/continue failure policy of the run loop.

The digest is a function parameter (`Digest`, a map from algorithm name and fed bytes to a hex string), so
nothing depends on SHA-256 itself. The filesystem is a map from relative path (a list of parts) to
`File(bytes) | Dir | Special`. The ledger (the configuration's stage store) and the filesystem are objects
(`Records.Ledger`, `FileSystems.Disk`) that the imperative parts update in place. The order in which the operating
system lists a directory is a parameter (`HashUpdate.Lister`), constrained only to list every entry once.
`cresp/core/config.py` is not part of this model. Its `get_stage`, `add_stage`, `update_artifact` and `save` are
modelled from their call sites: `update_artifact` updates the first output entry with the same path and keeps its
description and reproduction record, or appends the entry.

Modules, one per file: `Common`, `PathOrder`, `Utf8`, `FileSystems`, `Fingerprint`, `Validation`, `Records`,
`Scope`, `Stages`, `SkipCheck`, `HashUpdate`, `OutputValidation`, `Execution`, `Workflows`.

## Model

| member | source | states |
|---|---|---|
| Common.Split | cresp/core/workflow/utils.py:19-22 | the parts pathlib makes of a path string are never empty, never "." and never contain a separator |
| Common.Show | cresp/core/workflow/validation.py:114-115 | `str()` of a relative path is never empty (the empty path prints as ".") |
| Common.SplitJoin | cresp/core/workflow/validation.py:114-115 | round trip: parsing the string of a path gives back the same parts |
| Common.ShowValid | cresp/core/workflow/validation.py:141-144 | a relative key stored as a string resolves back to the same path under its base directory |
| PathOrder.PathLtIrreflexive | cresp/core/utils.py:68 | no path sorts before itself |
| PathOrder.PathLtTransitive | cresp/core/utils.py:68 | the part-by-part path order is transitive |
| PathOrder.PathLtTotal | cresp/core/utils.py:68 | any two different paths are ordered one way or the other |
| PathOrder.SortSet | cresp/core/utils.py:68 | the sorted enumeration of a set is strictly increasing and holds exactly the set's members |
| PathOrder.Sorted | cresp/core/utils.py:68 | `sorted()` returns an ordered permutation of its input |
| PathOrder.SortedListing | cresp/core/utils.py:68 | sorting any duplicate-free listing of a set gives the same sequence, so the enumeration order cannot matter |
| Utf8.RoundTrip | cresp/core/utils.py:72-74 | decoding the UTF-8 encoding of a string gives the string back |
| Utf8.Injective | cresp/core/utils.py:72 | different relative paths are fed to the digest as different bytes |
| FileSystems.MakeDirs | cresp/core/workflow/utils.py:25 | a successful `mkdir(parents=True, exist_ok=True)` only adds directories where nothing was, and leaves the path a directory |
| FileSystems.MakeDirsOnlyPrefixes | cresp/core/workflow/utils.py:25 | the directories created are the path and its ancestors |
| FileSystems.MakeDirsIdempotent | cresp/core/workflow/utils.py:25 | creating the same directories a second time changes nothing |
| FileSystems.MakeDirsFails | cresp/core/workflow/utils.py:25 | creation fails exactly when the deepest existing prefix of the path is not a directory |
| Fingerprint.RunningDigest.constructor | cresp/core/utils.py:55 | a new hash object for the algorithm has been fed nothing |
| Fingerprint.RunningDigest.Update | cresp/core/utils.py:59 | `update` appends the data to what the hash object was fed |
| Fingerprint.Read | cresp/core/utils.py:58 | `read(n)` returns the next bytes of the file, empty exactly when `n` is 0 or at end of file, and the rest of the file for a negative `n` |
| Fingerprint.CalculateFileHash | cresp/core/utils.py:53-60 | any non-zero chunk size gives the digest of the whole content, chunk size 0 gives the digest of no bytes, and a path that is not a file gives the error `open` raises |
| Fingerprint.Rglob | cresp/core/utils.py:68 | every entry under the directory is listed exactly once |
| Fingerprint.OnlyFiles | cresp/core/utils.py:68 | the `is_file()` filter keeps exactly the listed regular files, each once |
| Fingerprint.SortedFilesInDir | cresp/core/utils.py:68 | the sorted files are regular files under the directory |
| Fingerprint.CalculateDirHash | cresp/core/utils.py:63-75 | a directory hashes to the digest of its sorted feed whatever order the listing came in, and any other path raises "Not a directory" |
| Fingerprint.HashFiles | cresp/core/utils.py:69-75 | the loop feeds each file's relative path and then its hex hash, in order |
| Fingerprint.HashEntry | cresp/core/utils.py:71-74 | one iteration appends the file's relative path and then its hash |
| Fingerprint.CalculateArtifactHash | cresp/core/utils.py:78-86 | a file gets its file hash and a directory its directory hash; anything else is an error |
| Fingerprint.FeedCongruent | cresp/core/utils.py:70-74 | the feed depends only on the listed files' contents |
| Fingerprint.AddingDirsKeepsHash | cresp/core/utils.py:78-86 | creating directories (as resolution does) changes the hash of nothing that already existed |
| Fingerprint.EmptyDirFeed | cresp/core/utils.py:68-75 | a directory with no regular file under it is hashed over empty input, whatever subdirectories it holds |
| Fingerprint.SingleFileFeed | cresp/core/utils.py:70-74 | a one-file directory feeds that file's relative path and then its hash |
| Fingerprint.RenameChangesFeed | cresp/core/utils.py:71-74 | renaming the only file changes the fed bytes even when its content is the same |
| Fingerprint.ContentChangesFeed | cresp/core/utils.py:73-74 | changing the only file's hash changes the fed bytes |
| Validation.ValidateStrict | cresp/core/validation/strict.py:8-21 | success is exactly hash equality, with the two exact messages; a hashing error propagates |
| Validation.MatchCount | cresp/core/validation/tolerant.py:18-19 | the matches counted never exceed either length |
| Validation.MatchCountSelf | cresp/core/validation/tolerant.py:18-19 | a string matches itself at every position |
| Validation.MatchCountPrefix | cresp/core/validation/tolerant.py:18-19 | characters are compared position by position: extending the current hash adds only the matches of the extension against the reference's characters at the same positions |
| Validation.Similarity | cresp/core/validation/tolerant.py:18-21 | similarity lies in [0, 1] and is 1 exactly when every reference character is matched |
| Validation.SimilaritySelf | cresp/core/validation/tolerant.py:19-21 | identical hashes have similarity 1 |
| Validation.ValidateTolerant | cresp/core/validation/tolerant.py:8-32 | fails without a threshold, propagates a hashing error, fails on an empty reference, and otherwise passes iff similarity >= threshold |
| Validation.CompareNumericMeaning | cresp/core/validation/standard.py:10-35 | true exactly when within the absolute tolerance, or both zero under a relative tolerance, or within the relative tolerance, or equal when no tolerance is given |
| Validation.CompareNumericSymmetric | cresp/core/validation/standard.py:10-35 | the comparison does not depend on the order of the values |
| Validation.CompareNumericReflexive | cresp/core/validation/standard.py:17-35 | a value matches itself under non-negative tolerances, and not under a negative absolute tolerance alone |
| Validation.CompareNumericMonotone | cresp/core/validation/standard.py:17-29 | widening the tolerances never rejects an accepted pair |
| Validation.Suffix | cresp/core/validation/standard.py:76 | `Path.suffix` is empty or a proper dotted tail of the name |
| Validation.ValidateStandard | cresp/core/validation/standard.py:62-123 | success is exactly hash equality for files and directories; a hashing error propagates |
| Validation.StandardIgnoresTolerances | cresp/core/validation/standard.py:73-111 | tolerances never change the success flag, only the failure message of a .csv/.json/.npy/.npz file |
| Validation.ValidateArtifact | cresp/core/validation/__init__.py:11-45 | a missing path fails with "Artifact does not exist", and a hash match passes with "Exact hash match" for every type |
| Validation.ValidateArtifactExactTypes | cresp/core/validation/__init__.py:41-78 | every type except "tolerant" passes iff the hash matches; types other than strict and standard (including "ignore") fail with "Unknown validation type" |
| Validation.ValidateArtifactStrictMessages | cresp/core/validation/__init__.py:48-57 | strict reports a mismatch, or the cause of a hashing error |
| Validation.ValidateArtifactTolerant | cresp/core/validation/__init__.py:41-75 | tolerant passes iff the hash matches or the similarity reaches a given threshold |
| Validation.ValidateArtifactCatches | cresp/core/validation/__init__.py:80-82 | an error inside a tier's check becomes a failed verdict naming the type and the cause |
| Records.Put | cresp/core/workflow/validation.py:60-64 | `d[k] = v` makes `k` map to `v`, leaves other keys alone, and appends a new key last |
| Records.Index | cresp/core/workflow/validation.py:60-64 | the comprehension keeps only entries that pass the filter, each under its own path |
| Records.IndexLookup | cresp/core/workflow/validation.py:60-64 | a path is a key iff some kept entry has it, and it maps to the last such entry |
| Records.Ledger.constructor | cresp/core/workflow/workflow.py:78-99 | the workflow's configuration starts out holding the loaded stages, all of them saved |
| Records.Ledger.GetStage | cresp/core/workflow/validation.py:43 | `get_stage` finds exactly the stored records |
| Records.Ledger.AddStage | cresp/core/workflow/workflow.py:231-234 | `add_stage` stores the record under its id |
| Records.Ledger.PutStage | cresp/core/workflow/workflow.py:238-262 | the record updated in place replaces the stored one |
| Records.Ledger.UpdateArtifact | cresp/core/workflow/validation.py:317-318 | `update_artifact` writes the entry into the stage's outputs |
| Records.Ledger.Save | cresp/core/workflow/workflow.py:457-458 | `save` persists the current stages |
| Records.FindPath | cresp/core/workflow/validation.py:317-318 | finds the first output with the key, or reports there is none |
| Records.UpsertEffect | cresp/core/workflow/validation.py:317-318 | an update merges into the first entry with the key, or appends; nothing else changes |
| Records.UpsertHolds | cresp/core/workflow/validation.py:317-318 | after an update the key finds the new hash, and every other key finds what it found before |
| Scope.GetOutputScopeAndPath | cresp/core/workflow/utils.py:30-55 | a string is shared iff it has no separator; a dict's "shared" key overrides the heuristic; any other declaration gives no path |
| Scope.ResolveOutputPath | cresp/core/workflow/utils.py:7-27 | the path joins the shared or the mode directory, after its parent is created; a failed creation changes nothing |
| Stages.DescriptionOf | cresp/core/workflow/stage.py:55 | the description, else the docstring, else the fallback; never empty |
| Stages.SetDefaults | cresp/core/workflow/stage.py:93-101 | the mode is always set, an explicit mode is kept, and the effective settings of every file are unchanged |
| Stages.SetDefaultsIdempotent | cresp/core/workflow/stage.py:93-101 | filling the defaults twice is the same as once |
| Stages.ArtifactOf | cresp/core/workflow/stage.py:80-90 | only strings and dicts with a path give a ledger entry |
| Stages.ArtifactOfMeaning | cresp/core/workflow/stage.py:83-116 | the entry keeps the path, gets a reproduction record with a mode and the same effective settings, gets a hash method when hashed, and a string is shared iff it has no separator |
| Stages.FilledKeepsSettings | cresp/core/workflow/stage.py:86-101 | the in-place update of a user's dict declaration keeps the settings its files are validated with |
| Stages.ArtifactsOnePerDecl | cresp/core/workflow/stage.py:79-118 | well-formed declarations give one entry each, in order |
| Stages.StageFunction.constructor | cresp/core/workflow/stage.py:18-68 | missing outputs, dependencies and parameters become empty; the description and code handler are derived; the defaults are stored |
| Stages.StageFunction.ToStageConfig | cresp/core/workflow/stage.py:77-127 | the record holds the id, description, dependencies, one entry per valid output, code handler and parameters; the declarations are left filled |
| Stages.NewStage | cresp/core/workflow/stage.py:60-68 | construction fails with InvalidMode exactly when the mode is not strict, standard, tolerant or ignore |
| SkipCheck.CheckTarget | cresp/core/workflow/validation.py:82-91 | a string is never shared here; a dict is shared only when its "shared" value is true; other declarations are skipped |
| SkipCheck.InsideEntries | cresp/core/workflow/validation.py:138-157 | the collected entries are ledger entries under their own keys |
| SkipCheck.InsideEntriesMembers | cresp/core/workflow/validation.py:138-157 | the entries collected for a directory are exactly the recorded entries inside it |
| SkipCheck.InsideEntriesAll | cresp/core/workflow/validation.py:138-167 | something is collected iff some entry lies inside, and every collected file passes iff every entry inside passes |
| SkipCheck.Collect | cresp/core/workflow/validation.py:120-170 | whatever is collected is non-empty and taken from the ledger |
| SkipCheck.CheckDecl | cresp/core/workflow/validation.py:74-223 | only an invalid declaration is skipped, and a passing one checked at least one file |
| SkipCheck.FileDeclaration | cresp/core/workflow/validation.py:120-133 | a declared file passes iff its key is recorded with a hash in the declared scope and it validates |
| SkipCheck.CollectDirMeaning | cresp/core/workflow/validation.py:136-167 | a directory collects files that all validate iff some entry lies inside and every entry inside exists, has the declared scope and validates |
| SkipCheck.DirectoryDeclaration | cresp/core/workflow/validation.py:136-220 | a declared directory passes iff the ledger records a hashed file inside it and every such file exists, has the declared scope and validates |
| SkipCheck.MissingDeclaration | cresp/core/workflow/validation.py:94-104 | a path that is neither file nor directory, or whose parent cannot be created, means the stage must run |
| SkipCheck.BareNameRecordedShared | cresp/core/workflow/validation.py:82-84 | a bare file name recorded as shared never passes unless a directory of that name exists in the mode directory |
| SkipCheck.NothingRecordedNeverSkips | cresp/core/workflow/validation.py:43-68 | no record, no outputs, no declarations or no hashed entry means no skip |
| SkipCheck.SkipNeedsADeclaration | cresp/core/workflow/validation.py:225-227 | a skip needs a file checked, so some declaration was well formed |
| SkipCheck.CheckOnlyCreatesDirs | cresp/core/workflow/validation.py:94-104 | the whole check changes the filesystem only by creating directories |
| SkipCheck.StepOnlyCreatesDirs | cresp/core/workflow/validation.py:94-104 | one declaration changes the filesystem only by creating directories |
| SkipCheck.CheckOutputsUnchanged | cresp/core/workflow/validation.py:24-227 | the answer and the filesystem after it are those of the specification `Unchanged` |
| SkipCheck.CheckAll | cresp/core/workflow/validation.py:70-227 | the loop stops at the first changed declaration and answers whether any file was checked |
| SkipCheck.CheckOne | cresp/core/workflow/validation.py:74-223 | one loop iteration is the specification of one declaration |
| SkipCheck.CollectFiles | cresp/core/workflow/validation.py:120-170 | collects the files to validate as specified |
| SkipCheck.CollectInDir | cresp/core/workflow/validation.py:136-167 | returns "changed" only if some entry inside is stale; otherwise no entry is stale and the files are the entries inside |
| SkipCheck.ValidateFiles | cresp/core/workflow/validation.py:177-220 | succeeds iff every collected file validates |
| HashUpdate.UpdateTarget | cresp/core/workflow/validation.py:256-273 | the path and scope are those of `get_output_scope_and_path`, and the hash method defaults to sha256 |
| HashUpdate.DirEntries | cresp/core/workflow/validation.py:327-351 | one entry per file |
| HashUpdate.DirEntriesAt | cresp/core/workflow/validation.py:330-340 | each entry holds the file's key relative to the base, its hash, its method and its scope |
| HashUpdate.Listed | cresp/core/workflow/validation.py:327-328 | the files hashed are regular files under the directory |
| HashUpdate.Pairs | cresp/core/workflow/validation.py:321 | the returned pairs are the path and hash of each entry written, in order |
| HashUpdate.RecordedAppend | cresp/core/workflow/validation.py:317-318 | writing two batches of entries is writing the first, then the second |
| HashUpdate.LedgerHoldsLastHash | cresp/core/workflow/validation.py:311-318 | after recording, each key's ledger entry holds the hash, method and scope written last for it; a stage absent from the ledger stays absent |
| HashUpdate.RecordedKeepsStages | cresp/core/workflow/validation.py:317-318 | recording adds and removes no stage |
| HashUpdate.KeyNamesFile | cresp/core/workflow/validation.py:306-308 | the relative key joined onto the base names the hashed file |
| HashUpdate.ListedUnderBase | cresp/core/workflow/validation.py:326-332 | a directory's files lie under the scope's base directory |
| HashUpdate.ConfirmsKept | cresp/core/workflow/validation.py:288 | creating directories keeps every recorded hash confirmed |
| HashUpdate.DirEntriesConfirm | cresp/core/workflow/validation.py:322-351 | with sha256 as the method, every entry written for a directory names a file whose hash it holds |
| HashUpdate.UpdateDeclConfirms | cresp/core/workflow/validation.py:254-360 | one declaration only creates directories and writes only entries confirmed on disk |
| HashUpdate.UpdateAllConfirms | cresp/core/workflow/validation.py:253-366 | all declarations only create directories and write only entries confirmed on disk |
| HashUpdate.RecordedHashesValidate | cresp/core/workflow/validation.py:311-318 | round trip: every hash recorded with sha256 validates as an exact match, for any validation type |
| HashUpdate.UpdateOutputHashes | cresp/core/workflow/validation.py:230-366 | the filesystem, the returned pairs and the ledger are those of the specification; nothing is saved |
| HashUpdate.HashDecl | cresp/core/workflow/validation.py:254-364 | one declaration records its entries as specified |
| HashUpdate.HashDirectory | cresp/core/workflow/validation.py:322-356 | a directory records one entry per file listed |
| HashUpdate.ListFiles | cresp/core/workflow/validation.py:327-328 | the files are those listed, each under the base |
| HashUpdate.RecordFiles | cresp/core/workflow/validation.py:327-351 | each file's entry is written in listing order |
| OutputValidation.DirMatches | cresp/core/workflow/validation.py:485-531 | an entry is matched for a declared directory if and only if it is one of the ledger's keys and lies inside the directory (by the normalised-prefix test or by its resolved location), and it is matched with its own ledger entry |
| OutputValidation.Matches | cresp/core/workflow/validation.py:472-531 | an entry at the declared path is the only match; otherwise a path that is not a directory on disk has no matches, and a directory on disk matches every ledger entry inside it and nothing else |
| OutputValidation.CheckFile | cresp/core/workflow/validation.py:554-662 | the record names the stage, the location and the effective mode; it is ignored iff the mode is "ignore", fails for a missing file, and passes iff the file exists and validates |
| OutputValidation.CheckFiles | cresp/core/workflow/validation.py:554-662 | one record per examined file |
| OutputValidation.Validated | cresp/core/workflow/validation.py:392-418 | no record, no outputs, no declarations or no hashed entry means no records |
| OutputValidation.NoHashedEntries | cresp/core/workflow/validation.py:410-418 | the reference is empty iff no entry has both a path and a hash |
| OutputValidation.ConfirmedFilesPass | cresp/core/workflow/validation.py:554-669 | files on disk with their recorded hash never fail |
| OutputValidation.ConfirmedDeclPasses | cresp/core/workflow/validation.py:424-669 | with every recorded file confirmed, a declaration's checks never fail and only create directories |
| OutputValidation.ConfirmedDeclsPass | cresp/core/workflow/validation.py:424-669 | with every recorded file confirmed, no declaration's check fails |
| OutputValidation.RecordedFilesValidate | cresp/core/workflow/validation.py:369-677 | reproduction succeeds on files as recorded: no record fails |
| OutputValidation.ValidateOutputs | cresp/core/workflow/validation.py:369-677 | the records and the filesystem are those of the specification, and the stage passes iff no record failed |
| OutputValidation.ValidateDecl | cresp/core/workflow/validation.py:424-669 | one declaration's records as specified; it passes iff none failed |
| OutputValidation.CheckMatches | cresp/core/workflow/validation.py:554-669 | the loop's records are the specified ones; it passes iff none failed |
| OutputValidation.CheckOne | cresp/core/workflow/validation.py:554-669 | a record fails iff the check failed in a mode other than "ignore" |
| Execution.TopologicalRanks | cresp/core/workflow/execution.py:191-211 | positions in a topological order rank every dependency below its dependent |
| Execution.Resolver.constructor | cresp/core/workflow/execution.py:185-187 | the order and both visit sets start empty |
| Execution.Resolver.Visit | cresp/core/workflow/execution.py:191-211 | `visit` keeps the order topological, appends the stage after what it depends on, reports a cycle only for a stage that reaches itself, and an unknown dependency only for a name that is not registered |
| Execution.Resolver.VisitDependencies | cresp/core/workflow/execution.py:205-207 | after the loop every dependency is visited, and everything added is reachable from the stage |
| Execution.AppendTopological | cresp/core/workflow/execution.py:209-211 | appending a stage whose dependencies are all placed keeps the order topological |
| Execution.VisitFailureUnresolvable | cresp/core/workflow/execution.py:191-200 | an unknown dependency or a cycle reported by `visit` shows that some dependency is unregistered or some stage reaches itself |
| Execution.ResolveExecutionOrder | cresp/core/workflow/execution.py:175-223 | the order is topological; with a target it ends with the target and holds only what the target depends on; without one it holds every stage; the target error is reported exactly when a given target is unregistered, a cycle only for a stage that reaches itself, an unknown dependency only for an unregistered name some stage depends on; a graph whose dependencies are all registered and acyclic always resolves |
| Execution.RunState.constructor | cresp/core/workflow/workflow.py:269-272 | a run's state starts empty |
| Execution.RunState.Store | cresp/core/workflow/execution.py:116-121 | the stage is marked processed, its status stored and its outcome cached |
| Execution.RunState.Clear | cresp/core/workflow/workflow.py:269-272 | `run` clears results, statuses, executed stages and the cache |
| Execution.RecordOf | cresp/core/workflow/execution.py:112 | the ledger's record of a stage is present exactly when the stage is recorded, and is that record |
| Execution.HandleSpec | cresp/core/workflow/execution.py:146-166 | never a skip; hashes only in experiment mode and the ledger changes only there; Passed or Failed only in reproduction mode, Passed only when every validation record passed; a failure stops the run exactly under "stop" and is otherwise reported as Failed; no validation records outside reproduction mode; no declared outputs means no effect |
| Execution.Executed | cresp/core/workflow/execution.py:124-166 | never a skip; the error is the handler's raise exactly when the handler raises, with the handler's files and the ledger untouched; otherwise the reproduction error only in reproduction mode under "stop"; a completed stage returns the handler's value |
| Execution.Proceeded | cresp/core/workflow/execution.py:105-166 | a skip needs the skip flag and no dependency run, returns `(None, [], SKIPPED)` and leaves the ledger and records untouched |
| Execution.SkipExactly | cresp/core/workflow/execution.py:105-122 | a stage is skipped if and only if it asks for it, no dependency ran, and the skip check finds its outputs unchanged |
| Execution.SkipTouchesOnlyDirs | cresp/core/workflow/execution.py:116-122 | a skip leaves the ledger unchanged, adds no validation record, and only creates directories |
| Execution.ExperimentFailsOnlyByRaising | cresp/core/workflow/execution.py:138-150 | in experiment mode a stage completes exactly when its handler returns, and then returns the handler's value with the hashes `update_output_hashes` computes and records in the ledger |
| Execution.RecordedOutputsReproduce | cresp/core/workflow/execution.py:151-160 | in reproduction mode a handler that returns and leaves every recorded hashed output matching its hash completes with no failed status and no ledger change |
| Execution.RunStage | cresp/core/workflow/execution.py:24-172 | one `run_stage` call as a relation between the states before and after (`Processed`): a cache hit returns the cached outcome with no effect; an unknown stage fails with no effect; otherwise each dependency in order is itself one `run_stage` call from the state the previous one left (`DepsReturned`), the first dependency that fails ends the call with that dependency's own error and its effects, and when all return the stage is processed exactly as `Proceeded` says from the state they left, with `depsRan` set when a dependency was not skipped; a stage that fails is left uncached, and a dependency that failed earlier under "continue" is run again |
| Execution.RunFresh | cresp/core/workflow/execution.py:67-172 | a stage not cached runs its `k` returned dependencies as a chain of `run_stage` calls; then either dependency `k` failed and its error is the result with its effects as the final state, or all returned and the stage is processed as `Proceeded` says from the state they left (`Stepped`) |
| Execution.Proceed | cresp/core/workflow/execution.py:105-172 | the result and the new files, ledger, records, handler calls, cache and executed set are exactly those of `Proceeded` on the old state: a skip is cached with no handler call, anything else goes through `Executed` |
| Execution.RunDependencies | cresp/core/workflow/execution.py:71-103 | the dependencies are processed in order, each by one `run_stage` call from the state the previous left (`DepsReturned`); on success all of them returned and are cached, and the flag says that one was not skipped ("none ran" leaves handler calls, ledger and records unchanged); otherwise the first failing dependency's call is the last one made and its error is re-raised |
| Execution.RunDependency | cresp/core/workflow/execution.py:75-103 | one dependency goes through one `run_stage` call (`Processed`); the result is its cached outcome, a failing dependency is left uncached, and on success the loop's invariant (`Looped`) holds for one more dependency |
| Execution.LoopedStep | cresp/core/workflow/execution.py:73-93 | one more dependency returning from its `run_stage` call extends the chain of dependency calls, keeps the cache growing only by stages ranked below the stage, and updates "a dependency ran" by whether it was skipped |
| Execution.ExecuteStage | cresp/core/workflow/execution.py:124-172 | the result and the new files, ledger, records, handler calls, cache and executed set are exactly those of `Executed` on the old files and ledger: the handler is called once, a raise leaves the stage uncached with the handler's files, a return marks it executed and hands on to the outputs branch |
| Execution.HandleOutputs | cresp/core/workflow/execution.py:146-166 | the hashes, status, stop flag, files, ledger and appended validation records are exactly those of `HandleSpec` on the old files and ledger; the cache, statuses, executed set and handler calls are untouched |
| Workflows.KnownPaths | cresp/core/workflow/workflow.py:246 | the set holds exactly the truthy output paths of the record |
| Workflows.MissingMeaning | cresp/core/workflow/workflow.py:247-258 | appended entries are new and hash-free, and every declared output is known or appended |
| Workflows.MissingNone | cresp/core/workflow/workflow.py:247-258 | when every declared output is known, nothing is appended |
| Workflows.ReconciledKeepsEntries | cresp/core/workflow/workflow.py:238-262 | re-registration keeps every existing entry and its hash, adds only hash-free entries, and covers every declared output |
| Workflows.ReconciledIdempotent | cresp/core/workflow/workflow.py:238-262 | reconciling the same code twice changes the record once |
| Workflows.StageId | cresp/core/workflow/workflow.py:197 | the stage id defaults to the function's name |
| Workflows.Workflow.constructor | cresp/core/workflow/workflow.py:49-127 | keyword defaults; the active directory follows the mode, and is "." for any other mode |
| Workflows.Workflow.GetOutputPath | cresp/core/workflow/workflow.py:146-158 | the path under the active directory, with its parent created |
| Workflows.Workflow.GetSharedDataPath | cresp/core/workflow/workflow.py:160-172 | the path under the shared directory, with its parent created |
| Workflows.Workflow.Stage | cresp/core/workflow/workflow.py:196-215 | an invalid mode and a duplicate id are errors with no change; otherwise the registered stage carries the id (`id or func.__name__`), the function, its code handler, the description fallback, the given dependencies and parameters, the stage defaults built from the mode and tolerances, its declarations filled with those defaults, and the skip flag falling back to the workflow's; the ledger gets its code record |
| Workflows.Workflow.RegisterStage | cresp/core/workflow/workflow.py:219-262 | a duplicate id fails and changes nothing; otherwise the registry gains exactly the stage and the ledger gains or reconciles its record |
| Workflows.Workflow.Run | cresp/core/workflow/workflow.py:264-471 | the run state is cleared and the plan is resolved as specified, and a resolvable graph with a registered or absent target always gets a plan; each attempt is one `run_stage` call for the next planned stage, from the cleared state through to the final files, ledger, records and cache (`Sequenced`, `Processed`); results hold exactly the stages whose run returned; under "stop" the run ends at the first stage that errs, and under "continue" every planned stage is attempted; the ledger is saved only in experiment mode |
| Workflows.Workflow.RunPlan | cresp/core/workflow/workflow.py:308-350 | the loop makes one `run_stage` call per attempted stage of the plan, in order, each from the state the previous one left (`Sequenced`); it tracks returned results, caches only planned stages, and halts as the policy says |
| Workflows.SequencedStep | cresp/core/workflow/workflow.py:308-332 | appending one `run_stage` call for the next planned stage, from the last state reached, extends the run's sequence of attempts |
| Workflows.Workflow.Attempt | cresp/core/workflow/workflow.py:318-350 | one attempt is exactly one `run_stage` call: the cached answer with no effect, the not-found error with no effect, or the stage finished from the state its dependencies left (`Processed`); it caches what it returns and only grows the cache |

## Left out

- Absolute declared paths, ".." components, `resolve()` and symlinks: paths are lists of parts relative to the working directory. A path that is not relative to its base (the `relative_to` ValueError branches) cannot arise in the model.
- Permissions and I/O errors other than a missing or wrongly typed path.
- Floating point: tolerances, thresholds and similarities are reals, so similarity formatting to two decimals is kept only as the reported value.
- `compare_arrays` and the numpy comparison it stands for. No specialized comparison is implemented in the source either.
- Unknown hash algorithms: `getattr(hashlib, method)` failing is not modelled; the algorithm is a string passed to the digest.
- Console output, rich tables and progress bars, and the "Workflow completed with failures" warning. The loop of `Workflow.run` modelled is the rich branch (cresp/core/workflow/workflow.py:308-350), the one that runs: `self.console` is always truthy, because the fallback console defines no `__bool__`. The plain branch (cresp/core/workflow/workflow.py:406-451) would differ only by breaking on a failed validation under "stop", which `run_stage` has already raised as a reproduction error.
- `visualize`, `save_config`, seed setting and `get_dataloader_kwargs`, and configuration-file creation and lookup.
- `batch_update` flushing and configuration validation: the ledger is an in-memory map that `save` copies to `persisted`.
- `validate_outputs` appends to a shared results list; the model returns the records and the run appends them, which is the same list content.
- Ledger entries whose path is None, and the `expected_path is None` guard: paths are strings.
- The exception branches that cannot be reached (joining strings onto a path), and the dict `copy()` plus `_is_shared` bookkeeping, whose effect is folded into the scope rule.
- The set rendering inside the InvalidMode message: the model names the mode and the stage.
- Execution.RunStage: takes a ranking of the stages as a precondition (a topological order exists), so the RecursionError a dependency cycle would cause is not modelled.
- Execution.ResolveExecutionOrder: without a target the contract states that every stage appears in a topological order, not the exact order the registration-order visits give.
- Execution.Resolver.Visit: a cycle is reported only for a stage that reaches itself; that every cycle is reported is not stated.
- HashUpdate.UpdateOutputHashes: the directory listing order is a parameter (`Lister`), so the order of the entries written for a directory is whatever that listing gives.
- SkipCheck.CheckOutputsUnchanged: plain-string outputs are looked for in the mode directory, while hash recording stores a bare name as shared. The model keeps this behaviour and states its consequence in `SkipCheck.BareNameRecordedShared`.
- Records.Ledger.UpdateArtifact: `config.py` is not part of this model. `update_artifact(stage_id, key, entry)` is taken to replace the path, hash, hash method and scope of the first output of that stage whose path is `key`, keeping its description and reproduction record. Without such an output it appends the entry. A stage missing from the ledger is left unchanged.
- Stages.StageFunction.ToStageConfig: an explicit None in an output declaration is treated as if the key were absent. This covers `"reproduction": None` and `"mode": None`. The source's `artifact_base.get("reproduction", {})` returns None for `"reproduction": None`, and `setdefault` then raises AttributeError (cresp/core/workflow/stage.py:92-95). The model fills the stage defaults and drops the exception. For an explicit `"mode": None`, the model uses the stage mode where the source's `setdefault` keeps None.
