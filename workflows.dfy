/** The workflow object: the mode and directories fixed at construction, the
    registry of stages, the reconciliation of a registered stage with its
    ledger record, and a run over the execution plan. */
module Workflows {
  import opened Common
  import opened Records
  import opened FileSystems
  import opened Fingerprint
  import opened Stages
  import opened Scope
  import opened HashUpdate
  import opened Execution

  // ------------------------------------------------ reconciling a ledger record

  /** The truthy output paths of a ledger record. */
  function KnownPaths(outs: seq<Artifact>): (r: set<string>)
    ensures forall p :: p in r <==> p != "" && exists o :: o in outs && o.path == p
  {
    set o | o in outs && o.path != "" :: o.path
  }

  /** The entry written for a declared output the ledger does not know: its
      path and description, with no hash yet. */
  function Minimal(o: Artifact): Artifact {
    Artifact(o.path, o.description, None, None, None, None)
  }

  /** The entries appended, in declaration order, for the declared outputs
      whose path is not among `known`. */
  function Missing(code: seq<Artifact>, known: set<string>): seq<Artifact> {
    if code == [] then []
    else
      var prev := Missing(code[..|code| - 1], known);
      var o := code[|code| - 1];
      if o.path in known then prev else prev + [Minimal(o)]
  }

  /** The record already in the ledger after a stage with the record `code`
      is registered: the descriptive fields follow the code, the outputs keep
      every entry and gain the missing ones. */
  function Reconciled(existing: StageRecord, code: StageRecord): StageRecord {
    var outs := existing.outputs.GetOr([]);
    var added := Missing(code.outputs.GetOr([]), KnownPaths(outs));
    existing.(description := code.description, dependencies := code.dependencies,
              codeHandler := code.codeHandler, parameters := code.parameters,
              outputs := if added == [] then existing.outputs else Some(outs + added))
  }

  /** Every appended entry is new and carries no hash, and every declared
      output is either known or appended. */
  lemma {:induction false} MissingMeaning(code: seq<Artifact>, known: set<string>)
    ensures forall a :: a in Missing(code, known) ==> a.hash.None? && a.path !in known
    ensures forall a :: a in Missing(code, known) ==> exists o :: o in code && a == Minimal(o)
    ensures forall o :: o in code ==> o.path in known || Minimal(o) in Missing(code, known)
    decreases |code|
  {
    if code != [] {
      var init := code[..|code| - 1];
      MissingMeaning(init, known);
      assert forall o :: o in init ==> o in code;
      assert code == init + [code[|code| - 1]];
    }
  }

  /** When every declared output is known, nothing is appended. */
  lemma {:induction false} MissingNone(code: seq<Artifact>, known: set<string>)
    requires forall o :: o in code ==> o.path in known
    ensures Missing(code, known) == []
    decreases |code|
  {
    if code != [] {
      var init := code[..|code| - 1];
      assert forall o :: o in init ==> o in code;
      MissingNone(init, known);
    }
  }

  /** Registration never drops or alters an existing ledger entry (so the
      recorded hashes survive); the entries it adds have no hash; and every
      declared output ends up in the record. */
  lemma ReconciledKeepsEntries(existing: StageRecord, code: StageRecord)
    ensures var outs := existing.outputs.GetOr([]);
            var outs' := Reconciled(existing, code).outputs.GetOr([]);
            && |outs| <= |outs'| && outs'[..|outs|] == outs
            && (forall j :: |outs| <= j < |outs'| ==> outs'[j].hash.None?)
            && forall o :: o in code.outputs.GetOr([]) ==> exists a :: a in outs' && a.path == o.path
  {
    var outs := existing.outputs.GetOr([]);
    var added := Missing(code.outputs.GetOr([]), KnownPaths(outs));
    var outs' := Reconciled(existing, code).outputs.GetOr([]);
    MissingMeaning(code.outputs.GetOr([]), KnownPaths(outs));
    if added != [] {
      assert outs' == outs + added;
      forall j | |outs| <= j < |outs'| ensures outs'[j].hash.None? {
        assert outs'[j] == added[j - |outs|];
      }
      forall o | o in code.outputs.GetOr([]) ensures exists a :: a in outs' && a.path == o.path {
        if o.path in KnownPaths(outs) {
          var a :| a in outs && a.path == o.path;
          assert a in outs';
        } else {
          assert Minimal(o) in outs';
        }
      }
    } else {
      assert outs' == outs;
    }
  }

  /** Registering the same code twice changes the ledger once: when every
      declared path is non-empty, a reconciled record is a fixed point. */
  lemma ReconciledIdempotent(existing: StageRecord, code: StageRecord)
    requires forall o :: o in code.outputs.GetOr([]) ==> o.path != ""
    ensures Reconciled(Reconciled(existing, code), code) == Reconciled(existing, code)
  {
    var once := Reconciled(existing, code);
    var outs' := once.outputs.GetOr([]);
    ReconciledKeepsEntries(existing, code);
    forall o | o in code.outputs.GetOr([]) ensures o.path in KnownPaths(outs') {
      var a :| a in outs' && a.path == o.path;
    }
    MissingNone(code.outputs.GetOr([]), KnownPaths(outs'));
  }

  // ---------------------------------------------------------------- the workflow

  /** Why registering a stage failed: the stage's own mode check, or an id
      already in use. */
  datatype RegisterError = Invalid(error: StageError) | Duplicate(id: string)
  {
    function Message(): string {
      match this
      case Invalid(InvalidMode(mode, id)) =>
        "Invalid reproduction_mode '" + mode + "' for stage '" + id + "'."
      case Duplicate(id) => "Stage ID '" + id + "' already registered for this workflow instance."
    }
  }

  /** `id or func.__name__`. */
  function StageId(id: Option<string>, func: Handler): (r: string)
    ensures Truthy(id) ==> r == id.value
    ensures !Truthy(id) ==> r == func.name
  {
    if Truthy(id) then id.value else func.name
  }

  /** The record `to_stage_config` builds for `s` from its declarations `decls`. */
  function CodeRecord(s: StageFunction, decls: seq<OutputDecl>): StageRecord {
    StageRecord(s.id, s.description, s.dependencies, Some(Artifacts(decls, s.defaults)), s.codeHandler,
                s.parameters)
  }

  /** What registering the code record does to the ledger's stages. */
  function Registered(stages: map<string, StageRecord>, code: StageRecord): map<string, StageRecord> {
    stages[code.id := if code.id in stages then Reconciled(stages[code.id], code) else code]
  }

  class Workflow {
    const mode: string
    const skipUnchanged: bool
    const failureMode: string
    const experimentDir: Path
    const reproductionDir: Path
    const sharedDir: Path
    /** The directory outputs of the current mode are written to. */
    const active: Path
    const ledger: Ledger
    const disk: Disk
    const run: RunState
    const digest: Digest
    const rglob: Lister
    /** The registered stages, and their ids in registration order. */
    var stages: map<string, StageFunction>
    var ids: seq<string>

    ghost predicate Valid()
      reads this
    {
      && ValidLister(rglob)
      && (forall k :: k in stages <==> k in ids)
      && Distinct(ids)
    }

    /** The settings every `run_stage` call of a run receives. */
    function Settings(): Env {
      Env(active, sharedDir, mode, failureMode, digest, rglob)
    }

    /** Each keyword argument falls back to its default; the active directory
        follows the mode, and is "." for a mode that is neither. */
    constructor (ledger: Ledger, disk: Disk, digest: Digest, rglob: Lister, mode: Option<string>,
                 skipUnchanged: Option<bool>, failureMode: Option<string>, experimentDir: Option<string>,
                 reproductionDir: Option<string>, sharedDir: Option<string>)
      requires ValidLister(rglob)
      ensures Valid() && stages == map[] && ids == []
      ensures this.mode == mode.GetOr("experiment") && this.skipUnchanged == skipUnchanged.GetOr(false)
      ensures this.failureMode == failureMode.GetOr("stop")
      ensures && this.experimentDir == Split(experimentDir.GetOr("experiment"))
              && this.reproductionDir == Split(reproductionDir.GetOr("reproduction"))
              && this.sharedDir == Split(sharedDir.GetOr("shared"))
      ensures this.mode == "experiment" ==> active == this.experimentDir
      ensures this.mode == "reproduction" ==> active == this.reproductionDir
      ensures this.mode != "experiment" && this.mode != "reproduction" ==> active == []
      ensures this.ledger == ledger && this.disk == disk && this.digest == digest && this.rglob == rglob
      ensures fresh(run) && run.cache == map[] && run.results == []
    {
      var m := mode.GetOr("experiment");
      var e := Split(experimentDir.GetOr("experiment"));
      var rd := Split(reproductionDir.GetOr("reproduction"));
      this.mode := m;
      this.skipUnchanged := skipUnchanged.GetOr(false);
      this.failureMode := failureMode.GetOr("stop");
      this.experimentDir := e;
      this.reproductionDir := rd;
      this.sharedDir := Split(sharedDir.GetOr("shared"));
      this.active := if m == "experiment" then e else if m == "reproduction" then rd else [];
      this.ledger := ledger;
      this.disk := disk;
      this.digest := digest;
      this.rglob := rglob;
      this.run := new RunState();
      stages := map[];
      ids := [];
    }

    /** `get_output_path`: the path under the active directory, after creating
        its parent. */
    method GetOutputPath(relative: string) returns (r: Result<Path, string>)
      modifies disk
      ensures r.Ok? <==> MakeDirs(old(disk.fs), Parent(active + Split(relative))).Ok?
      ensures r.Ok? ==> && r.value == active + Split(relative) && IsDir(disk.fs, Parent(r.value))
                        && AddsOnlyDirs(old(disk.fs), disk.fs)
      ensures r.Err? ==> disk.fs == old(disk.fs)
    {
      r := ResolveOutputPath(disk, relative, false, active, sharedDir);
    }

    /** `get_shared_data_path`: the path under the shared data directory,
        after creating its parent. */
    method GetSharedDataPath(relative: string) returns (r: Result<Path, string>)
      modifies disk
      ensures r.Ok? <==> MakeDirs(old(disk.fs), Parent(sharedDir + Split(relative))).Ok?
      ensures r.Ok? ==> && r.value == sharedDir + Split(relative) && IsDir(disk.fs, Parent(r.value))
                        && AddsOnlyDirs(old(disk.fs), disk.fs)
      ensures r.Err? ==> disk.fs == old(disk.fs)
    {
      r := ResolveOutputPath(disk, relative, true, active, sharedDir);
    }

    /** The `stage` decorator applied to `func`: the id defaults to the
        function's name and an unset skip flag to the workflow's. */
    method Stage(func: Handler, id: Option<string>, description: Option<string>,
                 outputs: Option<seq<OutputDecl>>, dependencies: Option<seq<string>>,
                 parameters: Option<map<string, string>>, reproductionMode: string, tolAbs: Option<real>,
                 tolRel: Option<real>, threshold: Option<real>, skipIfUnchanged: Option<bool>)
      returns (r: Result<StageFunction, RegisterError>)
      requires Valid()
      modifies this, ledger
      ensures Valid() && ledger.persisted == old(ledger.persisted)
      ensures reproductionMode !in AllowedModes ==>
                && r == Err(Invalid(InvalidMode(reproductionMode, StageId(id, func))))
                && stages == old(stages) && ledger.stages == old(ledger.stages)
      ensures reproductionMode in AllowedModes && StageId(id, func) in old(stages) ==>
                && r == Err(Duplicate(StageId(id, func)))
                && stages == old(stages) && ledger.stages == old(ledger.stages)
      ensures reproductionMode in AllowedModes && StageId(id, func) !in old(stages) ==>
                && r.Ok? && r.value.id == StageId(id, func) && r.value.func == func
                && r.value.skipIfUnchanged == skipIfUnchanged.GetOr(skipUnchanged)
                && r.value.defaults.mode == reproductionMode
                && r.value.description == DescriptionOf(description, func.doc, StageId(id, func))
                && r.value.dependencies == dependencies.GetOr([]) && r.value.parameters == parameters.GetOr(map[])
                && r.value.codeHandler == func.moduleName + "." + func.qualname
                && r.value.defaults == Defaults(reproductionMode, tolAbs, tolRel, threshold)
                && r.value.outputs == Filled(outputs.GetOr([]), r.value.defaults)
                && stages == old(stages)[r.value.id := r.value]
                && ledger.stages == Registered(old(ledger.stages), CodeRecord(r.value, outputs.GetOr([])))
    {
      var stageId := StageId(id, func);
      var finalSkip := skipIfUnchanged.GetOr(skipUnchanged);
      var made := NewStage(func, stageId, description, outputs, dependencies, parameters, reproductionMode,
                           tolAbs, tolRel, threshold, finalSkip);
      if made.Err? {
        return Err(Invalid(made.error));
      }
      var s := made.value;
      var err := RegisterStage(s);
      if err.Some? {
        return Err(err.value);
      }
      return Ok(s);
    }

    /** `_register_stage`: a new id is registered and its record added to the
        ledger, or reconciled with the record already there. */
    method RegisterStage(s: StageFunction) returns (err: Option<RegisterError>)
      requires Valid()
      modifies this, s, ledger
      ensures Valid() && ledger.persisted == old(ledger.persisted)
      ensures s.id in old(stages) ==>
                && err == Some(Duplicate(s.id)) && stages == old(stages) && ids == old(ids)
                && ledger.stages == old(ledger.stages) && s.outputs == old(s.outputs)
      ensures s.id !in old(stages) ==>
                && err.None? && stages == old(stages)[s.id := s] && ids == old(ids) + [s.id]
                && ledger.stages == Registered(old(ledger.stages), CodeRecord(s, old(s.outputs)))
                && s.outputs == Filled(old(s.outputs), s.defaults)
    {
      if s.id in stages {
        return Some(Duplicate(s.id));
      }
      stages := stages[s.id := s];
      ids := ids + [s.id];
      var record := s.ToStageConfig();
      var existing := ledger.GetStage(s.id);
      if existing.None? {
        ledger.AddStage(record);
      } else {
        var current := existing.value;
        var outs := current.outputs.GetOr([]);
        var known := KnownPaths(outs);
        var code := record.outputs.GetOr([]);
        var added: seq<Artifact> := [];
        for i := 0 to |code|
          invariant added == Missing(code[..i], known)
        {
          assert code[..i + 1][..i] == code[..i];
          if code[i].path !in known {
            added := added + [Minimal(code[i])];
          }
        }
        assert code[..|code|] == code;
        var merged := current.(description := record.description, dependencies := record.dependencies,
                               codeHandler := record.codeHandler, parameters := record.parameters,
                               outputs := if added == [] then current.outputs else Some(outs + added));
        ledger.PutStage(s.id, merged);
      }
      return None;
    }

    /** `run`: clears the run state, plans, runs each planned stage in order,
        and saves the ledger in experiment mode. A stage that raises or fails
        validation halts the run under "stop" and is passed over under
        "continue"; an unresolvable plan is the error. `outcomes` holds what
        each attempted stage of `plan` returned. */
    method Run(target: Option<string>)
      returns (r: Result<map<string, Option<string>>, ResolveError>, ghost plan: seq<string>,
               ghost outcomes: seq<Result<Outcome, RunError>>, ghost snaps: seq<Snapshot>)
      requires Valid()
      modifies run, disk, ledger
      ensures r.Err? ==> && ledger.stages == old(ledger.stages) && ledger.persisted == old(ledger.persisted)
                         && disk.fs == old(disk.fs) && run.cache == map[] && run.results == []
      ensures r.Err? && Truthy(target) && target.value !in stages ==> r.error == TargetNotRegistered(target.value)
      ensures r.Err? && r.error.CircularDependency? ==> Reaches(stages, r.error.id, r.error.id)
      ensures r.Err? && r.error.UnknownDependency? ==>
                r.error.id !in stages && exists v :: v in stages && r.error.id in stages[v].dependencies
      ensures r.Err? && r.error.TargetNotRegistered? ==> Truthy(target) && target.value !in stages
      ensures Resolvable(stages) && (Truthy(target) ==> target.value in stages) ==> r.Ok?
      // the plan: in dependency order, all stages or the target and what it needs
      ensures r.Ok? ==> Topological(stages, plan)
      ensures r.Ok? && Truthy(target) ==>
                && plan != [] && plan[|plan| - 1] == target.value
                && forall v :: v in plan ==> v == target.value || Reaches(stages, target.value, v)
      ensures r.Ok? && !Truthy(target) ==> forall k :: k in stages ==> k in plan
      // the results: exactly the attempted stages that returned, with their values
      ensures r.Ok? ==> Tracked(plan, outcomes, r.value) && Cached(r.value, run.cache)
      ensures r.Ok? ==> forall k :: k in run.cache ==> k in plan
      // halting: "continue" attempts the whole plan, "stop" halts after the first incomplete attempt
      ensures r.Ok? ==> Stopped(failureMode, outcomes, |outcomes| == |plan|)
      // the attempts: one `run_stage` call each, from the cleared run state to the final one
      ensures r.Ok? ==> && Sequenced(stages, Outputs(stages), Positions(plan), Settings(), plan, outcomes, snaps)
                        && snaps[0] == Snapshot(old(disk.fs), old(ledger.stages), [], old(run.invoked), map[], {})
                        && snaps[|outcomes|] == Snap(run, disk, ledger)
      // saving
      ensures r.Ok? && mode == "experiment" ==> ledger.persisted == ledger.stages
      ensures mode != "experiment" ==> ledger.persisted == old(ledger.persisted)
    {
      run.Clear();
      assert Snap(run, disk, ledger) == Snapshot(old(disk.fs), old(ledger.stages), [], old(run.invoked), map[], {});
      plan, outcomes, snaps := [], [], [];
      var resolved := ResolveExecutionOrder(stages, ids, target);
      if resolved.Err? {
        return Err(resolved.error), plan, outcomes, snaps;
      }
      var order := resolved.value;
      plan := order;
      var results;
      results, outcomes, snaps := RunPlan(order);
      if mode == "experiment" {
        ledger.Save();
      }
      return Ok(results), plan, outcomes, snaps;
    }

    /** The loop of `run` over the plan. */
    method RunPlan(plan: seq<string>) returns (results: map<string, Option<string>>,
                                               ghost outcomes: seq<Result<Outcome, RunError>>,
                                               ghost snaps: seq<Snapshot>)
      requires Valid() && Topological(stages, plan) && run.cache == map[] && run.Valid()
      modifies run, disk, ledger
      ensures ledger.persisted == old(ledger.persisted)
      // each attempt is one `run_stage` call, from the state the previous one left
      ensures Sequenced(stages, Outputs(stages), Positions(plan), Settings(), plan, outcomes, snaps)
      ensures snaps[0] == old(Snap(run, disk, ledger)) && snaps[|outcomes|] == Snap(run, disk, ledger)
      ensures Tracked(plan, outcomes, results) && Cached(results, run.cache)
      ensures forall k :: k in run.cache ==> k in plan
      ensures Stopped(failureMode, outcomes, |outcomes| == |plan|)
    {
      ghost var rank := Positions(plan);
      TopologicalRanks(stages, plan);
      results, outcomes := map[], [];
      snaps := [Snap(run, disk, ledger)];
      var i := 0;
      var halted := false;
      while i < |plan| && !halted
        invariant 0 <= i <= |plan| && |outcomes| == i
        invariant Sequenced(stages, Outputs(stages), rank, Settings(), plan, outcomes, snaps)
        invariant snaps[0] == old(Snap(run, disk, ledger)) && snaps[i] == Snap(run, disk, ledger)
        invariant Sound(run, stages, Settings()) && ledger.persisted == old(ledger.persisted)
        invariant forall k :: k in run.cache ==> k in rank
        invariant Progress(plan, outcomes, results, run.cache, failureMode, halted)
        decreases |plan| - i, if halted then 0 else 1
      {
        var id := plan[i];
        ghost var before := run.cache;
        var res := Attempt(id, rank, |plan|, plan, outcomes, snaps);
        TrackedStep(plan, outcomes, results, res, before, run.cache, rank, |plan|);
        HaltsStep(failureMode, outcomes, res);
        outcomes := outcomes + [res];
        snaps := snaps + [Snap(run, disk, ledger)];
        if res.Ok? {
          results := results[id := res.value.result];
        }
        halted := !Completed(res) && failureMode == "stop";
        i := i + 1;
      }
      StoppedAtEnd(plan, outcomes, failureMode, halted);
    }

    /** One `run_stage` call of the run loop, with what the loop needs of it. */
    method Attempt(id: string, ghost rank: map<string, nat>, ghost bound: nat, ghost plan: seq<string>,
                   ghost outcomes: seq<Result<Outcome, RunError>>, ghost snaps: seq<Snapshot>)
      returns (res: Result<Outcome, RunError>)
      requires Valid() && Ranked(stages, rank) && id in rank && rank[id] < bound
      requires Sound(run, stages, Settings()) && forall k :: k in run.cache ==> k in rank
      requires Sequenced(stages, Outputs(stages), rank, Settings(), plan, outcomes, snaps)
      requires |outcomes| < |plan| && plan[|outcomes|] == id
      requires snaps[|outcomes|] == Snap(run, disk, ledger)
      modifies run, disk, ledger
      ensures Sound(run, stages, Settings()) && ledger.persisted == old(ledger.persisted)
      ensures (forall k :: k in run.cache ==> k in rank) && Grown(old(run.cache), run.cache, rank, bound)
      ensures res.Ok? ==> id in run.cache && run.cache[id] == res.value
      ensures Processed(id, stages, Outputs(stages), rank, Settings(), old(Snap(run, disk, ledger)), res,
                        Snap(run, disk, ledger))
      ensures Sequenced(stages, Outputs(stages), rank, Settings(), plan, outcomes + [res],
                        snaps + [Snap(run, disk, ledger)])
    {
      ghost var k, mid;
      res, k, mid := RunStage(id, stages, ledger, disk, run, Settings(), Outputs(stages), rank);
      GrownTrans(old(run.cache), run.cache, run.cache, rank, Bound(id, stages, rank), bound);
      SequencedStep(stages, Outputs(stages), rank, Settings(), plan, outcomes, snaps, res, Snap(run, disk, ledger));
    }
  }

  /** The attempts of a run, each a `run_stage` call for the next stage of the
      plan that takes `snaps[j]` to `snaps[j + 1]`; `rank` ranks the plan's
      stages below their dependents. */
  ghost predicate Sequenced(stages: map<string, StageFunction>, outs: map<string, seq<OutputDecl>>,
                            rank: map<string, nat>, env: Env,
                            plan: seq<string>, outcomes: seq<Result<Outcome, RunError>>, snaps: seq<Snapshot>)
    requires ValidLister(env.rglob)
  {
    && Ranked(stages, rank) && stages.Keys <= outs.Keys && (forall j :: 0 <= j < |plan| ==> plan[j] in rank)
    && |outcomes| <= |plan| && |snaps| == |outcomes| + 1
    && forall j :: 0 <= j < |outcomes| ==>
         Processed(plan[j], stages, outs, rank, env, snaps[j], outcomes[j], snaps[j + 1])
  }

  lemma SequencedStep(stages: map<string, StageFunction>, outs: map<string, seq<OutputDecl>>,
                      rank: map<string, nat>, env: Env, plan: seq<string>,
                      outcomes: seq<Result<Outcome, RunError>>, snaps: seq<Snapshot>,
                      res: Result<Outcome, RunError>, t: Snapshot)
    requires ValidLister(env.rglob) && Sequenced(stages, outs, rank, env, plan, outcomes, snaps) && |outcomes| < |plan|
    requires Processed(plan[|outcomes|], stages, outs, rank, env, snaps[|outcomes|], res, t)
    ensures Sequenced(stages, outs, rank, env, plan, outcomes + [res], snaps + [t])
  {
    var outcomes', snaps' := outcomes + [res], snaps + [t];
    forall j | 0 <= j < |outcomes'|
      ensures Processed(plan[j], stages, outs, rank, env, snaps'[j], outcomes'[j], snaps'[j + 1])
    {
      if j < |outcomes| {
        assert snaps'[j] == snaps[j] && snaps'[j + 1] == snaps[j + 1] && outcomes'[j] == outcomes[j];
      }
    }
  }

  /** The attempted prefix of the plan and the results agree: a stage has a
      result exactly when its attempt returned, and it is that value. */
  ghost predicate Tracked(plan: seq<string>, outcomes: seq<Result<Outcome, RunError>>,
                          results: map<string, Option<string>>) {
    && |outcomes| <= |plan|
    && (forall j :: 0 <= j < |outcomes| ==>
          && (outcomes[j].Ok? <==> plan[j] in results)
          && (outcomes[j].Ok? ==> results[plan[j]] == outcomes[j].value.result))
    && (forall k :: k in results ==> k in plan[..|outcomes|])
  }

  /** Every result is what the run's cache holds for its stage. */
  ghost predicate Cached(results: map<string, Option<string>>, cache: map<string, Outcome>) {
    forall k :: k in results ==> k in cache && results[k] == cache[k].result
  }

  /** Under "stop" every attempt but a halting last one completed, and a halt
      follows an attempt that did not. */
  ghost predicate Halts(failureMode: string, outcomes: seq<Result<Outcome, RunError>>, halted: bool) {
    && (halted ==> failureMode == "stop" && outcomes != [] && !Completed(outcomes[|outcomes| - 1]))
    && (failureMode == "stop" ==>
          forall j :: 0 <= j < |outcomes| && !(halted && j == |outcomes| - 1) ==> Completed(outcomes[j]))
  }

  /** The loop's bookkeeping: results tracked, cached, and halting as the
      policy says. */
  ghost predicate Progress(plan: seq<string>, outcomes: seq<Result<Outcome, RunError>>,
                           results: map<string, Option<string>>, cache: map<string, Outcome>,
                           failureMode: string, halted: bool) {
    Tracked(plan, outcomes, results) && Cached(results, cache) && Halts(failureMode, outcomes, halted)
  }

  lemma HaltsStep(failureMode: string, outcomes: seq<Result<Outcome, RunError>>, res: Result<Outcome, RunError>)
    requires Halts(failureMode, outcomes, false)
    ensures Halts(failureMode, outcomes + [res], !Completed(res) && failureMode == "stop")
  {
  }

  lemma StoppedAtEnd(plan: seq<string>, outcomes: seq<Result<Outcome, RunError>>, failureMode: string,
                     halted: bool)
    requires |outcomes| <= |plan| && Halts(failureMode, outcomes, halted)
    requires !halted ==> |outcomes| == |plan|
    ensures Stopped(failureMode, outcomes, |outcomes| == |plan|)
  {
  }

  /** How a run's attempts ended: under "stop" every attempt but the last
      completed, and an unfinished plan ends with one that did not; any other
      policy finishes the plan. */
  ghost predicate Stopped(failureMode: string, outcomes: seq<Result<Outcome, RunError>>, finished: bool) {
    && (failureMode != "stop" ==> finished)
    && (failureMode == "stop" ==> forall j :: 0 <= j < |outcomes| - 1 ==> Completed(outcomes[j]))
    && (!finished ==> failureMode == "stop" && outcomes != [] && !Completed(outcomes[|outcomes| - 1]))
  }

  /** Recording the attempt of the next stage of the plan. */
  lemma TrackedStep(plan: seq<string>, outcomes: seq<Result<Outcome, RunError>>,
                    results: map<string, Option<string>>, res: Result<Outcome, RunError>,
                    c0: map<string, Outcome>, c1: map<string, Outcome>, rank: map<string, nat>, bound: int)
    requires Distinct(plan) && |outcomes| < |plan| && Tracked(plan, outcomes, results) && Cached(results, c0)
    requires Grown(c0, c1, rank, bound)
    requires res.Ok? ==> plan[|outcomes|] in c1 && c1[plan[|outcomes|]] == res.value
    ensures var results' := if res.Ok? then results[plan[|outcomes|] := res.value.result] else results;
            Tracked(plan, outcomes + [res], results') && Cached(results', c1)
  {
    var i := |outcomes|;
    PlanStep(plan, i, results);
    var results' := if res.Ok? then results[plan[i] := res.value.result] else results;
    var outcomes' := outcomes + [res];
    forall j | 0 <= j < |outcomes'|
      ensures && (outcomes'[j].Ok? <==> plan[j] in results')
              && (outcomes'[j].Ok? ==> results'[plan[j]] == outcomes'[j].value.result)
    {
      if j < i {
        assert outcomes'[j] == outcomes[j];
        assert plan[j] != plan[i];
      }
    }
  }

  /** A stage that returned without a failed validation. */
  predicate Completed(o: Result<Outcome, RunError>) {
    o.Ok? && o.value.status != Failed
  }

  /** The next stage of a plan is not yet among the results. */
  lemma PlanStep(plan: seq<string>, i: nat, results: map<string, Option<string>>)
    requires Distinct(plan) && i < |plan|
    requires forall k :: k in results ==> k in plan[..i]
    ensures plan[i] !in results
    ensures forall k :: k in results ==> k in plan[..i + 1]
  {
    assert plan[..i + 1] == plan[..i] + [plan[i]];
  }
}
