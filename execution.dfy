/** The order stages run in, and the running of one stage: its dependencies
    first, then a skip check, the handler, and the hashing or validation of
    its outputs. */
module Execution {
  import opened Common
  import opened Records
  import opened FileSystems
  import opened Fingerprint
  import opened Stages
  import opened SkipCheck
  import opened HashUpdate
  import OutputValidation

  // ------------------------------------------------------ dependency graph

  /** `b` is a dependency of the registered stage `a`. */
  ghost predicate Edge(stages: map<string, StageFunction>, a: string, b: string) {
    a in stages && b in stages[a].dependencies
  }

  /** A walk of one or more dependency edges. */
  ghost predicate Chain(stages: map<string, StageFunction>, c: seq<string>) {
    |c| >= 2 && forall i :: 0 <= i < |c| - 1 ==> Edge(stages, c[i], c[i + 1])
  }

  /** `a` depends on `b`, directly or through other stages. */
  ghost predicate Reaches(stages: map<string, StageFunction>, a: string, b: string) {
    exists c :: Chain(stages, c) && c[0] == a && c[|c| - 1] == b
  }

  lemma EdgeReaches(stages: map<string, StageFunction>, a: string, b: string)
    requires Edge(stages, a, b)
    ensures Reaches(stages, a, b)
  {
    var c := [a, b];
    assert Chain(stages, c) && c[0] == a && c[|c| - 1] == b;
  }

  lemma ReachesThenEdge(stages: map<string, StageFunction>, a: string, b: string, d: string)
    requires Reaches(stages, a, b) && Edge(stages, b, d)
    ensures Reaches(stages, a, d)
  {
    var c :| Chain(stages, c) && c[0] == a && c[|c| - 1] == b;
    var c' := c + [d];
    assert forall i :: 0 <= i < |c| ==> c'[i] == c[i];
    assert Chain(stages, c') && c'[0] == a && c'[|c'| - 1] == d;
  }

  lemma EdgeThenReaches(stages: map<string, StageFunction>, a: string, b: string, d: string)
    requires Edge(stages, a, b) && Reaches(stages, b, d)
    ensures Reaches(stages, a, d)
  {
    var c :| Chain(stages, c) && c[0] == b && c[|c| - 1] == d;
    var c' := [a] + c;
    assert forall i :: 1 <= i < |c'| ==> c'[i] == c[i - 1];
    assert Chain(stages, c') && c'[0] == a && c'[|c'| - 1] == d;
  }

  /** Only a registered stage depends on anything. */
  lemma ReachesFromRegistered(stages: map<string, StageFunction>, a: string, b: string)
    requires Reaches(stages, a, b)
    ensures a in stages
  {
    var c :| Chain(stages, c) && c[0] == a && c[|c| - 1] == b;
    assert Edge(stages, c[0], c[1]);
  }

  /** A name that is registered or that a registered stage depends on. */
  ghost predicate Known(stages: map<string, StageFunction>, id: string) {
    id in stages || exists v :: Edge(stages, v, id)
  }

  predicate Distinct(s: seq<string>) {
    forall i, j :: 0 <= i < j < |s| ==> s[i] != s[j]
  }

  /** An execution order: no stage twice, every stage registered, and every
      dependency of a stage earlier in the order. */
  ghost predicate Topological(stages: map<string, StageFunction>, order: seq<string>) {
    && Distinct(order)
    && (forall i :: 0 <= i < |order| ==> order[i] in stages)
    && (forall i, d :: 0 <= i < |order| && d in stages[order[i]].dependencies ==> d in order[..i])
  }

  /** The position of each stage of an order. */
  function Positions(order: seq<string>): (m: map<string, nat>)
    ensures m.Keys == set x | x in order
    ensures forall x :: x in m ==> m[x] < |order|
  {
    if order == [] then map[] else Positions(order[..|order| - 1])[order[|order| - 1] := |order| - 1]
  }

  lemma {:induction false} PositionsAt(order: seq<string>, i: nat)
    requires Distinct(order) && i < |order|
    ensures Positions(order)[order[i]] == i
    decreases |order|
  {
    if i < |order| - 1 {
      var init := order[..|order| - 1];
      assert init[i] == order[i];
      PositionsAt(init, i);
    }
  }

  /** Every dependency of a ranked stage that is registered is ranked lower. */
  ghost predicate Ranked(stages: map<string, StageFunction>, rank: map<string, nat>) {
    forall id, d :: id in rank && id in stages && d in stages[id].dependencies && d in stages ==>
      d in rank && rank[d] < rank[id]
  }

  /** Positions in a topological order rank the stages. */
  lemma TopologicalRanks(stages: map<string, StageFunction>, order: seq<string>)
    requires Topological(stages, order)
    ensures Ranked(stages, Positions(order))
  {
    var rank := Positions(order);
    forall id, d | id in rank && id in stages && d in stages[id].dependencies && d in stages
      ensures d in rank && rank[d] < rank[id]
    {
      var i :| 0 <= i < |order| && order[i] == id;
      assert d in order[..i];
      var j :| 0 <= j < i && order[j] == d;
      PositionsAt(order, i);
      PositionsAt(order, j);
    }
  }

  // ---------------------------------------------- resolve_execution_order

  datatype ResolveError =
    | UnknownDependency(id: string)
    | CircularDependency(id: string)
    | TargetNotRegistered(target: string)
  {
    function Message(): string {
      match this
      case UnknownDependency(id) => "Dependency '" + id + "' not found as a registered stage."
      case CircularDependency(id) => "Circular dependency detected involving stage: " + id
      case TargetNotRegistered(t) => "Target stage '" + t + "' is not registered."
    }
  }

  /** The state the depth-first search shares between its recursive visits. */
  class Resolver {
    const stages: map<string, StageFunction>
    var order: seq<string>
    var visited: set<string>
    var visiting: set<string>

    ghost predicate Valid()
      reads this
    {
      && Topological(stages, order)
      && (forall x :: x in visited <==> x in order)
      && visiting <= stages.Keys
      && visiting !! visited
    }

    constructor (stages: map<string, StageFunction>)
      ensures this.stages == stages && order == [] && visited == {} && visiting == {}
      ensures Valid()
    {
      this.stages := stages;
      order, visited, visiting := [], {}, {};
    }

    /** `visit`: appends the stage after everything it depends on. */
    method Visit(id: string) returns (r: Result<(), ResolveError>)
      requires Valid() && Known(stages, id)
      requires forall v :: v in visiting ==> Reaches(stages, v, id)
      modifies this
      decreases stages.Keys - visiting, 0
      ensures r.Err? && r.error.CircularDependency? ==> Reaches(stages, r.error.id, r.error.id)
      ensures r.Err? && r.error.UnknownDependency? ==> !(r.error.id in stages) && Known(stages, r.error.id)
      ensures r.Err? ==> !r.error.TargetNotRegistered?
      ensures r.Ok? ==> && Valid() && visiting == old(visiting) && id in visited
                        && old(visited) <= visited && old(order) <= order
      ensures r.Ok? && id !in old(visited) ==> order != [] && order[|order| - 1] == id
      ensures r.Ok? ==> forall j :: |old(order)| <= j < |order| ==>
                          order[j] !in old(visiting) && (order[j] == id || Reaches(stages, id, order[j]))
    {
      if id !in stages {
        return Err(UnknownDependency(id));
      }
      if id in visited {
        return Ok(());
      }
      if id in visiting {
        return Err(CircularDependency(id));
      }
      visiting := visiting + {id};
      r := VisitDependencies(id);
      if r.Err? {
        return;
      }
      visiting := visiting - {id};
      visited := visited + {id};
      AppendTopological(stages, order, id);
      ghost var before := order;
      order := order + [id];
      assert forall j :: |old(order)| <= j < |before| ==> order[j] == before[j];
    }

    /** The loop of `visit` over the dependencies of `id`, which is being
        visited. */
    method VisitDependencies(id: string) returns (r: Result<(), ResolveError>)
      requires Valid() && id in stages && id in visiting && id !in visited
      requires forall v :: v in visiting && v != id ==> Reaches(stages, v, id)
      modifies this
      decreases stages.Keys - visiting, 1
      ensures r.Err? && r.error.CircularDependency? ==> Reaches(stages, r.error.id, r.error.id)
      ensures r.Err? && r.error.UnknownDependency? ==> !(r.error.id in stages) && Known(stages, r.error.id)
      ensures r.Err? ==> !r.error.TargetNotRegistered?
      ensures r.Ok? ==> && Valid() && visiting == old(visiting) && id !in visited
                        && old(visited) <= visited && old(order) <= order
                        && forall d :: d in stages[id].dependencies ==> d in visited
      ensures r.Ok? ==> forall j :: |old(order)| <= j < |order| ==>
                          order[j] !in old(visiting) && Reaches(stages, id, order[j])
    {
      var deps := stages[id].dependencies;
      for i := 0 to |deps|
        invariant Valid() && visiting == old(visiting)
        invariant old(visited) <= visited && old(order) <= order && id !in visited
        invariant forall j :: 0 <= j < i ==> deps[j] in visited
        invariant forall j :: |old(order)| <= j < |order| ==>
                    order[j] !in old(visiting) && Reaches(stages, id, order[j])
      {
        var d := deps[i];
        assert Edge(stages, id, d);
        forall v | v in visiting ensures Reaches(stages, v, d) {
          if v == id {
            EdgeReaches(stages, id, d);
          } else {
            ReachesThenEdge(stages, v, id, d);
          }
        }
        ghost var before := order;
        var res := Visit(d);
        if res.Err? {
          return res;
        }
        forall j | |before| <= j < |order| ensures Reaches(stages, id, order[j]) {
          if order[j] == d {
            EdgeReaches(stages, id, d);
          } else {
            EdgeThenReaches(stages, id, d, order[j]);
          }
        }
      }
      forall e | e in deps ensures e in visited {
        var j :| 0 <= j < |deps| && deps[j] == e;
      }
      return Ok(());
    }
  }

  /** The errors a visit reports are evidence that the graph is not
      resolvable. */
  lemma VisitFailureUnresolvable(stages: map<string, StageFunction>, e: ResolveError)
    requires e.CircularDependency? ==> Reaches(stages, e.id, e.id)
    requires e.UnknownDependency? ==> e.id !in stages && Known(stages, e.id)
    requires !e.TargetNotRegistered?
    ensures !Resolvable(stages)
  {
    if e.CircularDependency? {
      ReachesFromRegistered(stages, e.id, e.id);
    }
  }

  lemma AppendTopological(stages: map<string, StageFunction>, order: seq<string>, id: string)
    requires Topological(stages, order) && id in stages && id !in order
    requires forall d :: d in stages[id].dependencies ==> d in order
    ensures Topological(stages, order + [id])
  {
    var order' := order + [id];
    assert order'[..|order|] == order;
    forall i, d | 0 <= i < |order'| && d in stages[order'[i]].dependencies ensures d in order'[..i] {
      if i < |order| {
        assert order'[..i] == order[..i];
      }
    }
  }

  /** A graph the search can order: every dependency is registered and no
      stage depends on itself, directly or through others. */
  ghost predicate Resolvable(stages: map<string, StageFunction>) {
    && (forall v, d :: v in stages && d in stages[v].dependencies ==> d in stages)
    && (forall v :: v in stages ==> !Reaches(stages, v, v))
  }

  /** `resolve_execution_order`: with a target, the target after everything
      it depends on; without one, every registered stage, each visited in
      registration order. */
  method ResolveExecutionOrder(stages: map<string, StageFunction>, ids: seq<string>, target: Option<string>)
    returns (r: Result<seq<string>, ResolveError>)
    requires forall k :: k in stages <==> k in ids
    ensures r.Ok? ==> Topological(stages, r.value)
    ensures Truthy(target) && target.value !in stages ==> r == Err(TargetNotRegistered(target.value))
    ensures r.Ok? && Truthy(target) ==>
              && r.value != [] && r.value[|r.value| - 1] == target.value
              && forall v :: v in r.value ==> v == target.value || Reaches(stages, target.value, v)
    ensures r.Ok? && !Truthy(target) ==> forall k :: k in stages ==> k in r.value
    ensures r.Err? && r.error.CircularDependency? ==> Reaches(stages, r.error.id, r.error.id)
    ensures r.Err? && r.error.UnknownDependency? ==>
              r.error.id !in stages && exists v :: v in stages && r.error.id in stages[v].dependencies
    ensures r.Err? && r.error.TargetNotRegistered? ==> Truthy(target) && target.value !in stages
    // the errors are the only ways to fail
    ensures Resolvable(stages) && (Truthy(target) ==> target.value in stages) ==> r.Ok?
  {
    var resolver := new Resolver(stages);
    if Truthy(target) {
      var t := target.value;
      if t !in stages {
        return Err(TargetNotRegistered(t));
      }
      var res := resolver.Visit(t);
      if res.Err? {
        VisitFailureUnresolvable(stages, res.error);
        return Err(res.error);
      }
      return Ok(resolver.order);
    }
    for i := 0 to |ids|
      invariant resolver.stages == stages && resolver.Valid() && resolver.visiting == {}
      invariant forall j :: 0 <= j < i ==> ids[j] in resolver.visited
    {
      if ids[i] !in resolver.visited {
        var res := resolver.Visit(ids[i]);
        if res.Err? {
          VisitFailureUnresolvable(stages, res.error);
          return Err(res.error);
        }
      }
    }
    forall k | k in stages ensures k in resolver.order {
      var j :| 0 <= j < |ids| && ids[j] == k;
    }
    return Ok(resolver.order);
  }

  // -------------------------------------------------------------- run_stage

  /** What a stage's run reports about its outputs: skipped, validation
      passed or failed, or nothing validated. */
  datatype StageStatus = Skipped | Passed | Failed | NoValidation

  /** The tuple `run_stage` returns and caches: the handler's result, the
      hashes recorded, and the status. */
  datatype Outcome = Outcome(result: Option<string>, hashes: seq<(string, string)>, status: StageStatus)

  datatype RunError =
    | StageNotFound(id: string)
    | HandlerRaised(id: string, message: string)
    | ReproductionFailed(id: string)
  {
    function Message(): string {
      match this
      case StageNotFound(id) => "Stage function for ID '" + id + "' not found in memory."
      case HandlerRaised(_, message) => message
      case ReproductionFailed(id) => "Stage '" + id + "' failed reproduction validation"
    }
  }

  /** The settings one run holds fixed: the output directories, the mode and
      failure policy, the digest and the directory listing order. */
  datatype Env = Env(active: Path, sharedDir: Path, mode: string, failureMode: string, digest: Digest,
                     rglob: Lister)

  /** What a run has done so far. `invoked` lists the stages whose handler was
      called, in order. */
  class RunState {
    var executed: set<string>
    var statuses: map<string, StageStatus>
    var cache: map<string, Outcome>
    var results: seq<OutputValidation.ValidationRecord>
    ghost var invoked: seq<string>

    constructor ()
      ensures executed == {} && statuses == map[] && cache == map[] && results == [] && invoked == []
    {
      executed, statuses, cache, results := {}, map[], map[], [];
      invoked := [];
    }

    /** Every cached stage was processed, and its status is stored. */
    ghost predicate Valid()
      reads this
    {
      && statuses.Keys == cache.Keys
      && (forall k :: k in cache ==> statuses[k] == cache[k].status)
      && cache.Keys <= executed
    }

    /** Caches a processed stage's outcome and stores its status. */
    method Store(id: string, outcome: Outcome)
      requires Valid()
      modifies this
      ensures Valid()
      ensures && executed == old(executed) + {id} && statuses == old(statuses)[id := outcome.status]
              && cache == old(cache)[id := outcome] && results == old(results) && invoked == old(invoked)
    {
      executed := executed + {id};
      statuses := statuses[id := outcome.status];
      cache := cache[id := outcome];
    }

    /** Clears the state of a previous run. */
    method Clear()
      modifies this
      ensures executed == {} && statuses == map[] && cache == map[] && results == [] && invoked == old(invoked)
    {
      executed, statuses, cache, results := {}, map[], map[], [];
    }
  }

  /** What any cached outcome says about the run's settings: validation
      statuses come from reproduction mode, a cached failure from the
      "continue" policy, hashes from experiment mode. */
  ghost predicate Consistent(cache: map<string, Outcome>, env: Env) {
    forall k :: k in cache ==>
      && (cache[k].status.Passed? || cache[k].status.Failed? ==> env.mode == "reproduction")
      && (cache[k].status.Failed? ==> env.failureMode != "stop")
      && (cache[k].hashes != [] ==> env.mode == "experiment")
  }

  /** A cached stage's dependencies are cached too. */
  ghost predicate Closed(cache: map<string, Outcome>, stages: map<string, StageFunction>) {
    forall k, d :: k in cache && k in stages && d in stages[k].dependencies ==> d in cache
  }

  /** The invariant of a run's state with respect to the registered stages. */
  ghost predicate Sound(run: RunState, stages: map<string, StageFunction>, env: Env)
    reads run
  {
    run.Valid() && run.cache.Keys <= stages.Keys && Consistent(run.cache, env) && Closed(run.cache, stages)
  }

  /** The cache only grew from `c0` to `c1`, by stages ranked below `bound`. */
  ghost predicate Grown(c0: map<string, Outcome>, c1: map<string, Outcome>, rank: map<string, nat>, bound: int) {
    && (forall k :: k in c0 ==> k in c1 && c1[k] == c0[k])
    && (forall k :: k in c1 && k !in c0 ==> k in rank && rank[k] < bound)
  }

  lemma GrownTrans(c0: map<string, Outcome>, c1: map<string, Outcome>, c2: map<string, Outcome>,
                   rank: map<string, nat>, b1: int, b2: int)
    requires Grown(c0, c1, rank, b1) && Grown(c1, c2, rank, b2) && b1 <= b2
    ensures Grown(c0, c2, rank, b2)
  {
  }


  // ------------------------------------------- what one run of a stage does

  /** The ledger's record of a stage (`get_stage`). */
  function RecordOf(ledger: map<string, StageRecord>, id: string): (r: Option<StageRecord>)
    ensures r.Some? <==> id in ledger
    ensures r.Some? ==> r.value == ledger[id]
  {
    if id in ledger then Some(ledger[id]) else None
  }

  /** What the outputs branch leaves behind: the hashes and status it reports,
      whether it stops the run, and the files, ledger and validation records
      after it. */
  datatype Handled = Handled(hashes: seq<(string, string)>, status: StageStatus, stop: bool, fs: FileSystem,
                             ledger: map<string, StageRecord>, records: seq<OutputValidation.ValidationRecord>)

  /** The outputs branch of `run_stage` on a stage whose handler returned:
      a stage with declared outputs has them hashed into the ledger in
      experiment mode and validated against the ledger in reproduction mode;
      nothing else happens. */
  function HandleSpec(id: string, decls: seq<OutputDecl>, d: Defaults, fs: FileSystem,
                      ledger: map<string, StageRecord>, env: Env): (h: Handled)
    requires ValidLister(env.rglob)
    ensures h.status != Skipped
    ensures h.hashes != [] ==> env.mode == "experiment"
    ensures h.status.Passed? || h.status.Failed? ==> env.mode == "reproduction"
    ensures h.status.Failed? ==> env.failureMode != "stop" && !OutputValidation.AllPassed(h.records)
    ensures h.status.Passed? ==> OutputValidation.AllPassed(h.records)
    ensures h.stop ==> && env.mode == "reproduction" && env.failureMode == "stop"
                       && !OutputValidation.AllPassed(h.records)
    ensures env.mode != "experiment" ==> h.ledger == ledger
    ensures env.mode != "reproduction" ==> h.records == []
    ensures decls == [] ==> h == Handled([], NoValidation, false, fs, ledger, [])
  {
    if decls == [] then Handled([], NoValidation, false, fs, ledger, [])
    else if env.mode == "experiment" then
      var (entries, fs') := UpdateAll(fs, decls, env.active, env.sharedDir, env.digest, env.rglob);
      Handled(Pairs(entries), NoValidation, false, fs', Recorded(ledger, id, entries), [])
    else if env.mode == "reproduction" then
      var (records, fs') := OutputValidation.Validated(fs, decls, RecordOf(ledger, id), d, id, env.active,
                                                       env.sharedDir, env.digest);
      if OutputValidation.AllPassed(records) then Handled([], Passed, false, fs', ledger, records)
      else if env.failureMode == "stop" then Handled([], NoValidation, true, fs', ledger, records)
      else Handled([], Failed, false, fs', ledger, records)
    else Handled([], NoValidation, false, fs, ledger, [])
  }

  /** What processing a stage not found in the cache leaves behind: the
      result, and the files, ledger and validation records after it. */
  datatype Ran = Ran(result: Result<Outcome, RunError>, fs: FileSystem, ledger: map<string, StageRecord>,
                     records: seq<OutputValidation.ValidationRecord>)
  {
    /** The stage was skipped: its handler was not called. */
    predicate Skip() {
      result.Ok? && result.value.status == Skipped
    }
  }

  /** The handler, then the outputs branch: a handler that raises leaves its
      files as they are and the error; a failed validation under "stop" is
      the reproduction error. */
  function Executed(id: string, func: Handler, decls: seq<OutputDecl>, d: Defaults, fs: FileSystem,
                    ledger: map<string, StageRecord>, env: Env): (x: Ran)
    requires ValidLister(env.rglob)
    ensures !x.Skip()
    ensures x.result.Err? ==> (x.result.error.HandlerRaised? && x.result.error.id == id)
                              || x.result.error == ReproductionFailed(id)
    ensures x.result.Err? && x.result.error.ReproductionFailed? ==>
              env.mode == "reproduction" && env.failureMode == "stop"
    ensures func.call(fs).Raised? <==> x.result.Err? && x.result.error.HandlerRaised?
    ensures func.call(fs).Raised? ==> x == Ran(Err(HandlerRaised(id, func.call(fs).message)), func.call(fs).after,
                                                ledger, [])
    ensures x.result.Ok? ==> x.result.value.result == func.call(fs).value
  {
    match func.call(fs)
    case Raised(message, after) => Ran(Err(HandlerRaised(id, message)), after, ledger, [])
    case Returned(value, after) =>
      var h := HandleSpec(id, decls, d, after, ledger, env);
      Ran(if h.stop then Err(ReproductionFailed(id)) else Ok(Outcome(value, h.hashes, h.status)), h.fs, h.ledger,
          h.records)
  }

  /** `run_stage` once the dependencies are done: the skip check when the
      stage asks for it and no dependency ran, then either the skip or the
      execution, on the files the check left. */
  function Proceeded(id: string, func: Handler, decls: seq<OutputDecl>, d: Defaults, skipIfUnchanged: bool,
                     depsRan: bool, fs: FileSystem, ledger: map<string, StageRecord>, env: Env): (x: Ran)
    requires ValidLister(env.rglob)
    ensures x.Skip() ==> && skipIfUnchanged && !depsRan && x.ledger == ledger && x.records == []
                         && x.result == Ok(Outcome(None, [], Skipped))
  {
    var (same, fs') := if skipIfUnchanged && !depsRan then
                              Unchanged(fs, decls, RecordOf(ledger, id), d, env.active, env.sharedDir, env.digest)
                            else (false, fs);
    if same then Ran(Ok(Outcome(None, [], Skipped)), fs', ledger, [])
    else Executed(id, func, decls, d, fs', ledger, env)
  }

  /** The part of a run's state that processing one stage changes. */
  datatype Snapshot = Snapshot(fs: FileSystem, ledger: map<string, StageRecord>,
                               results: seq<OutputValidation.ValidationRecord>, invoked: seq<string>,
                               cache: map<string, Outcome>, executed: set<string>)

  ghost function Snap(run: RunState, disk: Disk, ledger: Ledger): Snapshot
    reads run, disk, ledger`stages
  {
    Snapshot(disk.fs, ledger.stages, run.results, run.invoked, run.cache, run.executed)
  }

  /** `t` is `s` after processing stage `id` as `x` says: the files and ledger
      it leaves, its validation records appended, its handler call logged
      unless skipped, its outcome cached when it completed, and the stage
      marked executed unless its handler raised. */
  ghost predicate Applied(s: Snapshot, id: string, x: Ran, t: Snapshot) {
    && t.fs == x.fs && t.ledger == x.ledger && t.results == s.results + x.records
    && t.invoked == s.invoked + (if x.Skip() then [] else [id])
    && t.cache == (if x.result.Ok? then s.cache[id := x.result.value] else s.cache)
    && t.executed == s.executed + (if x.result.Ok? || x.result.error.ReproductionFailed? then {id} else {})
  }

  /** Once every dependency of `id` returned, ending in state `mid`, the
      stage, declaring `decls`, is processed from `mid` as `Proceeded` says,
      with `depsRan` set when a dependency was not skipped. */
  ghost predicate Finished(id: string, stage: StageFunction, decls: seq<OutputDecl>, mid: Snapshot, env: Env,
                           r: Result<Outcome, RunError>, t: Snapshot)
    requires ValidLister(env.rglob)
  {
    var x := Proceeded(id, stage.func, decls, stage.defaults, stage.skipIfUnchanged,
                       !AllSkipped(mid.cache, stage.dependencies), mid.fs, mid.ledger, env);
    r == x.result && Applied(mid, id, x, t)
  }

  /** The first `i` dependencies of `id`, in declaration order, each went
      through `run_stage` and returned, leading from `s` to `t`. The ranks
      only bound the recursion: a dependency ranks below its dependent. */
  ghost predicate DepsReturned(id: string, stages: map<string, StageFunction>, outs: map<string, seq<OutputDecl>>,
                               rank: map<string, nat>, env: Env, i: nat, s: Snapshot, t: Snapshot)
    requires ValidLister(env.rglob) && Ranked(stages, rank) && stages.Keys <= outs.Keys
    requires id in stages && id in rank
    requires i <= |stages[id].dependencies|
    decreases Bound(id, stages, rank), 0, i
  {
    if i == 0 then t == s
    else
      var dep := stages[id].dependencies[i - 1];
      assert dep in stages[id].dependencies;
      exists m: Snapshot :: && DepsReturned(id, stages, outs, rank, env, i - 1, s, m) && dep in t.cache
                            && Processed(dep, stages, outs, rank, env, m, Ok(t.cache[dep]), t)
  }

  /** `run_stage` for a registered stage `id` not yet cached: its first `i`
      dependencies returned, leading from `s` to `mid`; then either the next
      one raised, and its error is re-raised as it left the state, or there
      is no next one and the stage is finished from `mid`. */
  ghost predicate Stepped(id: string, stages: map<string, StageFunction>, outs: map<string, seq<OutputDecl>>,
                          rank: map<string, nat>, env: Env, s: Snapshot, i: nat, mid: Snapshot,
                          r: Result<Outcome, RunError>, t: Snapshot)
    requires ValidLister(env.rglob) && Ranked(stages, rank) && stages.Keys <= outs.Keys
    requires id in stages && id in rank
    decreases Bound(id, stages, rank), 1
  {
    var deps := stages[id].dependencies;
    && i <= |deps| && DepsReturned(id, stages, outs, rank, env, i, s, mid)
    && if i < |deps| then
         assert deps[i] in deps;
         r.Err? && Processed(deps[i], stages, outs, rank, env, mid, r, t)
       else Finished(id, stages[id], outs[id], mid, env, r, t)
  }

  /** `t` is `s` after one `run_stage` call for `id` that returned `r`: a
      cached stage is answered from the cache and an unregistered one fails,
      both with no effect; any other runs its dependencies in order and then
      itself, as `Stepped` says. */
  ghost predicate Processed(id: string, stages: map<string, StageFunction>, outs: map<string, seq<OutputDecl>>,
                            rank: map<string, nat>, env: Env, s: Snapshot, r: Result<Outcome, RunError>, t: Snapshot)
    requires ValidLister(env.rglob) && Ranked(stages, rank) && stages.Keys <= outs.Keys
    requires id in stages ==> id in rank
    decreases Bound(id, stages, rank), 2
  {
    if id in s.cache then r == Ok(s.cache[id]) && t == s
    else if id !in stages then r == Err(StageNotFound(id)) && t == s
    else exists i: nat, mid: Snapshot :: Stepped(id, stages, outs, rank, env, s, i, mid, r, t)
  }

  /** One more dependency returned. */
  lemma DepsReturnedStep(id: string, stages: map<string, StageFunction>, outs: map<string, seq<OutputDecl>>,
                         rank: map<string, nat>, env: Env, i: nat, s: Snapshot, m: Snapshot, t: Snapshot)
    requires ValidLister(env.rglob) && Ranked(stages, rank) && stages.Keys <= outs.Keys
    requires id in stages && id in rank
    requires i < |stages[id].dependencies| && DepsReturned(id, stages, outs, rank, env, i, s, m)
    requires var dep := stages[id].dependencies[i];
             dep in t.cache && Processed(dep, stages, outs, rank, env, m, Ok(t.cache[dep]), t)
    ensures DepsReturned(id, stages, outs, rank, env, i + 1, s, t)
  {
  }

  /** A dependency that raised ends the stage with its error. */
  lemma SteppedRaised(id: string, stages: map<string, StageFunction>, outs: map<string, seq<OutputDecl>>,
                      rank: map<string, nat>, env: Env, s: Snapshot, i: nat, mid: Snapshot,
                      r: Result<Outcome, RunError>, t: Snapshot)
    requires ValidLister(env.rglob) && Ranked(stages, rank) && stages.Keys <= outs.Keys
    requires id in stages && id in rank
    requires i < |stages[id].dependencies| && DepsReturned(id, stages, outs, rank, env, i, s, mid)
    requires var dep := stages[id].dependencies[i];
             (dep in stages ==> dep in rank) && r.Err? && Processed(dep, stages, outs, rank, env, mid, r, t)
    ensures Stepped(id, stages, outs, rank, env, s, i, mid, r, t)
  {
  }

  /** With every dependency returned, the stage is finished from there. */
  lemma SteppedFinished(id: string, stages: map<string, StageFunction>, outs: map<string, seq<OutputDecl>>,
                        rank: map<string, nat>, env: Env, s: Snapshot, mid: Snapshot,
                        r: Result<Outcome, RunError>, t: Snapshot)
    requires ValidLister(env.rglob) && Ranked(stages, rank) && stages.Keys <= outs.Keys
    requires id in stages && id in rank
    requires DepsReturned(id, stages, outs, rank, env, |stages[id].dependencies|, s, mid)
    requires Finished(id, stages[id], outs[id], mid, env, r, t)
    ensures Stepped(id, stages, outs, rank, env, s, |stages[id].dependencies|, mid, r, t)
  {
  }

  // ------------------------------------------------------------- properties

  /** A stage is skipped exactly when it asks for it, none of its
      dependencies ran, and the skip check finds its outputs unchanged. */
  lemma SkipExactly(id: string, func: Handler, decls: seq<OutputDecl>, d: Defaults, skipIfUnchanged: bool,
                    depsRan: bool, fs: FileSystem, ledger: map<string, StageRecord>, env: Env)
    requires ValidLister(env.rglob)
    ensures Proceeded(id, func, decls, d, skipIfUnchanged, depsRan, fs, ledger, env).Skip() <==>
              && skipIfUnchanged && !depsRan
              && Unchanged(fs, decls, RecordOf(ledger, id), d, env.active, env.sharedDir, env.digest).0
  {
  }

  /** A skip calls no handler, writes no hash and only creates directories. */
  lemma SkipTouchesOnlyDirs(id: string, func: Handler, decls: seq<OutputDecl>, d: Defaults, skipIfUnchanged: bool,
                            depsRan: bool, fs: FileSystem, ledger: map<string, StageRecord>, env: Env)
    requires ValidLister(env.rglob)
    requires Proceeded(id, func, decls, d, skipIfUnchanged, depsRan, fs, ledger, env).Skip()
    ensures var x := Proceeded(id, func, decls, d, skipIfUnchanged, depsRan, fs, ledger, env);
            x.ledger == ledger && x.records == [] && AddsOnlyDirs(fs, x.fs)
  {
    var record := RecordOf(ledger, id);
    var expected := Index(record.value.outputs.value, HasHash);
    CheckOnlyCreatesDirs(fs, decls, 0, expected, d, env.active, env.sharedDir, env.digest, 0);
  }

  /** In experiment mode only a raising handler keeps a stage from
      completing. */
  lemma ExperimentFailsOnlyByRaising(id: string, func: Handler, decls: seq<OutputDecl>, d: Defaults,
                                     fs: FileSystem, ledger: map<string, StageRecord>, env: Env)
    requires ValidLister(env.rglob) && env.mode == "experiment"
    ensures var x := Executed(id, func, decls, d, fs, ledger, env);
            x.result.Ok? <==> func.call(fs).Returned?
    ensures func.call(fs).Returned? ==>
              var x := Executed(id, func, decls, d, fs, ledger, env);
              var (entries, fs') := UpdateAll(func.call(fs).after, decls, env.active, env.sharedDir, env.digest,
                                              env.rglob);
              && x.result == Ok(Outcome(func.call(fs).value, Pairs(entries), NoValidation))
              && x.ledger == Recorded(ledger, id, entries) && x.fs == fs'
  {
    if func.call(fs).Returned? && decls == [] {
      assert UpdateAll(func.call(fs).after, decls, env.active, env.sharedDir, env.digest, env.rglob)
             == ([], func.call(fs).after);
    }
  }

  /** In reproduction mode a handler that returns and leaves every recorded
      output as the ledger hashed it completes, with no failed validation. */
  lemma RecordedOutputsReproduce(id: string, func: Handler, decls: seq<OutputDecl>, d: Defaults,
                                 fs: FileSystem, ledger: map<string, StageRecord>, env: Env)
    requires ValidLister(env.rglob) && env.mode == "reproduction" && func.call(fs).Returned?
    requires id in ledger ==>
               forall e :: e in ledger[id].outputs.GetOr([]) && OutputValidation.Hashed(e) ==>
                 Confirms(func.call(fs).after, e, env.active, env.sharedDir, env.digest)
    ensures var x := Executed(id, func, decls, d, fs, ledger, env);
            x.result.Ok? && x.result.value.status != Failed && x.ledger == ledger
  {
    OutputValidation.RecordedFilesValidate(func.call(fs).after, decls, RecordOf(ledger, id), d, id, env.active,
                                           env.sharedDir, env.digest);
  }

  // -------------------------------------------------------------- run_stage

  /** The outputs each registered stage declares. */
  ghost function Outputs(stages: map<string, StageFunction>): (outs: map<string, seq<OutputDecl>>)
    reads stages.Values
    ensures outs.Keys == stages.Keys
  {
    map id | id in stages :: stages[id].outputs
  }

  /** The bound on the ranks a call of `run_stage` for `id` may cache. */
  function Bound(id: string, stages: map<string, StageFunction>, rank: map<string, nat>): int {
    if id in rank && id in stages then rank[id] + 1 else 0
  }

  /** `run_stage`: runs a stage once per run, after its dependencies. `k`
      dependencies returned, leaving the state `mid`. */
  method RunStage(id: string, stages: map<string, StageFunction>, ledger: Ledger, disk: Disk, run: RunState,
                  env: Env, ghost outs: map<string, seq<OutputDecl>>,
                  ghost rank: map<string, nat>)
    returns (r: Result<Outcome, RunError>, ghost k: nat, ghost mid: Snapshot)
    requires Ranked(stages, rank) && (id in stages ==> id in rank)
    requires Sound(run, stages, env) && ValidLister(env.rglob) && outs == Outputs(stages)
    modifies run, disk, ledger
    decreases Bound(id, stages, rank), 2
    ensures Sound(run, stages, env) && ledger.persisted == old(ledger.persisted)
    // the cache only grows, by stages ranked no higher than this one
    ensures Grown(old(run.cache), run.cache, rank, Bound(id, stages, rank)) && run.executed >= old(run.executed)
    // a cached stage is answered from the cache, with no other effect
    ensures id in old(run.cache) ==>
              && r == Ok(old(run.cache)[id]) && disk.fs == old(disk.fs) && ledger.stages == old(ledger.stages)
              && unchanged(run)
    ensures id !in old(run.cache) && id !in stages ==>
              && r == Err(StageNotFound(id)) && unchanged(run)
              && disk.fs == old(disk.fs) && ledger.stages == old(ledger.stages)
    // any other: its dependencies, then the skip check or the handler and its outputs
    ensures id !in old(run.cache) && id in stages ==>
              && Grown(old(run.cache), mid.cache, rank, rank[id]) && mid.executed >= old(run.executed)
              && Stepped(id, stages, outs, rank, env, old(Snap(run, disk, ledger)), k, mid, r, Snap(run, disk, ledger))
    // a stage that returns is cached, after all its dependencies; one that fails is not
    ensures r.Ok? ==> id in stages && id in run.cache && run.cache[id] == r.value && id in run.executed
    ensures r.Ok? ==> forall d :: d in stages[id].dependencies ==> d in run.cache
    ensures r.Err? ==> id !in run.cache
    // a skip calls no handler and writes no hash
    ensures r.Ok? && r.value.status == Skipped ==>
              run.invoked == old(run.invoked) && ledger.stages == old(ledger.stages)
              && run.results == old(run.results)
    ensures r.Ok? && r.value.status == Skipped && id !in old(run.cache) ==>
              && stages[id].skipIfUnchanged
              && forall d :: d in stages[id].dependencies ==> run.cache[d].status == Skipped
    // a stage that ran called its own handler last
    ensures r.Ok? && r.value.status != Skipped && id !in old(run.cache) ==>
              run.invoked != [] && run.invoked[|run.invoked| - 1] == id
    ensures r.Err? && r.error.ReproductionFailed? ==> env.mode == "reproduction" && env.failureMode == "stop"
    // all of the above, as one relation between the states before and after
    ensures Processed(id, stages, outs, rank, env, old(Snap(run, disk, ledger)), r, Snap(run, disk, ledger))
  {
    k, mid := 0, Snap(run, disk, ledger);
    if id in run.cache {
      return Ok(run.cache[id]), k, mid;
    }
    if id !in stages {
      return Err(StageNotFound(id)), k, mid;
    }
    r, k, mid := RunFresh(id, stages, ledger, disk, run, env, outs, rank);
  }

  /** `run_stage` for a registered stage not yet cached: its dependencies,
      then the skip check, then the handler and its outputs. */
  method RunFresh(id: string, stages: map<string, StageFunction>, ledger: Ledger, disk: Disk, run: RunState,
                  env: Env, ghost outs: map<string, seq<OutputDecl>>,
                  ghost rank: map<string, nat>)
    returns (r: Result<Outcome, RunError>, ghost k: nat, ghost mid: Snapshot)
    requires Ranked(stages, rank) && id in stages && id in rank && id !in run.cache
    requires Sound(run, stages, env) && ValidLister(env.rglob) && outs == Outputs(stages)
    modifies run, disk, ledger
    decreases Bound(id, stages, rank), 1
    ensures Sound(run, stages, env) && ledger.persisted == old(ledger.persisted)
    ensures Grown(old(run.cache), run.cache, rank, rank[id] + 1) && run.executed >= old(run.executed)
    ensures Grown(old(run.cache), mid.cache, rank, rank[id]) && mid.executed >= old(run.executed)
    ensures Stepped(id, stages, outs, rank, env, old(Snap(run, disk, ledger)), k, mid, r, Snap(run, disk, ledger))
    ensures r.Ok? ==> id in run.cache && run.cache[id] == r.value && id in run.executed
    ensures r.Err? ==> id !in run.cache
    ensures r.Ok? && r.value.status == Skipped ==>
              && run.invoked == old(run.invoked) && ledger.stages == old(ledger.stages)
              && run.results == old(run.results) && stages[id].skipIfUnchanged
              && forall d :: d in stages[id].dependencies ==> run.cache[d].status == Skipped
    ensures r.Ok? && r.value.status != Skipped ==> run.invoked != [] && run.invoked[|run.invoked| - 1] == id
    ensures r.Err? && r.error.ReproductionFailed? ==> env.mode == "reproduction" && env.failureMode == "stop"
  {
    var stage := stages[id];
    assert outs[id] == stage.outputs;
    ghost var start := run.cache;
    var depsRan;
    depsRan, k, mid := RunDependencies(id, stages, ledger, disk, run, env, outs, rank);
    if depsRan.Err? {
      GrownTrans(start, run.cache, run.cache, rank, rank[id], rank[id] + 1);
      assert stages[id].dependencies[k] in stages[id].dependencies;
      SteppedRaised(id, stages, outs, rank, env, old(Snap(run, disk, ledger)), k, mid, Err(depsRan.error),
                    Snap(run, disk, ledger));
      return Err(depsRan.error), k, mid;
    }
    ghost var before := run.cache;
    r := Proceed(id, stage, ledger, disk, run, env, depsRan.value);
    if r.Ok? {
      ClosedStep(before, stages, id, r.value);
    }
    GrownTrans(start, before, run.cache, rank, rank[id], rank[id] + 1);
    SteppedFinished(id, stages, outs, rank, env, old(Snap(run, disk, ledger)), mid, r, Snap(run, disk, ledger));
  }

  /** `run_stage` once the dependencies are done: a stage that asks for it,
      whose dependencies were all skipped and whose outputs are unchanged, is
      skipped; any other is executed. */
  method Proceed(id: string, stage: StageFunction, ledger: Ledger, disk: Disk, run: RunState, env: Env,
                 depsRan: bool)
    returns (r: Result<Outcome, RunError>)
    requires run.Valid() && Consistent(run.cache, env) && ValidLister(env.rglob)
    modifies run, disk, ledger
    ensures run.Valid() && Consistent(run.cache, env) && ledger.persisted == old(ledger.persisted)
    ensures var x := Proceeded(id, stage.func, stage.outputs, stage.defaults, stage.skipIfUnchanged, depsRan,
                               old(disk.fs), old(ledger.stages), env);
            r == x.result && Applied(old(Snap(run, disk, ledger)), id, x, Snap(run, disk, ledger))
    ensures r.Ok? ==> run.cache == old(run.cache)[id := r.value] && id in run.executed
    ensures r.Err? ==> run.cache == old(run.cache)
    ensures r.Ok? && r.value.status == Skipped ==>
              && run.invoked == old(run.invoked) && ledger.stages == old(ledger.stages)
              && run.results == old(run.results) && stage.skipIfUnchanged && !depsRan
    ensures r.Ok? && r.value.status != Skipped ==> run.invoked == old(run.invoked) + [id]
    ensures r.Err? && r.error.ReproductionFailed? ==> env.mode == "reproduction" && env.failureMode == "stop"
  {
    var shouldSkip := false;
    assert ledger.GetStage(id) == RecordOf(ledger.stages, id);
    if stage.skipIfUnchanged && !depsRan {
      shouldSkip := CheckOutputsUnchanged(disk, id, stage, ledger, env.active, env.sharedDir, env.digest);
    }
    if shouldSkip {
      var outcome := Outcome(None, [], Skipped);
      run.Store(id, outcome);
      return Ok(outcome);
    }
    r := ExecuteStage(id, stage, ledger, disk, run, env);
  }

  /** Caching a stage whose dependencies are cached keeps the cache closed. */
  lemma ClosedStep(cache: map<string, Outcome>, stages: map<string, StageFunction>, id: string, outcome: Outcome)
    requires Closed(cache, stages) && id in stages
    requires forall d :: d in stages[id].dependencies ==> d in cache
    ensures Closed(cache[id := outcome], stages)
  {
  }

  /** The loop of `run_stage` over the dependencies: each is run (or found in
      the cache) in order, and the first error is re-raised; the result says
      whether any of them was not skipped. `k` dependencies returned, leading
      to `last`. */
  method RunDependencies(id: string, stages: map<string, StageFunction>, ledger: Ledger, disk: Disk,
                         run: RunState, env: Env, ghost outs: map<string, seq<OutputDecl>>,
                         ghost rank: map<string, nat>)
    returns (r: Result<bool, RunError>, ghost k: nat, ghost last: Snapshot)
    requires Ranked(stages, rank) && id in stages && id in rank && id !in run.cache
    requires Sound(run, stages, env) && ValidLister(env.rglob) && outs == Outputs(stages)
    modifies run, disk, ledger
    decreases Bound(id, stages, rank), 0
    ensures Sound(run, stages, env) && ledger.persisted == old(ledger.persisted)
    ensures Grown(old(run.cache), run.cache, rank, rank[id]) && run.executed >= old(run.executed)
    ensures r.Ok? <==> AllCached(run.cache, stages[id].dependencies)
    ensures r.Ok? ==> (r.value <==> !AllSkipped(run.cache, stages[id].dependencies))
    ensures r.Ok? && !r.value ==>
              && run.invoked == old(run.invoked) && ledger.stages == old(ledger.stages)
              && run.results == old(run.results)
    ensures r.Err? && r.error.ReproductionFailed? ==> env.mode == "reproduction" && env.failureMode == "stop"
    // each dependency in turn through `run_stage`, up to the first that raised
    ensures k <= |stages[id].dependencies|
    ensures DepsReturned(id, stages, outs, rank, env, k, old(Snap(run, disk, ledger)), last)
    ensures Grown(old(run.cache), last.cache, rank, rank[id]) && last.executed >= old(run.executed)
    ensures r.Ok? ==> k == |stages[id].dependencies| && last == Snap(run, disk, ledger)
    ensures r.Err? ==> k < |stages[id].dependencies|
                       && Processed(stages[id].dependencies[k], stages, outs, rank, env, last, Err(r.error),
                                    Snap(run, disk, ledger))
  {
    var deps := stages[id].dependencies;
    var depsRan := false;
    ghost var start := Snap(run, disk, ledger);
    for i := 0 to |deps|
      invariant Sound(run, stages, env) && ledger.persisted == old(ledger.persisted)
      invariant Looped(id, stages, outs, rank, env, i, start, Snap(run, disk, ledger), depsRan)
    {
      ghost var prior := Snap(run, disk, ledger);
      var res;
      res, depsRan := RunDependency(id, i, stages, ledger, disk, run, env, outs, rank, start, depsRan);
      if res.Err? {
        assert deps[i] in deps;
        return Err(res.error), i, prior;
      }
    }
    assert deps[..|deps|] == deps;
    return Ok(depsRan), |deps|, Snap(run, disk, ledger);
  }

  /** The loop of `run_stage` over the dependencies, after `i` of them
      returned, leading from `s` to `t`: the cache only grew, by stages ranked
      below `id`, with those `i` dependencies in it; `depsRan` says whether
      one of them was not skipped, and if none was, no handler was called,
      no hash written and no record added. */
  ghost predicate Looped(id: string, stages: map<string, StageFunction>, outs: map<string, seq<OutputDecl>>,
                         rank: map<string, nat>, env: Env, i: nat, s: Snapshot, t: Snapshot, depsRan: bool)
    requires ValidLister(env.rglob) && Ranked(stages, rank) && stages.Keys <= outs.Keys
    requires id in stages && id in rank && i <= |stages[id].dependencies|
  {
    var deps := stages[id].dependencies;
    && Grown(s.cache, t.cache, rank, rank[id]) && s.executed <= t.executed
    && AllCached(t.cache, deps[..i])
    && (depsRan <==> !AllSkipped(t.cache, deps[..i]))
    && (!depsRan ==> t.invoked == s.invoked && t.ledger == s.ledger && t.results == s.results)
    && DepsReturned(id, stages, outs, rank, env, i, s, t)
  }

  /** One more dependency returned: the loop goes on. */
  lemma LoopedStep(id: string, stages: map<string, StageFunction>, outs: map<string, seq<OutputDecl>>,
                   rank: map<string, nat>, env: Env, i: nat, s: Snapshot, m: Snapshot, t: Snapshot, depsRan: bool)
    requires ValidLister(env.rglob) && Ranked(stages, rank) && stages.Keys <= outs.Keys
    requires id in stages && id in rank && i < |stages[id].dependencies|
    requires Looped(id, stages, outs, rank, env, i, s, m, depsRan)
    requires var dep := stages[id].dependencies[i];
             && dep in t.cache && Processed(dep, stages, outs, rank, env, m, Ok(t.cache[dep]), t)
             && Grown(m.cache, t.cache, rank, rank[id]) && m.executed <= t.executed
             && (t.cache[dep].status == Skipped ==>
                   t.invoked == m.invoked && t.ledger == m.ledger && t.results == m.results)
    ensures Looped(id, stages, outs, rank, env, i + 1, s, t,
                   depsRan || t.cache[stages[id].dependencies[i]].status != Skipped)
  {
    var deps := stages[id].dependencies;
    GrownTrans(s.cache, m.cache, t.cache, rank, rank[id], rank[id]);
    GrownKeeps(m.cache, t.cache, rank, rank[id], deps[..i]);
    CachedStep(t.cache, deps, i);
    DepsReturnedStep(id, stages, outs, rank, env, i, s, m, t);
  }

  ghost predicate AllCached(cache: map<string, Outcome>, xs: seq<string>) {
    forall x :: x in xs ==> x in cache
  }

  ghost predicate AllSkipped(cache: map<string, Outcome>, xs: seq<string>) {
    forall x :: x in xs ==> x in cache && cache[x].status == Skipped
  }

  /** What a grown cache held, it still holds, with the same statuses. */
  lemma GrownKeeps(c0: map<string, Outcome>, c1: map<string, Outcome>, rank: map<string, nat>, bound: int,
                   xs: seq<string>)
    requires Grown(c0, c1, rank, bound) && AllCached(c0, xs)
    ensures AllCached(c1, xs) && (AllSkipped(c0, xs) <==> AllSkipped(c1, xs))
  {
  }

  lemma CachedStep(cache: map<string, Outcome>, xs: seq<string>, i: nat)
    requires i < |xs| && xs[i] in cache && AllCached(cache, xs[..i])
    ensures AllCached(cache, xs[..i + 1])
    ensures AllSkipped(cache, xs[..i + 1]) <==> AllSkipped(cache, xs[..i]) && cache[xs[i]].status == Skipped
  {
    assert xs[..i + 1] == xs[..i] + [xs[i]];
  }

  /** Dependency `i` of `id`, run through `run_stage`: one turn of the loop,
      which goes on when the call returned. The result is what that call
      returned. */
  method RunDependency(id: string, i: nat, stages: map<string, StageFunction>, ledger: Ledger, disk: Disk,
                       run: RunState, env: Env, ghost outs: map<string, seq<OutputDecl>>,
                       ghost rank: map<string, nat>, ghost s: Snapshot, depsRan: bool)
    returns (r: Result<Outcome, RunError>, depsRan': bool)
    requires Ranked(stages, rank) && id in stages && id in rank && i < |stages[id].dependencies|
    requires Sound(run, stages, env) && ValidLister(env.rglob) && outs == Outputs(stages)
    requires Looped(id, stages, outs, rank, env, i, s, Snap(run, disk, ledger), depsRan)
    modifies run, disk, ledger
    decreases rank[id], 3
    ensures Sound(run, stages, env) && ledger.persisted == old(ledger.persisted)
    ensures var dep := stages[id].dependencies[i];
            && (r.Ok? ==> dep in run.cache && run.cache[dep] == r.value)
            && (r.Err? ==> dep !in run.cache)
            && Processed(dep, stages, outs, rank, env, old(Snap(run, disk, ledger)), r, Snap(run, disk, ledger))
    ensures r.Ok? ==> Looped(id, stages, outs, rank, env, i + 1, s, Snap(run, disk, ledger), depsRan')
    ensures r.Err? ==> Grown(s.cache, run.cache, rank, rank[id]) && s.executed <= run.executed
    ensures r.Err? && r.error.ReproductionFailed? ==> env.mode == "reproduction" && env.failureMode == "stop"
  {
    var dep := stages[id].dependencies[i];
    assert dep in stages[id].dependencies && Bound(dep, stages, rank) <= rank[id];
    ghost var prior := Snap(run, disk, ledger);
    ghost var k, mid;
    r, k, mid := RunStage(dep, stages, ledger, disk, run, env, outs, rank);
    GrownTrans(prior.cache, run.cache, run.cache, rank, Bound(dep, stages, rank), rank[id]);
    depsRan' := depsRan;
    if r.Ok? {
      depsRan' := depsRan || r.value.status != Skipped;
      LoopedStep(id, stages, outs, rank, env, i, s, prior, Snap(run, disk, ledger), depsRan);
    } else {
      GrownTrans(s.cache, prior.cache, run.cache, rank, rank[id], rank[id]);
    }
  }

  /** The rest of `run_stage` once the stage is not skipped: the handler, then
      the hashing or validation of its outputs. A handler that raises, or a
      failed validation under "stop", leaves the stage uncached. */
  method ExecuteStage(id: string, stage: StageFunction, ledger: Ledger, disk: Disk, run: RunState, env: Env)
    returns (r: Result<Outcome, RunError>)
    requires run.Valid() && Consistent(run.cache, env) && ValidLister(env.rglob)
    modifies run, disk, ledger
    ensures run.Valid() && Consistent(run.cache, env)
    ensures ledger.persisted == old(ledger.persisted)
    ensures var x := Executed(id, stage.func, stage.outputs, stage.defaults, old(disk.fs), old(ledger.stages), env);
            r == x.result && Applied(old(Snap(run, disk, ledger)), id, x, Snap(run, disk, ledger))
    ensures run.invoked == old(run.invoked) + [id]
    ensures r.Ok? ==> && run.cache == old(run.cache)[id := r.value] && id in run.executed
                      && r.value.status != Skipped
    ensures r.Err? ==> run.cache == old(run.cache)
    ensures r.Err? && r.error.ReproductionFailed? ==> env.mode == "reproduction" && env.failureMode == "stop"
  {
    var effect := stage.func.call(disk.fs);
    disk.fs := effect.after;
    run.invoked := run.invoked + [id];
    if effect.Raised? {
      return Err(HandlerRaised(id, effect.message));
    }
    run.executed := run.executed + {id};
    var hashes, status, stop := HandleOutputs(id, stage, ledger, disk, run, env);
    if stop {
      return Err(ReproductionFailed(id));
    }
    var outcome := Outcome(effect.value, hashes, status);
    run.Store(id, outcome);
    return Ok(outcome);
  }

  /** The outputs branch of `run_stage`: hashes recorded in experiment mode,
      outputs validated in reproduction mode (their records appended to the
      run's results); `stop` reports a failure under the "stop" policy. */
  method HandleOutputs(id: string, stage: StageFunction, ledger: Ledger, disk: Disk, run: RunState, env: Env)
    returns (hashes: seq<(string, string)>, status: StageStatus, stop: bool)
    requires ValidLister(env.rglob)
    modifies run, disk, ledger
    ensures ledger.persisted == old(ledger.persisted)
    ensures && run.executed == old(run.executed) && run.statuses == old(run.statuses)
            && run.cache == old(run.cache) && run.invoked == old(run.invoked)
    ensures status != Skipped
    ensures hashes != [] ==> env.mode == "experiment"
    ensures status.Passed? || status.Failed? ==> env.mode == "reproduction"
    ensures status.Failed? ==> env.failureMode != "stop"
    ensures stop ==> env.mode == "reproduction" && env.failureMode == "stop"
    ensures env.mode != "reproduction" ==> run.results == old(run.results)
    ensures env.mode != "experiment" ==> ledger.stages == old(ledger.stages)
    ensures var h := HandleSpec(id, stage.outputs, stage.defaults, old(disk.fs), old(ledger.stages), env);
            && hashes == h.hashes && status == h.status && stop == h.stop
            && disk.fs == h.fs && ledger.stages == h.ledger && run.results == old(run.results) + h.records
  {
    hashes, status, stop := [], NoValidation, false;
    if stage.outputs != [] {
      if env.mode == "experiment" {
        hashes := UpdateOutputHashes(disk, ledger, id, stage.outputs, env.active, env.sharedDir, env.digest,
                                     env.rglob);
      } else if env.mode == "reproduction" {
        assert ledger.GetStage(id) == RecordOf(ledger.stages, id);
        var passed, records := OutputValidation.ValidateOutputs(disk, id, stage, ledger, env.active,
                                                                env.sharedDir, env.digest);
        run.results := run.results + records;
        if !passed && env.failureMode == "stop" {
          stop := true;
        } else {
          status := if passed then Passed else Failed;
        }
      }
    }
  }
}
