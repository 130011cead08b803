/** A stage: the wrapped function, its declared outputs and dependencies, its
    default reproduction settings, and the ledger record it describes. */
module Stages {
  import opened Common
  import opened Records
  import opened FileSystems

  const AllowedModes: set<string> := {"strict", "standard", "tolerant", "ignore"}

  /** What calling a stage's function did: it returned a value (None standing
      for Python's None) or raised, leaving the file system as `after`. */
  datatype Effect = Returned(value: Option<string>, after: FileSystem)
                  | Raised(message: string, after: FileSystem)

  /** The wrapped function: where it is defined, its docstring, and its
      behaviour on the file system. */
  datatype Handler = Handler(moduleName: string, qualname: string, name: string, doc: Option<string>,
                             call: FileSystem -> Effect)

  /** The `ValueError` for a reproduction mode outside AllowedModes. */
  datatype StageError = InvalidMode(mode: string, stageId: string)

  /** The stage-level reproduction settings every output falls back to. */
  datatype Defaults = Defaults(mode: string, tolAbs: Option<real>, tolRel: Option<real>,
                               threshold: Option<real>)

  /** The settings one output file is validated with. */
  datatype Settings = Settings(mode: string, tolAbs: Option<real>, tolRel: Option<real>,
                               threshold: Option<real>)

  predicate Truthy(s: Option<string>) {
    s.Some? && s.value != ""
  }

  /** `description or func.__doc__ or f"Stage function {stage_id}"`. */
  function DescriptionOf(description: Option<string>, doc: Option<string>, id: string): (r: string)
    ensures r != ""
    ensures Truthy(description) ==> r == description.value
    ensures !Truthy(description) && Truthy(doc) ==> r == doc.value
  {
    if Truthy(description) then description.value
    else if Truthy(doc) then doc.value
    else "Stage function " + id
  }

  /** `d.get(key, fallback)` on an optional dict. */
  function Pick<T>(present: Option<T>, fallback: T): T {
    if present.Some? then present.value else fallback
  }

  /** `d.get(key, fallback)` where the fallback may itself be absent. */
  function Or<T>(present: Option<T>, fallback: Option<T>): Option<T> {
    if present.Some? then present else fallback
  }

  /** File record first, then the declaration's record, then the stage. */
  function Effective(file: Option<Repro>, decl: Option<Repro>, d: Defaults): (s: Settings) {
    var f := file.GetOr(NoRepro);
    var o := decl.GetOr(NoRepro);
    Settings(Pick(f.mode, Pick(o.mode, d.mode)),
             Or(f.tolAbs, Or(o.tolAbs, d.tolAbs)),
             Or(f.tolRel, Or(o.tolRel, d.tolRel)),
             Or(f.threshold, Or(o.threshold, d.threshold)))
  }

  /** The `setdefault` calls: the stage's mode, and each tolerance the stage
      sets, go in wherever the record leaves them out. */
  function SetDefaults(r: Repro, d: Defaults): (r': Repro)
    ensures r'.mode.Some?
    ensures r.mode.Some? ==> r'.mode == r.mode
    ensures forall f: Option<Repro> :: Effective(f, Some(r'), d) == Effective(f, Some(r), d)
  {
    Repro(Some(Pick(r.mode, d.mode)),
          Or(r.tolAbs, d.tolAbs), Or(r.tolRel, d.tolRel), Or(r.threshold, d.threshold))
  }

  /** Filling the defaults twice is the same as once, so registering a stage
      again changes nothing more. */
  lemma SetDefaultsIdempotent(r: Repro, d: Defaults)
    ensures SetDefaults(SetDefaults(r, d), d) == SetDefaults(r, d)
  {
  }

  /** The ledger entry `to_stage_config` makes of one declaration. */
  function ArtifactOf(decl: OutputDecl, d: Defaults): (a: Option<Artifact>)
    ensures a.None? <==> decl.OtherDecl?
  {
    match decl
    case OtherDecl => None
    case PathDecl(p) =>
      Some(Artifact(p, None, if HasSeparator(p) then None else Some(true), Some(SetDefaults(NoRepro, d)),
                    None, None))
    case DictDecl(x) =>
      Some(x.(reproduction := Some(SetDefaults(x.reproduction.GetOr(NoRepro), d)),
              hashMethod := if x.hash.Some? && x.hashMethod.None? then Some("sha256") else x.hashMethod))
  }

  function Artifacts(decls: seq<OutputDecl>, d: Defaults): seq<Artifact> {
    if decls == [] then []
    else
      var rest := Artifacts(decls[1..], d);
      match ArtifactOf(decls[0], d)
      case None => rest
      case Some(a) => [a] + rest
  }

  /** A declaration after `to_stage_config`: a dict's own reproduction record
      is the one the ledger entry holds, so the defaults land in it too. */
  function FilledDecl(decl: OutputDecl, d: Defaults): OutputDecl {
    if decl.DictDecl? && decl.artifact.reproduction.Some? then
      DictDecl(decl.artifact.(reproduction := Some(SetDefaults(decl.artifact.reproduction.value, d))))
    else decl
  }

  function Filled(decls: seq<OutputDecl>, d: Defaults): (r: seq<OutputDecl>)
    ensures |r| == |decls|
  {
    if decls == [] then [] else [FilledDecl(decls[0], d)] + Filled(decls[1..], d)
  }

  /** The declaration's reproduction record, as the validators read it. */
  function DeclRepro(decl: OutputDecl): Option<Repro> {
    if decl.DictDecl? then decl.artifact.reproduction else None
  }

  /** What the ledger entry of a declaration records: its path and hash as
      declared; a reproduction record whose mode is set and which yields the
      settings the declaration yields; a hash method whenever there is a hash;
      and the declared scope, or shared for a bare file name string. */
  lemma ArtifactOfMeaning(decl: OutputDecl, d: Defaults, file: Option<Repro>)
    requires !decl.OtherDecl?
    ensures var a := ArtifactOf(decl, d).value;
            && a.path == (if decl.PathDecl? then decl.path else decl.artifact.path)
            && a.reproduction.Some? && a.reproduction.value.mode.Some?
            && Effective(file, a.reproduction, d) == Effective(file, DeclRepro(decl), d)
            && (a.hash.Some? ==> a.hashMethod.Some?)
            && (decl.DictDecl? ==> a.hash == decl.artifact.hash && a.shared == decl.artifact.shared)
            && (decl.PathDecl? ==> (a.shared == Some(true) <==> !HasSeparator(decl.path)))
  {
    var a := ArtifactOf(decl, d).value;
    assert Effective(file, Some(NoRepro), d) == Effective(file, None, d);
    if decl.DictDecl? && decl.artifact.reproduction.None? {
      assert Effective(file, Some(NoRepro), d) == Effective(file, DeclRepro(decl), d);
    }
  }

  /** Filling a declaration keeps the settings its files are validated with. */
  lemma {:induction false} FilledKeepsSettings(decls: seq<OutputDecl>, d: Defaults, i: nat, file: Option<Repro>)
    requires i < |decls|
    ensures Effective(file, DeclRepro(Filled(decls, d)[i]), d) == Effective(file, DeclRepro(decls[i]), d)
  {
    if i > 0 {
      FilledKeepsSettings(decls[1..], d, i - 1, file);
    }
  }

  /** Declarations that are all well formed give one entry each, in order. */
  lemma {:induction false} ArtifactsOnePerDecl(decls: seq<OutputDecl>, d: Defaults)
    requires forall i :: 0 <= i < |decls| ==> !decls[i].OtherDecl?
    ensures |Artifacts(decls, d)| == |decls|
    ensures forall i :: 0 <= i < |decls| ==> ArtifactOf(decls[i], d) == Some(Artifacts(decls, d)[i])
  {
    if decls != [] {
      ArtifactsOnePerDecl(decls[1..], d);
      var rest := Artifacts(decls[1..], d);
      assert Artifacts(decls, d) == [ArtifactOf(decls[0], d).value] + rest;
      forall i | 0 < i < |decls| ensures ArtifactOf(decls[i], d) == Some(Artifacts(decls, d)[i]) {
        assert decls[i] == decls[1..][i - 1];
      }
    }
  }

  /** A registered stage function. Only the output declarations change after
      construction (through the reproduction records they share with the
      ledger entries). */
  class StageFunction {
    const func: Handler
    const id: string
    const description: string
    var outputs: seq<OutputDecl>
    const dependencies: seq<string>
    const parameters: map<string, string>
    const codeHandler: string
    const defaults: Defaults
    const skipIfUnchanged: bool

    constructor (func: Handler, id: string, description: Option<string>, outputs: Option<seq<OutputDecl>>,
                 dependencies: Option<seq<string>>, parameters: Option<map<string, string>>,
                 mode: string, tolAbs: Option<real>, tolRel: Option<real>, threshold: Option<real>,
                 skipIfUnchanged: bool)
      requires mode in AllowedModes
      ensures this.func == func && this.id == id
      ensures this.description == DescriptionOf(description, func.doc, id)
      ensures this.outputs == outputs.GetOr([]) && this.dependencies == dependencies.GetOr([])
      ensures this.parameters == parameters.GetOr(map[])
      ensures codeHandler == func.moduleName + "." + func.qualname
      ensures defaults == Defaults(mode, tolAbs, tolRel, threshold)
      ensures this.skipIfUnchanged == skipIfUnchanged
    {
      this.func := func;
      this.id := id;
      this.description := DescriptionOf(description, func.doc, id);
      this.outputs := outputs.GetOr([]);
      this.dependencies := dependencies.GetOr([]);
      this.parameters := parameters.GetOr(map[]);
      this.codeHandler := func.moduleName + "." + func.qualname;
      this.defaults := Defaults(mode, tolAbs, tolRel, threshold);
      this.skipIfUnchanged := skipIfUnchanged;
    }

    /** The ledger record of this stage. Each well-formed declaration becomes
        an entry; the reproduction record of a dict declaration is filled in
        place. */
    method ToStageConfig() returns (record: StageRecord)
      modifies this
      ensures record == StageRecord(id, description, dependencies, Some(Artifacts(old(outputs), defaults)),
                                    codeHandler, parameters)
      ensures outputs == Filled(old(outputs), defaults)
    {
      ghost var decls := outputs;
      var artifacts: seq<Artifact> := [];
      var i := |outputs|;
      // Built from the back so that each step is one cons of Artifacts and Filled.
      while i > 0
        invariant 0 <= i <= |decls| == |outputs|
        invariant outputs[..i] == decls[..i]
        invariant outputs[i..] == Filled(decls[i..], defaults)
        invariant artifacts == Artifacts(decls[i..], defaults)
      {
        i := i - 1;
        var decl := outputs[i];
        assert decls[i..] == [decl] + decls[i + 1..];
        if !decl.OtherDecl? {
          var base := if decl.PathDecl? then Artifact(decl.path, None, None, None, None, None) else decl.artifact;
          var repro := SetDefaults(base.reproduction.GetOr(NoRepro), defaults);
          base := base.(reproduction := Some(repro));
          if base.hash.Some? && base.hashMethod.None? {
            base := base.(hashMethod := Some("sha256"));
          }
          if base.shared.None? && decl.PathDecl? && !HasSeparator(decl.path) {
            base := base.(shared := Some(true));
          }
          artifacts := [base] + artifacts;
        }
        outputs := outputs[..i] + [FilledDecl(decl, defaults)] + outputs[i + 1..];
      }
      assert decls[0..] == decls;
      record := StageRecord(id, description, dependencies, Some(artifacts), codeHandler, parameters);
    }
  }

  /** The `StageFunction(...)` call: the mode is checked before anything else
      is kept. */
  method NewStage(func: Handler, id: string, description: Option<string>, outputs: Option<seq<OutputDecl>>,
                  dependencies: Option<seq<string>>, parameters: Option<map<string, string>>,
                  mode: string, tolAbs: Option<real>, tolRel: Option<real>, threshold: Option<real>,
                  skipIfUnchanged: bool)
    returns (r: Result<StageFunction, StageError>)
    ensures r.Err? <==> mode !in AllowedModes
    ensures r.Err? ==> r.error == InvalidMode(mode, id)
    ensures r.Ok? ==> && fresh(r.value) && r.value.func == func && r.value.id == id
                      && r.value.description == DescriptionOf(description, func.doc, id)
                      && r.value.outputs == outputs.GetOr([]) && r.value.dependencies == dependencies.GetOr([])
                      && r.value.parameters == parameters.GetOr(map[])
                      && r.value.defaults == Defaults(mode, tolAbs, tolRel, threshold)
                      && r.value.skipIfUnchanged == skipIfUnchanged
                      && r.value.codeHandler == func.moduleName + "." + func.qualname
  {
    if mode !in AllowedModes {
      return Err(InvalidMode(mode, id));
    }
    var s := new StageFunction(func, id, description, outputs, dependencies, parameters, mode, tolAbs, tolRel,
                               threshold, skipIfUnchanged);
    return Ok(s);
  }
}
