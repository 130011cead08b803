/** Where an output lives: in the shared data directory or in the directory of
    the active mode, and how a declaration says which. */
module Scope {
  import opened Common
  import opened Records
  import opened FileSystems

  /** The directory a scope resolves against. */
  function Base(isShared: bool, active: Path, sharedDir: Path): Path {
    if isShared then sharedDir else active
  }

  /** The separator heuristic for a dict declaration: a non-empty bare file
      name is taken to be shared data (for a plain string the empty path counts
      too). */
  predicate LooksShared(path: string) {
    path != "" && !HasSeparator(path)
  }

  /** `get_output_scope_and_path`: the declared path and whether it is shared.
      An explicit "shared" key wins; otherwise a path without a separator is
      shared. A declaration without a path has no path and is not shared. */
  function GetOutputScopeAndPath(decl: OutputDecl): (r: (Option<string>, bool))
    ensures decl.OtherDecl? <==> r.0.None?
    ensures decl.PathDecl? ==> r == (Some(decl.path), !HasSeparator(decl.path))
    ensures decl.DictDecl? && decl.artifact.shared.Some? ==> r == (Some(decl.artifact.path), decl.artifact.shared.value)
    ensures decl.DictDecl? && decl.artifact.shared.None? ==>
              r == (Some(decl.artifact.path), LooksShared(decl.artifact.path))
  {
    match decl
    case PathDecl(p) => (Some(p), !HasSeparator(p))
    case DictDecl(a) =>
      if a.shared.Some? then (Some(a.path), a.shared.value)
      else (Some(a.path), a.path != "" && !HasSeparator(a.path))
    case OtherDecl => (None, false)
  }

  /** `resolve_output_path`: the output's location, after creating its parent
      directory. A failing directory creation is the error. */
  method ResolveOutputPath(disk: Disk, path: string, isShared: bool, active: Path, sharedDir: Path)
    returns (r: Result<Path, string>)
    modifies disk
    ensures r.Ok? ==> r.value == Base(isShared, active, sharedDir) + Split(path)
    ensures MakeDirs(old(disk.fs), Parent(Base(isShared, active, sharedDir) + Split(path))) ==
              if r.Ok? then Ok(disk.fs) else Err(r.error)
    ensures r.Err? ==> disk.fs == old(disk.fs)
  {
    var resolved := Base(isShared, active, sharedDir) + Split(path);
    var made := MakeDirs(disk.fs, Parent(resolved));
    if made.Err? {
      return Err(made.error);
    }
    disk.fs := made.value;
    return Ok(resolved);
  }
}
