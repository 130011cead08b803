/** The records the engine passes around: output declarations as a stage
    declares them, ledger entries as the configuration stores them, and the
    ledger itself, a store keyed by stage id. */
module Records {
  import opened Common

  /** A `reproduction` dict: each key present or absent. */
  datatype Repro = Repro(mode: Option<string>, tolAbs: Option<real>, tolRel: Option<real>,
                         threshold: Option<real>)

  const NoRepro := Repro(None, None, None, None)

  /** An output dict, in a declaration or in the ledger. `shared` holds the
      truth value of the key when it is present. */
  datatype Artifact = Artifact(path: string, description: Option<string>, shared: Option<bool>,
                               reproduction: Option<Repro>, hash: Option<string>,
                               hashMethod: Option<string>)

  /** One entry of a stage's `outputs` list: a path string, a dict with a
      "path" key, or anything else (which every consumer skips). */
  datatype OutputDecl = PathDecl(path: string) | DictDecl(artifact: Artifact) | OtherDecl

  /** A stage's entry in the ledger. */
  datatype StageRecord = StageRecord(id: string, description: string, dependencies: seq<string>,
                                     outputs: Option<seq<Artifact>>, codeHandler: string,
                                     parameters: map<string, string>)

  /** A Python dict: its keys in insertion order, and the value of each. */
  datatype Dict = Dict(keys: seq<string>, values: map<string, Artifact>)

  ghost predicate WellFormed(d: Dict) {
    && (forall i, j :: 0 <= i < j < |d.keys| ==> d.keys[i] != d.keys[j])
    && (forall k :: k in d.values <==> k in d.keys)
  }

  function Lookup(d: Dict, k: string): Option<Artifact> {
    if k in d.values then Some(d.values[k]) else None
  }

  /** `d[k] = v`: a new key goes last, an existing key keeps its place. */
  function Put(d: Dict, k: string, v: Artifact): (r: Dict)
    requires WellFormed(d)
    ensures WellFormed(r)
    ensures Lookup(r, k) == Some(v)
    ensures forall k' :: k' != k ==> Lookup(r, k') == Lookup(d, k')
    ensures k in d.keys ==> r.keys == d.keys
    ensures k !in d.keys ==> r.keys == d.keys + [k]
  {
    if k in d.values then Dict(d.keys, d.values[k := v]) else Dict(d.keys + [k], d.values[k := v])
  }

  /** The dict comprehension `{e["path"]: e for e in entries if keep(e)}`. */
  function Index(entries: seq<Artifact>, keep: Artifact -> bool): (d: Dict)
    ensures WellFormed(d)
    ensures forall k :: k in d.values ==> keep(d.values[k]) && d.values[k].path == k
  {
    if entries == [] then Dict([], map[])
    else
      var prev := Index(entries[..|entries| - 1], keep);
      var e := entries[|entries| - 1];
      if keep(e) then Put(prev, e.path, e) else prev
  }

  /** A path is a key of the comprehension exactly when some kept entry has
      that path, and it maps to the last such entry. */
  lemma {:induction false} IndexLookup(entries: seq<Artifact>, keep: Artifact -> bool, k: string)
    ensures Lookup(Index(entries, keep), k).Some? <==>
              exists i :: 0 <= i < |entries| && keep(entries[i]) && entries[i].path == k
    ensures Lookup(Index(entries, keep), k).Some? ==>
              exists i :: && 0 <= i < |entries| && keep(entries[i]) && entries[i].path == k
                          && Lookup(Index(entries, keep), k) == Some(entries[i])
                          && forall j :: i < j < |entries| ==> !(keep(entries[j]) && entries[j].path == k)
    decreases |entries|
  {
    if entries != [] {
      var n := |entries| - 1;
      var init := entries[..n];
      var e := entries[n];
      IndexLookup(init, keep, k);
      IndexStep(entries, keep, k);
      if keep(e) && e.path == k {
        assert LastKept(entries, keep, k, n);
      } else {
        if exists i :: 0 <= i < |entries| && keep(entries[i]) && entries[i].path == k {
          var i :| 0 <= i < |entries| && keep(entries[i]) && entries[i].path == k;
          assert keep(init[i]) && init[i].path == k;
        }
        if Lookup(Index(init, keep), k).Some? {
          var i :| && 0 <= i < |init| && keep(init[i]) && init[i].path == k
                   && Lookup(Index(init, keep), k) == Some(init[i])
                   && forall j :: i < j < |init| ==> !(keep(init[j]) && init[j].path == k);
          assert entries[i] == init[i];
          forall j | i < j < |entries| ensures !(keep(entries[j]) && entries[j].path == k) {
            if j < n {
              assert entries[j] == init[j];
            }
          }
          assert LastKept(entries, keep, k, i);
        }
      }
    }
  }

  predicate LastKept(entries: seq<Artifact>, keep: Artifact -> bool, k: string, i: int) {
    && 0 <= i < |entries| && keep(entries[i]) && entries[i].path == k
    && forall j :: i < j < |entries| ==> !(keep(entries[j]) && entries[j].path == k)
  }

  /** The last entry decides its own path; other paths are looked up among the
      entries before it. */
  lemma IndexStep(entries: seq<Artifact>, keep: Artifact -> bool, k: string)
    requires entries != []
    ensures var n := |entries| - 1;
            && (forall i :: 0 <= i < n ==> entries[..n][i] == entries[i])
            && Lookup(Index(entries, keep), k) ==
                 if keep(entries[n]) && entries[n].path == k then Some(entries[n])
                 else Lookup(Index(entries[..n], keep), k)
  {
  }

  /** The ledger (the configuration's stage store) held in memory. `persisted`
      is what was last saved. */
  class Ledger {
    var stages: map<string, StageRecord>
    var persisted: map<string, StageRecord>

    constructor (stages: map<string, StageRecord>)
      ensures this.stages == stages && persisted == stages
    {
      this.stages := stages;
      persisted := stages;
    }

    function GetStage(id: string): (r: Option<StageRecord>)
      reads this
      ensures r.Some? <==> id in stages
      ensures r.Some? ==> r.value == stages[id]
    {
      if id in stages then Some(stages[id]) else None
    }

    method AddStage(record: StageRecord)
      modifies this
      ensures stages == old(stages)[record.id := record] && persisted == old(persisted)
    {
      stages := stages[record.id := record];
    }

    /** Replaces the record stored under `id`, the record `get_stage(id)`
        returned and the caller updated in place. */
    method PutStage(id: string, record: StageRecord)
      modifies this
      ensures stages == old(stages)[id := record] && persisted == old(persisted)
    {
      stages := stages[id := record];
    }

    /** Writes a hash entry for `key` into the stage's outputs. */
    method UpdateArtifact(stageId: string, key: string, entry: Artifact)
      modifies this
      ensures stages == WithArtifact(old(stages), stageId, key, entry) && persisted == old(persisted)
    {
      stages := WithArtifact(stages, stageId, key, entry);
    }

    method Save()
      modifies this`persisted
      ensures persisted == stages
    {
      persisted := stages;
    }
  }

  /** The ledger after `update_artifact(stageId, key, entry)`: the first output
      whose path is `key` takes the entry's path, hash, hash method and scope
      (keeping its description and reproduction record); without one, the
      entry is appended. A stage absent from the ledger is left absent. */
  function WithArtifact(stages: map<string, StageRecord>, stageId: string, key: string, entry: Artifact)
    : map<string, StageRecord>
  {
    if stageId !in stages then stages
    else
      var rec := stages[stageId];
      stages[stageId := rec.(outputs := Some(Upsert(rec.outputs.GetOr([]), key, entry)))]
  }

  function Upsert(outs: seq<Artifact>, key: string, entry: Artifact): seq<Artifact> {
    if outs == [] then [entry]
    else if outs[0].path == key then [Merge(outs[0], entry)] + outs[1..]
    else [outs[0]] + Upsert(outs[1..], key, entry)
  }

  /** An existing entry updated with a new hash: description and reproduction
      record are kept. */
  function Merge(current: Artifact, entry: Artifact): Artifact {
    current.(path := entry.path, hash := entry.hash, hashMethod := entry.hashMethod, shared := entry.shared)
  }

  /** The index of the first output whose path is `key`. */
  function FindPath(outs: seq<Artifact>, key: string): (r: Option<nat>)
    ensures r.Some? ==> r.value < |outs| && outs[r.value].path == key
    ensures r.Some? ==> forall j :: 0 <= j < r.value ==> outs[j].path != key
    ensures r.None? ==> forall j :: 0 <= j < |outs| ==> outs[j].path != key
  {
    if outs == [] then None
    else if outs[0].path == key then Some(0)
    else match FindPath(outs[1..], key)
      case None => None
      case Some(i) => Some(i + 1)
  }

  lemma FindPathFirst(outs: seq<Artifact>, key: string, i: nat)
    requires i < |outs| && outs[i].path == key && forall j :: 0 <= j < i ==> outs[j].path != key
    ensures FindPath(outs, key) == Some(i)
  {
  }

  /** The first output with the entry's path carries its hash, hash method and
      scope. */
  ghost predicate Holds(outs: seq<Artifact>, e: Artifact) {
    && FindPath(outs, e.path).Some?
    && var o := outs[FindPath(outs, e.path).value];
       o.hash == e.hash && o.hashMethod == e.hashMethod && o.shared == e.shared
  }

  /** After an upsert the entry is what its key finds, and what any other key
      found is unchanged. */
  lemma UpsertHolds(outs: seq<Artifact>, entry: Artifact, e: Artifact)
    requires e == entry || (e.path != entry.path && Holds(outs, e))
    ensures Holds(Upsert(outs, entry.path, entry), e)
  {
    var key := entry.path;
    UpsertEffect(outs, key, entry);
    var outs' := Upsert(outs, key, entry);
    if e == entry {
      match FindPath(outs, key)
      case None => FindPathFirst(outs', key, |outs|);
      case Some(i) => FindPathFirst(outs', key, i);
    } else {
      var m := FindPath(outs, e.path).value;
      FindPathFirst(outs', e.path, m);
    }
  }

  /** An upsert either updates the first entry with the key in place or, when
      there is none, appends the entry; nothing else changes. */
  lemma {:induction false} UpsertEffect(outs: seq<Artifact>, key: string, entry: Artifact)
    ensures FindPath(outs, key).None? ==> Upsert(outs, key, entry) == outs + [entry]
    ensures FindPath(outs, key).Some? ==>
              var i := FindPath(outs, key).value;
              Upsert(outs, key, entry) == outs[i := Merge(outs[i], entry)]
  {
    if outs != [] && outs[0].path != key {
      UpsertEffect(outs[1..], key, entry);
      assert outs == [outs[0]] + outs[1..];
    }
  }
}
