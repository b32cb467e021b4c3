// The map from executable names to the verified engine packs that provide them.
module Doctor {
  import opened Strings

  type Path = string

  datatype Executable = Executable(name: string, path: Path)

  /** A pack that passed verification. `path` is its canonical manifest path. */
  datatype Pack = Pack(engineId: string, version: string, hash: string, path: Path, executables: seq<Executable>)

  datatype Registered = Registered(path: Path, hash: string, packId: string)

  type Paths = map<string, Registered>

  predicate Claimable(paths: Paths, isExecutable: Path -> bool, packId: string, e: Executable) {
    isExecutable(e.path) && (ToLower(e.name) in paths ==> paths[ToLower(e.name)].packId == packId)
  }

  predicate Registrable(paths: Paths, isExecutable: Path -> bool, pack: Pack) {
    forall i :: 0 <= i < |pack.executables| ==> Claimable(paths, isExecutable, pack.engineId, pack.executables[i])
  }

  /** A pack can be registered if all its executables can be executed and no other pack has
      taken one of their names. */
  lemma RegistrableWhen(paths: Paths, isExecutable: Path -> bool, pack: Pack)
    ensures Registrable(paths, isExecutable, pack) <==>
              && (forall e :: e in pack.executables ==> isExecutable(e.path))
              && (forall e, name :: e in pack.executables && name == ToLower(e.name) && name in paths ==> paths[name].packId == pack.engineId)
  {
    if Registrable(paths, isExecutable, pack) {
      forall e | e in pack.executables ensures Claimable(paths, isExecutable, pack.engineId, e) {
        var i :| 0 <= i < |pack.executables| && pack.executables[i] == e;
      }
    }
  }

  function Dropped(paths: Paths, packId: string): Paths {
    map n | n in paths && paths[n].packId != packId :: paths[n]
  }

  function Inserted(paths: Paths, pack: Pack, count: nat): Paths
    requires count <= |pack.executables|
  {
    if count == 0 then paths
    else
      var e := pack.executables[count - 1];
      Inserted(paths, pack, count - 1)[ToLower(e.name) := Registered(e.path, pack.hash, pack.engineId)]
  }

  /** The map once `pack` has replaced whatever was registered under its id. */
  function AfterRegistering(paths: Paths, pack: Pack): Paths {
    Inserted(Dropped(paths, pack.engineId), pack, |pack.executables|)
  }

  predicate Provides(pack: Pack, name: string) {
    exists i :: 0 <= i < |pack.executables| && ToLower(pack.executables[i].name) == name
  }

  /** The registration of one of the pack's own executables. */
  predicate IsRegistration(pack: Pack, name: string, r: Registered) {
    && r.packId == pack.engineId && r.hash == pack.hash
    && exists i :: 0 <= i < |pack.executables| && ToLower(pack.executables[i].name) == name && pack.executables[i].path == r.path
  }

  lemma {:induction false} InsertedNames(paths: Paths, pack: Pack, count: nat, name: string)
    requires count <= |pack.executables|
    ensures name in Inserted(paths, pack, count) <==>
              name in paths || exists i :: 0 <= i < count && ToLower(pack.executables[i].name) == name
    ensures name in Inserted(paths, pack, count) ==>
              if exists i :: 0 <= i < count && ToLower(pack.executables[i].name) == name
              then IsRegistration(pack, name, Inserted(paths, pack, count)[name])
              else Inserted(paths, pack, count)[name] == paths[name]
  {
    if count == 0 {
    } else {
      InsertedNames(paths, pack, count - 1, name);
    }
  }

  /** Registering a pack makes exactly its own names its own, drops the names of
      its earlier version, and takes nothing from another pack. */
  lemma RegisteringIsExact(paths: Paths, isExecutable: Path -> bool, pack: Pack, name: string)
    requires Registrable(paths, isExecutable, pack)
    ensures var after := AfterRegistering(paths, pack);
      && (Provides(pack, name) <==> name in after && after[name].packId == pack.engineId)
      && (Provides(pack, name) ==> IsRegistration(pack, name, after[name]))
      && (name in paths && paths[name].packId != pack.engineId ==> name in after && after[name] == paths[name])
      && (name in after && after[name].packId != pack.engineId ==> name in paths && after[name] == paths[name])
  {
    InsertedNames(Dropped(paths, pack.engineId), pack, |pack.executables|, name);
    if Provides(pack, name) && name in paths {
      var i :| 0 <= i < |pack.executables| && ToLower(pack.executables[i].name) == name;
      assert Claimable(paths, isExecutable, pack.engineId, pack.executables[i]);
    }
  }

  class PathRegistry {
    var paths: Paths

    constructor ()
      ensures paths == map[]
    {
      paths := map[];
    }

    /** `register_engine_pack_paths_with_provenance`: all names are checked before
        any is changed. */
    method Register(pack: Pack, isExecutable: Path -> bool) returns (ok: bool)
      modifies this
      ensures ok <==> Registrable(old(paths), isExecutable, pack)
      ensures paths == if ok then AfterRegistering(old(paths), pack) else old(paths)
    {
      for i := 0 to |pack.executables|
        invariant paths == old(paths)
        invariant forall k :: 0 <= k < i ==> Claimable(paths, isExecutable, pack.engineId, pack.executables[k])
      {
        var e := pack.executables[i];
        var name := ToLower(e.name);
        if !isExecutable(e.path) { return false; }
        if name in paths && paths[name].packId != pack.engineId { return false; }
      }
      paths := Dropped(paths, pack.engineId);
      for i := 0 to |pack.executables|
        invariant paths == Inserted(Dropped(old(paths), pack.engineId), pack, i)
      {
        var e := pack.executables[i];
        paths := paths[ToLower(e.name) := Registered(e.path, pack.hash, pack.engineId)];
      }
      ok := true;
    }
  }
}
