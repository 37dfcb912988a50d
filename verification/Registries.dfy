/** The store of the validated registry (src/omo/registry.py). */
module Registries {
  import opened Common
  import opened Contracts

  /** What reading a path gives: a registry that passed its validators, or the name of the error. */
  datatype ReadResult = Loaded(registry: Registry) | ReadError(name: string)

  /** The snapshot after an attempt to reload. */
  function AfterReload(snapshot: Registry, result: ReadResult): Registry {
    if result.Loaded? then result.registry else snapshot
  }

  class RegistryStore {
    var snapshot: Registry
    var sourcePath: Option<string>
    var loadedAt: real
    var lastReloadAt: real
    var lastReloadError: Option<string>

    constructor (snapshot: Registry, sourcePath: Option<string>, now: real)
      ensures this.snapshot == snapshot && this.sourcePath == sourcePath
      ensures loadedAt == lastReloadAt == now && lastReloadError == None
    {
      this.snapshot, this.sourcePath := snapshot, sourcePath;
      loadedAt, lastReloadAt, lastReloadError := now, now, None;
    }

    /** `try_reload`: a failed read changes nothing but the record of the attempt. */
    method TryReload(path: string, result: ReadResult, now: real) returns (ok: bool)
      modifies this
      ensures ok <==> result.Loaded?
      ensures snapshot == AfterReload(old(snapshot), result) && lastReloadAt == now
      ensures ok ==> sourcePath == Some(path) && loadedAt == now && lastReloadError == None
      ensures !ok ==> sourcePath == old(sourcePath) && loadedAt == old(loadedAt) && lastReloadError == Some(result.name)
    {
      match result
      case ReadError(name) =>
        lastReloadAt, lastReloadError := now, Some(name);
        return false;
      case Loaded(registry) =>
        snapshot, sourcePath := registry, Some(path);
        loadedAt, lastReloadAt, lastReloadError := now, now, None;
        return true;
    }

    /** Not older than allowed; a clock that has gone back counts as no age. */
    predicate Fresh(maxAge: real, now: real): (young: bool)
      reads this
      ensures maxAge >= 0.0 ==> (young <==> now <= loadedAt + maxAge)
    {
      (if now - loadedAt < 0.0 then 0.0 else now - loadedAt) <= maxAge
    }

    /** `refresh_if_stale`: a fresh snapshot is never replaced, whatever the file holds. */
    method RefreshIfStale(path: string, maxAge: real, result: ReadResult, now: real) returns (reloaded: bool)
      modifies this
      ensures reloaded <==> !old(Fresh(maxAge, now)) && result.Loaded?
      ensures snapshot == if old(Fresh(maxAge, now)) then old(snapshot) else AfterReload(old(snapshot), result)
      ensures old(Fresh(maxAge, now)) ==> unchanged(this)
    {
      if Fresh(maxAge, now) {
        return false;
      }
      reloaded := TryReload(path, result, now);
    }
  }
}
