/**
 * The first cacheable-function wrapper: a call computes the output path
 *   <base>/functions/<name>/versions/<version_id>/inputs/<input_id>/outputs
 * from two user hooks, returns the stored result when reading is on and
 * loading works, and otherwise calls the function and, when writing is
 * on, stores its result with the dump-check-replace write.
 */
module CacheableCore {
  import opened Wrappers
  import opened FileSystem
  import opened Staging
  import opened Scopes
  import opened CoreCommon
  import Controllers

  /**
   * What is fixed when a function is wrapped. The version hook sees only
   * the name and the metadata, both fixed, so its outcome is one value.
   */
  datatype Config<!A, !R(!new)> = Config(
    fn: A -> R,
    base: Path,
    name: string,
    versionHook: HookResult,
    inputHook: A -> HookResult,
    serializer: Serializer<R>)
  {
    /** _get_input_id */
    function InputId(a: A): Result<string, Error> {
      CheckId(inputHook(a), InputIdException)
    }

    /** _get_version_id */
    function VersionId(): Result<string, Error> {
      CheckId(versionHook, VersionIdException)
    }

    function OutputPath(versionId: string, inputId: string): Path {
      base + ["functions", name, "versions", versionId, "inputs", inputId, "outputs"]
    }

    /** Distinct id pairs give distinct output paths. */
    lemma OutputPathsDistinct(v1: string, i1: string, v2: string, i2: string)
      ensures OutputPath(v1, i1) == OutputPath(v2, i2) <==> v1 == v2 && i1 == i2
    {
      if OutputPath(v1, i1) == OutputPath(v2, i2) {
        assert OutputPath(v1, i1)[|base| + 3] == v1 && OutputPath(v2, i2)[|base| + 3] == v2;
        assert OutputPath(v1, i1)[|base| + 5] == i1 && OutputPath(v2, i2)[|base| + 5] == i2;
      }
    }

    /** get_path_from_inputs: the input id is asked for first, then the version id. */
    function PathFromInputs(a: A): (r: Result<Path, Error>)
      ensures r.Success? <==> InputId(a).Success? && VersionId().Success?
      ensures r.Success? ==> r.value == OutputPath(VersionId().value, InputId(a).value)
      ensures r.Failure? ==> r.error == (if InputId(a).Failure? then InputIdException else VersionIdException)
    {
      match InputId(a)
      case Failure(e) => Failure(e)
      case Success(i) =>
        match VersionId()
        case Failure(e) => Failure(e)
        case Success(v) => Success(OutputPath(v, i))
    }

    /** get_path_from_ids: a missing or empty version id means the current version. */
    function PathFromIds(inputId: string, versionId: Option<string>): Result<Path, Error> {
      if versionId.Some? && versionId.value != "" then Success(OutputPath(versionId.value, inputId))
      else
        match VersionId()
        case Failure(e) => Failure(e)
        case Success(v) => Success(OutputPath(v, inputId))
    }

    /** Both path builders give the same layout; without a version id the current one is used. */
    lemma PathsAgree(a: A, versionId: Option<string>)
      requires PathFromInputs(a).Success?
      requires versionId.None? || versionId == Some("") || versionId == Some(VersionId().value)
      ensures PathFromIds(InputId(a).value, versionId) == PathFromInputs(a)
    {
    }

    /** _read_from_cache: any failure of the load surfaces as LoadException. */
    function ReadFromCache(t: Tree, p: Path): (r: Result<R, Error>)
      ensures r.Failure? ==> r.error == LoadException
      ensures r.Success? <==> serializer.load(EntryAt(t, p)).Some?
    {
      match serializer.load(EntryAt(t, p))
      case None => Failure(LoadException)
      case Some(v) => Success(v)
    }

    /** _write_to_cache: every failure of the dump-check-replace write surfaces as DumpException. */
    function WriteToCache(t: Tree, v: R, p: Path): (r: Step<(), Error>)
      requires p != []
      ensures r.result.Failure? ==> r.result.error == DumpException
    {
      var c := Commit(t, p, serializer.dump(v));
      Step(if c.ok then Success(()) else Failure(DumpException), c.fs)
    }

    /** A failed write leaves the previous output in place; a successful one replaces it by exactly the dumped files. */
    lemma WriteToCacheEffect(t: Tree, v: R, p: Path)
      requires WellFormed(t) && p != [] && Dumps(serializer)
      ensures WriteToCache(t, v, p).result.Success? <==>
        serializer.dump(v).Wrote? && serializer.dump(v).files != map[] && NoFileOnPath(t, Parent(p)) && !IsFile(t, p)
      ensures WellFormed(WriteToCache(t, v, p).fs)
      ensures WriteToCache(t, v, p).result.Failure? ==> WriteToCache(t, v, p).fs == t
      ensures WriteToCache(t, v, p).result.Success? ==>
        && IsDir(WriteToCache(t, v, p).fs, p)
        && Subtree(WriteToCache(t, v, p).fs, p) == serializer.dump(v).files
        && ChangesOnlyUnder(t, WriteToCache(t, v, p).fs, p)
      ensures WriteToCache(t, v, p).result.Success? && Faithful(serializer) ==>
        ReadFromCache(WriteToCache(t, v, p).fs, p) == Success(v)
    {
      CommitSucceeds(t, p, serializer.dump(v));
      if WriteToCache(t, v, p).result.Success? {
        assert Sound(serializer.dump(v));
        CommitSuccess(t, p, serializer.dump(v));
        if Faithful(serializer) {
          CommitThenLoad(t, p, serializer, v);
        }
      } else {
        CommitFailureKeeps(t, p, serializer.dump(v));
      }
    }

    /** load_from_inputs */
    function LoadFromInputs(t: Tree, a: A): Result<R, Error> {
      match PathFromInputs(a)
      case Failure(e) => Failure(e)
      case Success(p) => if p !in t then Failure(MissingResultException) else ReadFromCache(t, p)
    }

    /** load_from_ids */
    function LoadFromIds(t: Tree, inputId: string, versionId: Option<string>): Result<R, Error> {
      match PathFromIds(inputId, versionId)
      case Failure(e) => Failure(e)
      case Success(p) => if p !in t then Failure(MissingResultException) else ReadFromCache(t, p)
    }

    /** Both loads raise MissingResultException when nothing is stored at the path, and otherwise load it. */
    lemma LoadOutcomes(t: Tree, a: A)
      requires PathFromInputs(a).Success?
      ensures var p := PathFromInputs(a).value;
        && (p !in t ==> LoadFromInputs(t, a) == Failure(MissingResultException))
        && (p in t ==> LoadFromInputs(t, a) == ReadFromCache(t, p))
        && LoadFromIds(t, InputId(a).value, None) == LoadFromInputs(t, a)
    {
    }

    /**
     * __call__. The environment switch bypasses the cache; so does a hook
     * that fails. A stored result is returned only when reading is on and
     * it loads; otherwise the function runs, and when writing is on its
     * result is stored, a failed write being swallowed.
     */
    function Call(t: Tree, env: Controllers.Environment, flags: Flags, a: A): Called<R> {
      if CacheDisabled(env) then Called(fn(a), false, t)
      else
        match PathFromInputs(a)
        case Failure(_) => Called(fn(a), false, t)
        case Success(p) =>
          if flags.read == Some(true) && p in t && ReadFromCache(t, p).Success? then
            Called(ReadFromCache(t, p).value, true, t)
          else if flags.write == Some(true) then
            Called(fn(a), false, WriteToCache(t, fn(a), p).fs)
          else
            Called(fn(a), false, t)
    }

    /** With DISABLE_CACHEABLE set, or a hook that fails, the call is the plain function and the store is untouched. */
    lemma CallBypass(t: Tree, env: Controllers.Environment, flags: Flags, a: A)
      requires CacheDisabled(env) || PathFromInputs(a).Failure?
      ensures Call(t, env, flags, a) == Called(fn(a), false, t)
    {
    }

    /**
     * A call answers from the cache exactly when reading is on, a result is
     * stored at the path and it loads; then it returns what was loaded and
     * writes nothing. Any other call returns what the function returns.
     */
    lemma CallHit(t: Tree, env: Controllers.Environment, flags: Flags, a: A)
      ensures Call(t, env, flags, a).hit <==>
        && !CacheDisabled(env)
        && PathFromInputs(a).Success?
        && flags.read == Some(true)
        && PathFromInputs(a).value in t
        && ReadFromCache(t, PathFromInputs(a).value).Success?
      ensures Call(t, env, flags, a).hit ==>
        Call(t, env, flags, a).result == ReadFromCache(t, PathFromInputs(a).value).value &&
        Call(t, env, flags, a).fs == t
      ensures !Call(t, env, flags, a).hit ==> Call(t, env, flags, a).result == fn(a)
    {
    }

    /**
     * The store changes only on a miss with writing on; a failed write is
     * swallowed and leaves the store as it was, and a successful one leaves
     * exactly the dumped files at the path and nothing else changed.
     */
    lemma CallStores(t: Tree, env: Controllers.Environment, flags: Flags, a: A)
      requires WellFormed(t) && Dumps(serializer)
      ensures WellFormed(Call(t, env, flags, a).fs)
      ensures Call(t, env, flags, a).fs != t ==>
        !Call(t, env, flags, a).hit && flags.write == Some(true) && !CacheDisabled(env) && PathFromInputs(a).Success?
      ensures Call(t, env, flags, a).fs != t ==>
        var p := PathFromInputs(a).value;
        && WriteToCache(t, fn(a), p).result.Success?
        && Subtree(Call(t, env, flags, a).fs, p) == serializer.dump(fn(a)).files
        && ChangesOnlyUnder(t, Call(t, env, flags, a).fs, p)
    {
      if !CacheDisabled(env) && PathFromInputs(a).Success? {
        WriteToCacheEffect(t, fn(a), PathFromInputs(a).value);
      }
    }

    /** Memoization: after a call that stored its result, the same call is answered from the cache with that result. */
    lemma CallMemoizes(t: Tree, env: Controllers.Environment, flags: Flags, a: A)
      requires WellFormed(t) && Dumps(serializer) && Faithful(serializer)
      requires flags.read == Some(true)
      requires !CacheDisabled(env) && PathFromInputs(a).Success?
      requires WriteToCache(t, fn(a), PathFromInputs(a).value).result.Success?
      requires !Call(t, env, flags, a).hit && flags.write == Some(true)
      ensures Call(Call(t, env, flags, a).fs, env, flags, a) == Called(fn(a), true, Call(t, env, flags, a).fs)
    {
      var p := PathFromInputs(a).value;
      WriteToCacheEffect(t, fn(a), p);
      PrefixesBound(p);
    }
  }

  /** One wrapped function: its configuration, the shared disk and its own read/write flags. */
  class CacheableFunction<A, !R(!new)> {
    const config: Config<A, R>
    const disk: Disk
    var read: Option<bool>
    var write: Option<bool>

    ghost predicate Valid()
      reads this, disk
    {
      disk.Valid() && Dumps(config.serializer)
    }

    constructor (config: Config<A, R>, disk: Disk)
      requires disk.Valid() && Dumps(config.serializer)
      ensures this.config == config && this.disk == disk
      ensures read == None && write == None && Valid()
    {
      this.config := config;
      this.disk := disk;
      read := None;
      write := None;
    }

    function Current(): Flags
      reads this
    {
      Flags(read, write)
    }

    /** Entering enable_cache: the most restrictive of the requested and the current flags. */
    method EnableCache(r: bool, w: bool) returns (saved: Flags)
      modifies this
      ensures Current() == Entered(MostRestrictive, old(Current()), r, w)
      ensures saved == old(Current())
    {
      saved := Flags(read, write);
      read := if read.Some? then Some(r && read.value) else Some(r);
      write := if write.Some? then Some(w && write.value) else Some(w);
    }

    /** Entering disable_cache, which is enable_cache(read=False, write=False). */
    method DisableCache() returns (saved: Flags)
      modifies this
      ensures Current() == Entered(MostRestrictive, old(Current()), false, false)
      ensures Current() == Flags(Some(false), Some(false))
      ensures saved == old(Current())
    {
      saved := EnableCache(false, false);
    }

    /** Leaving either block, in `finally`: the flags saved on entry come back. */
    method Restore(saved: Flags)
      modifies this
      ensures Current() == saved
    {
      read, write := saved.read, saved.write;
    }

    method WriteToCache(v: R, p: Path) returns (r: Result<(), Error>)
      requires Valid() && p != []
      modifies disk
      ensures Valid()
      ensures Step(r, disk.fs) == config.WriteToCache(old(disk.fs), v, p)
    {
      config.WriteToCacheEffect(disk.fs, v, p);
      var s := config.WriteToCache(disk.fs, v, p);
      disk.fs := s.fs;
      r := s.result;
    }

    /** __call__, step by step. */
    method Call(env: Controllers.Environment, a: A) returns (result: R, hit: bool)
      requires Valid()
      modifies disk
      ensures Valid()
      ensures Called(result, hit, disk.fs) == config.Call(old(disk.fs), env, Current(), a)
    {
      if CacheDisabled(env) {
        return config.fn(a), false;
      }
      var path := config.PathFromInputs(a);
      if path.Failure? {
        return config.fn(a), false;
      }
      var p := path.value;
      if read == Some(true) && p in disk.fs {
        var loaded := config.ReadFromCache(disk.fs, p);
        if loaded.Success? {
          return loaded.value, true;
        }
      }
      result, hit := config.fn(a), false;
      if write == Some(true) {
        var stored := WriteToCache(result, p);
      }
    }

    method LoadFromInputs(a: A) returns (r: Result<R, Error>)
      ensures r == config.LoadFromInputs(disk.fs, a)
    {
      var path := config.PathFromInputs(a);
      if path.Failure? {
        return Failure(path.error);
      }
      if path.value !in disk.fs {
        return Failure(MissingResultException);
      }
      r := config.ReadFromCache(disk.fs, path.value);
    }

    method LoadFromIds(inputId: string, versionId: Option<string>) returns (r: Result<R, Error>)
      ensures r == config.LoadFromIds(disk.fs, inputId, versionId)
    {
      var path := config.PathFromIds(inputId, versionId);
      if path.Failure? {
        return Failure(path.error);
      }
      if path.value !in disk.fs {
        return Failure(MissingResultException);
      }
      r := config.ReadFromCache(disk.fs, path.value);
    }
  }

  /** Entering the module-level enable_cache: every registered function enters its own block. */
  method EnableCache<A, R(!new)>(instances: set<CacheableFunction<A, R>>, r: bool, w: bool)
    returns (saved: map<CacheableFunction<A, R>, Flags>)
    modifies instances
    ensures saved.Keys == instances
    ensures forall f :: f in instances ==> saved[f] == old(f.Current())
    ensures forall f :: f in instances ==> f.Current() == Entered(MostRestrictive, saved[f], r, w)
  {
    saved := map[];
    var rest := instances;
    while rest != {}
      invariant rest <= instances
      invariant saved.Keys == instances - rest
      invariant forall f :: f in instances - rest ==> saved[f] == old(f.Current())
      invariant forall f :: f in instances - rest ==> f.Current() == Entered(MostRestrictive, saved[f], r, w)
      invariant forall f :: f in rest ==> f.Current() == old(f.Current())
      decreases rest
    {
      var f :| f in rest;
      var s := f.EnableCache(r, w);
      saved := saved[f := s];
      rest := rest - {f};
    }
  }

  /** Entering the module-level disable_cache. */
  method DisableCache<A, R(!new)>(instances: set<CacheableFunction<A, R>>)
    returns (saved: map<CacheableFunction<A, R>, Flags>)
    modifies instances
    ensures saved.Keys == instances
    ensures forall f :: f in instances ==> saved[f] == old(f.Current())
    ensures forall f :: f in instances ==> f.Current() == Flags(Some(false), Some(false))
  {
    saved := EnableCache(instances, false, false);
  }

  /** Leaving either module-level block: every registered function gets back the flags it had on entry. */
  method RestoreAll<A, R(!new)>(instances: set<CacheableFunction<A, R>>, saved: map<CacheableFunction<A, R>, Flags>)
    requires instances <= saved.Keys
    modifies instances
    ensures forall f :: f in instances ==> f.Current() == saved[f]
  {
    var rest := instances;
    while rest != {}
      invariant rest <= instances
      invariant forall f :: f in instances - rest ==> f.Current() == saved[f]
      decreases rest
    {
      var f :| f in rest;
      f.Restore(saved[f]);
      rest := rest - {f};
    }
  }
}
