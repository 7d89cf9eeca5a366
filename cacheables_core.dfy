/**
 * The second cacheable-function wrapper. Its calls decide like the first
 * one's, but its paths go through the `_construct_*` chain, a successful
 * write also records the version's metadata (once, with the time and the
 * git state), and it lists the stored versions.
 */
module CacheablesCore {
  import opened Wrappers
  import opened FileSystem
  import opened Documents
  import opened Staging
  import opened Scopes
  import opened CoreCommon
  import Controllers
  import Ordering

  const MetadataFile := "metadata.json"

  /** What the two git commands gave: the commit and whether the tree is clean, a failed command, or no git at all. */
  datatype GitProbe = GitInfo(commitHash: string, clean: bool) | GitFailed | GitMissing

  /**
   * What is fixed when a function is wrapped. The version hook sees only
   * the name and the metadata, both fixed, so its outcome is one value.
   */
  datatype Config<!A, !R(!new)> = Config(
    fn: A -> R,
    base: Path,
    name: string,
    metadata: Metadata,
    versionHook: HookResult,
    inputHook: A -> HookResult,
    serializer: Serializer<R>,
    codec: Codec)
  {
    /** _get_input_id */
    function InputId(a: A): Result<string, Error> {
      CheckId(inputHook(a), InputIdException)
    }

    /** _get_version_id */
    function VersionId(): Result<string, Error> {
      CheckId(versionHook, VersionIdException)
    }

    /** _construct_function_path */
    function FunctionPath(): Path {
      base + ["functions", name]
    }

    /** _construct_version_path: a missing or empty version id means the current version. */
    function VersionPath(versionId: Option<string>): (r: Result<Path, Error>)
      ensures versionId.Some? && versionId.value != "" ==> r == Success(FunctionPath() + ["versions", versionId.value])
      ensures versionId.None? || versionId == Some("") ==>
        r == (if VersionId().Success? then Success(FunctionPath() + ["versions", VersionId().value]) else Failure(VersionIdException))
    {
      var v := if versionId.Some? && versionId.value != "" then Success(versionId.value) else VersionId();
      match v
      case Failure(e) => Failure(e)
      case Success(id) => Success(FunctionPath() + ["versions", id])
    }

    /** _construct_input_path */
    function InputPath(inputId: string, versionId: Option<string>): Result<Path, Error> {
      match VersionPath(versionId)
      case Failure(e) => Failure(e)
      case Success(p) => Success(p + ["inputs", inputId])
    }

    /** _construct_output_path */
    function OutputPath(inputId: string, versionId: Option<string>): Result<Path, Error> {
      match InputPath(inputId, versionId)
      case Failure(e) => Failure(e)
      case Success(p) => Success(p + ["outputs"])
    }

    /** The chain spelled out: base/functions/<name>/versions/<version_id>/inputs/<input_id>/outputs. */
    lemma OutputPathLayout(inputId: string, versionId: Option<string>)
      ensures OutputPath(inputId, versionId).Failure? <==>
        (versionId.None? || versionId == Some("")) && VersionId().Failure?
      ensures OutputPath(inputId, versionId).Success? ==>
        var v := if versionId.Some? && versionId.value != "" then versionId.value else VersionId().value;
        OutputPath(inputId, versionId).value == base + ["functions", name, "versions", v, "inputs", inputId, "outputs"]
    {
    }

    /** Distinct id pairs give output paths neither inside the other. */
    lemma OutputPathsApart(i1: string, v1: string, i2: string, v2: string)
      requires v1 != "" && v2 != ""
      ensures var p1 := OutputPath(i1, Some(v1)).value;
        var p2 := OutputPath(i2, Some(v2)).value;
        Within(p1, p2) <==> i1 == i2 && v1 == v2
    {
      var p1 := OutputPath(i1, Some(v1)).value;
      var p2 := OutputPath(i2, Some(v2)).value;
      var n := |base|;
      if Within(p1, p2) {
        assert p1[n + 3] == v1 && p2[n + 3] == v2;
        assert p1[n + 5] == i1 && p2[n + 5] == i2;
      }
    }

    /** get_path_from_inputs: the input id is asked for first, then the version id. */
    function PathFromInputs(a: A): (r: Result<Path, Error>)
      ensures r.Success? <==> InputId(a).Success? && VersionId().Success?
      ensures r.Failure? ==> r.error == (if InputId(a).Failure? then InputIdException else VersionIdException)
      ensures r.Success? ==> r == OutputPath(InputId(a).value, None)
    {
      match InputId(a)
      case Failure(e) => Failure(e)
      case Success(i) => OutputPath(i, None)
    }

    /** get_path_from_ids */
    function PathFromIds(inputId: string, versionId: Option<string>): Result<Path, Error> {
      OutputPath(inputId, versionId)
    }

    /** _read_from_cache: any failure of the load surfaces as LoadException. */
    function ReadFromCache(t: Tree, p: Path): (r: Result<R, Error>)
      ensures r.Failure? ==> r.error == LoadException
      ensures r.Success? <==> serializer.load(EntryAt(t, p)).Some?
    {
      match serializer.load(EntryAt(t, p))
      case None => Failure(LoadException)
      case Some(v) => Success(v)
    }

    // -------------------------------------------------------------------
    // Version metadata

    /** The record _dump_version_metadata writes; `now` is the ISO time without its "Z". */
    function VersionRecord(now: string, versionId: string, git: GitProbe): (m: Metadata)
      ensures Ordering.CreatedAtKey in m && m[Ordering.CreatedAtKey] == Text(now + "Z")
      ensures "version_id" in m && m["version_id"] == Text(versionId)
      ensures "metadata" in m && m["metadata"] == Table(metadata)
      ensures "git" in m <==> git.GitInfo?
    {
      var record := map[Ordering.CreatedAtKey := Text(now + "Z"), "version_id" := Text(versionId), "metadata" := Table(metadata)];
      if git.GitInfo? then
        record["git" := Table(map["commit_hash" := Text(git.commitHash), "clean" := Scalar(if git.clean then "True" else "False")])]
      else record
    }

    function VersionMetadataPath(versionId: string): Path {
      FunctionPath() + ["versions", versionId, MetadataFile]
    }

    /**
     * _dump_version_metadata: nothing when the file exists; otherwise a
     * missing git raises (only a failing git command is tolerated), and so
     * does a regular file in the way of the version directory.
     */
    function DumpVersionMetadata(t: Tree, now: string, git: GitProbe): Committed {
      match VersionId()
      case Failure(_) => Committed(false, t)
      case Success(v) =>
        var dir := FunctionPath() + ["versions", v];
        if VersionMetadataPath(v) in t then Committed(true, t)
        else if git.GitMissing? || !NoFileOnPath(t, dir) then Committed(false, t)
        else
          var made := MakeDirs(t, dir);
          match WriteFile(made, VersionMetadataPath(v), codec.encode(VersionRecord(now, v, git)))
          case None => Committed(false, made)
          case Some(u) => Committed(true, u)
    }

    /**
     * First writer wins: an existing metadata file is left as it is; a new
     * one holds the record, and nothing but the directories above it and
     * the file itself change.
     */
    lemma DumpVersionMetadataEffect(t: Tree, now: string, git: GitProbe)
      requires WellFormed(t) && Lossless(codec) && VersionId().Success?
      ensures var d := DumpVersionMetadata(t, now, git);
        var mp := VersionMetadataPath(VersionId().value);
        && WellFormed(d.fs)
        && (d.ok <==> mp in t || (!git.GitMissing? && NoFileOnPath(t, FunctionPath() + ["versions", VersionId().value])))
        && (mp in t || !d.ok ==> d.fs == t)
        && ChangesOnlyUnder(t, d.fs, mp)
        && (mp !in t && d.ok ==> ReadFile(d.fs, mp) == Some(codec.encode(VersionRecord(now, VersionId().value, git))))
    {
      var v := VersionId().value;
      var dir := FunctionPath() + ["versions", v];
      var mp := VersionMetadataPath(v);
      assert Parent(mp) == dir;
      if mp !in t && !git.GitMissing? && NoFileOnPath(t, dir) {
        MakeDirsEffect(t, dir);
        PrefixesBound(dir);
        assert mp !in Prefixes(dir);
        MakeDirsChanges(t, dir, mp);
        var made := MakeDirs(t, dir);
        WriteFileEffect(made, mp, codec.encode(VersionRecord(now, v, git)));
        assert Within(mp, mp);
        ChangesCompose(t, made, DumpVersionMetadata(t, now, git).fs, mp);
      }
    }

    /** _load_version_metadata: a missing file reads as an empty record. */
    function LoadVersionMetadata(t: Tree, versionDir: Path): (r: Result<Metadata, Error>)
      ensures versionDir + [MetadataFile] !in t ==> r == Success(map[])
      ensures r.Failure? ==> r.error in {OSError, JSONDecodeError}
    {
      var mp := versionDir + [MetadataFile];
      if mp !in t then Success(map[])
      else
        match ReadFile(t, mp)
        case None => Failure(OSError)
        case Some(bytes) =>
          match codec.decode(bytes)
          case None => Failure(JSONDecodeError)
          case Some(m) => Success(m)
    }

    /** The metadata of each listed version directory, in listing order; the first failure raises. */
    function LoadAll(t: Tree, names: seq<string>): (r: Result<seq<Metadata>, Error>)
      ensures r.Success? ==> |r.value| == |names|
      ensures r.Success? ==> forall i :: 0 <= i < |names| ==>
        LoadVersionMetadata(t, FunctionPath() + ["versions", names[i]]) == Success(r.value[i])
      ensures r.Failure? <==> exists i :: 0 <= i < |names| && LoadVersionMetadata(t, FunctionPath() + ["versions", names[i]]).Failure?
    {
      if names == [] then Success([])
      else
        match LoadVersionMetadata(t, FunctionPath() + ["versions", names[0]])
        case Failure(e) => Failure(e)
        case Success(m) =>
          match LoadAll(t, names[1..])
          case Failure(e) => Failure(e)
          case Success(ms) =>
            assert forall i :: 1 <= i < |names| ==> names[i] == names[1..][i - 1];
            Success([m] + ms)
    }

    lemma {:induction false} LoadAllAppend(t: Tree, names: seq<string>, n: string)
      requires LoadAll(t, names).Success?
      ensures LoadAll(t, names + [n]) ==
        match LoadVersionMetadata(t, FunctionPath() + ["versions", n])
        case Failure(e) => Failure(e)
        case Success(m) => Success(LoadAll(t, names).value + [m])
    {
      if names == [] {
        assert names + [n] == [n] && [n][1..] == [];
        if LoadVersionMetadata(t, FunctionPath() + ["versions", n]).Success? {
          var m := LoadVersionMetadata(t, FunctionPath() + ["versions", n]).value;
          assert LoadAll(t, [n]) == Success([m] + []);
          assert [m] + [] == [] + [m];
        }
      } else {
        var w := names + [n];
        assert w[0] == names[0] && w[1..] == names[1..] + [n];
        var m0 := LoadVersionMetadata(t, FunctionPath() + ["versions", names[0]]).value;
        LoadAllAppend(t, names[1..], n);
        var rest := LoadAll(t, names[1..]).value;
        assert LoadAll(t, names).value == [m0] + rest;
        if LoadVersionMetadata(t, FunctionPath() + ["versions", n]).Success? {
          var m := LoadVersionMetadata(t, FunctionPath() + ["versions", n]).value;
          assert LoadAll(t, w) == Success([m0] + (rest + [m]));
          assert [m0] + (rest + [m]) == ([m0] + rest) + [m];
        }
      }
    }

    lemma {:induction false} LoadAllPrefixFails(t: Tree, names: seq<string>, rest: seq<string>)
      requires LoadAll(t, names).Failure?
      ensures LoadAll(t, names + rest) == LoadAll(t, names)
    {
      assert names != [];
      assert (names + rest)[0] == names[0];
      if LoadVersionMetadata(t, FunctionPath() + ["versions", names[0]]).Success? {
        assert (names + rest)[1..] == names[1..] + rest;
        LoadAllPrefixFails(t, names[1..], rest);
      }
    }

    /** Reading the versions one at a time: the next one extends the prefix read so far, or its failure is the whole read's. */
    lemma LoadAllStep(t: Tree, names: seq<string>, i: nat)
      requires i < |names| && LoadAll(t, names[..i]).Success?
      ensures var m := LoadVersionMetadata(t, FunctionPath() + ["versions", names[i]]);
        && (m.Success? ==> LoadAll(t, names[..i + 1]) == Success(LoadAll(t, names[..i]).value + [m.value]))
        && (m.Failure? ==> LoadAll(t, names) == Failure(m.error))
    {
      assert names[..i + 1] == names[..i] + [names[i]];
      LoadAllAppend(t, names[..i], names[i]);
      if LoadVersionMetadata(t, FunctionPath() + ["versions", names[i]]).Failure? {
        LoadAllPrefixFails(t, names[..i + 1], names[i + 1..]);
        assert names[..i + 1] + names[i + 1..] == names;
      }
    }

    // -------------------------------------------------------------------
    // Writing

    /**
     * _write_to_cache: the dump-check-replace write, then the version
     * metadata, inside one `try`: a failure of either is a DumpException.
     */
    function WriteToCache(t: Tree, v: R, p: Path, now: string, git: GitProbe): (r: Step<(), Error>)
      requires p != []
      ensures r.result.Failure? ==> r.result.error == DumpException
    {
      var c := Commit(t, p, serializer.dump(v));
      if !c.ok then Step(Failure(DumpException), c.fs)
      else
        var d := DumpVersionMetadata(c.fs, now, git);
        Step(if d.ok then Success(()) else Failure(DumpException), d.fs)
    }

    /** The version metadata file lies beside the inputs directory, apart from every output directory. */
    lemma MetadataApartFromOutputs(i: string, version: string, current: string)
      requires version != ""
      ensures var p := OutputPath(i, Some(version)).value;
        var mp := VersionMetadataPath(current);
        !Within(mp, p) && !Within(p, mp)
    {
      var p := OutputPath(i, Some(version)).value;
      var mp := VersionMetadataPath(current);
      var n := |base|;
      assert mp[n + 4] == MetadataFile && p[n + 4] == "inputs";
    }

    /** Recording the version metadata leaves every output directory as it was. */
    lemma DumpKeepsOutputs(t: Tree, i: string, version: string, now: string, git: GitProbe)
      requires WellFormed(t) && Lossless(codec) && version != ""
      ensures var p := OutputPath(i, Some(version)).value;
        var u := DumpVersionMetadata(t, now, git).fs;
        WellFormed(u) && SameWithin(t, u, p)
    {
      var p := OutputPath(i, Some(version)).value;
      if VersionId().Success? {
        DumpVersionMetadataEffect(t, now, git);
        MetadataApartFromOutputs(i, version, VersionId().value);
        ChangesElsewhere(t, DumpVersionMetadata(t, now, git).fs, VersionMetadataPath(VersionId().value), p);
      }
    }

    /**
     * A dump that raises or leaves nothing changes nothing. Once the copy
     * succeeded the output directory holds exactly the dumped files and
     * loads back, even when the version metadata step then raises.
     */
    lemma WriteToCacheOutput(t: Tree, v: R, i: string, version: string, now: string, git: GitProbe)
      requires WellFormed(t) && Dumps(serializer) && Lossless(codec) && version != ""
      ensures var p := OutputPath(i, Some(version)).value;
        var w := WriteToCache(t, v, p, now, git);
        var c := Commit(t, p, serializer.dump(v));
        && WellFormed(w.fs)
        && (!c.ok ==> w.fs == t)
        && (c.ok ==> IsDir(w.fs, p) && Subtree(w.fs, p) == serializer.dump(v).files)
        && (c.ok && Faithful(serializer) ==> ReadFromCache(w.fs, p) == Success(v))
        && (w.result.Success? <==> c.ok && DumpVersionMetadata(c.fs, now, git).ok)
    {
      var p := OutputPath(i, Some(version)).value;
      var d := serializer.dump(v);
      CommitSucceeds(t, p, d);
      if Commit(t, p, d).ok {
        assert Sound(d);
        CommitSuccess(t, p, d);
        var c := Commit(t, p, d).fs;
        DumpKeepsOutputs(c, i, version, now, git);
        var u := DumpVersionMetadata(c, now, git).fs;
        assert Within(p, p);
        SameWithinSubtree(c, u, p);
        assert EntryAt(u, p) == EntryAt(c, p);
        if Faithful(serializer) {
          CommitThenLoad(t, p, serializer, v);
        }
      } else {
        CommitFailureKeeps(t, p, d);
      }
    }

    /** A successful copy into the current version leaves its metadata file alone and its directory in place. */
    lemma CopyKeepsVersion(t: Tree, c: Tree, i: string)
      requires WellFormed(c) && VersionId().Success?
      requires IsDir(c, OutputPath(i, Some(VersionId().value)).value)
      requires ChangesOnlyUnder(t, c, OutputPath(i, Some(VersionId().value)).value)
      ensures var version := VersionId().value;
        var mp := VersionMetadataPath(version);
        && (mp in c <==> mp in t)
        && (mp in t ==> c[mp] == t[mp])
        && NoFileOnPath(c, FunctionPath() + ["versions", version])
    {
      var version := VersionId().value;
      var p := OutputPath(i, Some(version)).value;
      var dir := FunctionPath() + ["versions", version];
      var mp := VersionMetadataPath(version);
      assert p == dir + ["inputs", i, "outputs"];
      assert mp == dir + [MetadataFile];
      MetadataApartFromOutputs(i, version, version);
      ChangesSpare(t, c, p, mp);
      assert Within(dir, p);
      NoFileAbove(c, p, dir);
    }

    /**
     * Recording the version metadata on a tree that agrees with `t` on the
     * metadata file and has the version directory in place: an existing
     * record stays, a new one reads back as the record, and only a missing
     * git stops it.
     */
    lemma RecordOnto(t: Tree, c: Tree, now: string, git: GitProbe)
      requires WellFormed(c) && Lossless(codec) && VersionId().Success?
      requires var mp := VersionMetadataPath(VersionId().value);
        (mp in c <==> mp in t) && (mp in t ==> c[mp] == t[mp])
      requires NoFileOnPath(c, FunctionPath() + ["versions", VersionId().value])
      ensures var version := VersionId().value;
        var dir := FunctionPath() + ["versions", version];
        var d := DumpVersionMetadata(c, now, git);
        && (dir + [MetadataFile] in t ==> LoadVersionMetadata(d.fs, dir) == LoadVersionMetadata(t, dir))
        && (dir + [MetadataFile] !in t && d.ok ==> LoadVersionMetadata(d.fs, dir) == Success(VersionRecord(now, version, git)))
        && (dir + [MetadataFile] !in t ==> (d.ok <==> !git.GitMissing?))
    {
      var version := VersionId().value;
      var dir := FunctionPath() + ["versions", version];
      assert dir + [MetadataFile] == VersionMetadataPath(version);
      DumpVersionMetadataEffect(c, now, git);
    }

    /**
     * A write for the current version records that version's metadata once:
     * an existing record stays as it was, and a new one reads back as the
     * record of this write. After a successful copy into a fresh version,
     * only a missing git makes the write raise.
     */
    lemma WriteRecordsVersion(t: Tree, v: R, i: string, now: string, git: GitProbe)
      requires WellFormed(t) && Dumps(serializer) && Lossless(codec) && VersionId().Success?
      ensures var version := VersionId().value;
        var p := OutputPath(i, Some(version)).value;
        var dir := FunctionPath() + ["versions", version];
        var w := WriteToCache(t, v, p, now, git);
        && (dir + [MetadataFile] in t ==> LoadVersionMetadata(w.fs, dir) == LoadVersionMetadata(t, dir))
        && (dir + [MetadataFile] !in t && w.result.Success? ==>
              LoadVersionMetadata(w.fs, dir) == Success(VersionRecord(now, version, git)))
        && (dir + [MetadataFile] !in t && Commit(t, p, serializer.dump(v)).ok ==>
              (w.result.Success? <==> !git.GitMissing?))
    {
      var version := VersionId().value;
      var p := OutputPath(i, Some(version)).value;
      var d := serializer.dump(v);
      CommitSucceeds(t, p, d);
      if Commit(t, p, d).ok {
        assert Sound(d);
        CommitSuccess(t, p, d);
        var c := Commit(t, p, d).fs;
        CopyKeepsVersion(t, c, i);
        RecordOnto(t, c, now, git);
        assert WriteToCache(t, v, p, now, git).fs == DumpVersionMetadata(c, now, git).fs;
      } else {
        CommitFailureKeeps(t, p, d);
      }
    }

    // -------------------------------------------------------------------
    // Loading and calling

    /** load_from_inputs */
    function LoadFromInputs(t: Tree, a: A): Result<R, Error> {
      match PathFromInputs(a)
      case Failure(e) => Failure(e)
      case Success(p) => if p !in t then Failure(MissingResultException) else ReadFromCache(t, p)
    }

    /** load_from_ids */
    function LoadFromIds(t: Tree, inputId: string, versionId: Option<string>): Result<R, Error> {
      match OutputPath(inputId, versionId)
      case Failure(e) => Failure(e)
      case Success(p) => if p !in t then Failure(MissingResultException) else ReadFromCache(t, p)
    }

    /** Both loads raise MissingResultException when nothing is stored at the path, and otherwise load it. */
    lemma LoadOutcomes(t: Tree, a: A)
      requires PathFromInputs(a).Success?
      ensures var p := PathFromInputs(a).value;
        && (p !in t ==> LoadFromInputs(t, a) == Failure(MissingResultException))
        && (p in t ==> LoadFromInputs(t, a) == ReadFromCache(t, p))
        && LoadFromIds(t, InputId(a).value, None) == LoadFromInputs(t, a)
        && LoadFromIds(t, InputId(a).value, Some(VersionId().value)) == LoadFromInputs(t, a)
    {
    }

    /**
     * __call__, with the time and the git state a write would record. The
     * decision is the one of the first wrapper; only the write differs.
     */
    function Call(t: Tree, env: Controllers.Environment, flags: Flags, a: A, now: string, git: GitProbe): Called<R> {
      if CacheDisabled(env) then Called(fn(a), false, t)
      else
        match PathFromInputs(a)
        case Failure(_) => Called(fn(a), false, t)
        case Success(p) =>
          if flags.read == Some(true) && p in t && ReadFromCache(t, p).Success? then
            Called(ReadFromCache(t, p).value, true, t)
          else if flags.write == Some(true) then
            Called(fn(a), false, WriteToCache(t, fn(a), p, now, git).fs)
          else
            Called(fn(a), false, t)
    }

    /** With DISABLE_CACHEABLE set, or a hook that fails, the call is the plain function and the store is untouched. */
    lemma CallBypass(t: Tree, env: Controllers.Environment, flags: Flags, a: A, now: string, git: GitProbe)
      requires CacheDisabled(env) || PathFromInputs(a).Failure?
      ensures Call(t, env, flags, a, now, git) == Called(fn(a), false, t)
    {
    }

    /**
     * A call answers from the cache exactly when reading is on, a result is
     * stored at the path and it loads; then it returns what was loaded and
     * writes nothing. Any other call returns what the function returns, and
     * without writing on it changes nothing.
     */
    lemma CallHit(t: Tree, env: Controllers.Environment, flags: Flags, a: A, now: string, git: GitProbe)
      ensures Call(t, env, flags, a, now, git).hit <==>
        && !CacheDisabled(env)
        && PathFromInputs(a).Success?
        && flags.read == Some(true)
        && PathFromInputs(a).value in t
        && ReadFromCache(t, PathFromInputs(a).value).Success?
      ensures Call(t, env, flags, a, now, git).hit ==>
        Call(t, env, flags, a, now, git).result == ReadFromCache(t, PathFromInputs(a).value).value &&
        Call(t, env, flags, a, now, git).fs == t
      ensures !Call(t, env, flags, a, now, git).hit ==> Call(t, env, flags, a, now, git).result == fn(a)
      ensures flags.write != Some(true) ==> Call(t, env, flags, a, now, git).fs == t
    {
    }

    /**
     * Memoization: after a call whose copy succeeded, the same call is
     * answered from the cache with the function's result, whatever became
     * of the version metadata.
     */
    lemma CallMemoizes(t: Tree, env: Controllers.Environment, flags: Flags, a: A, now: string, git: GitProbe)
      requires WellFormed(t) && Dumps(serializer) && Faithful(serializer) && Lossless(codec)
      requires flags.read == Some(true) && flags.write == Some(true)
      requires !CacheDisabled(env) && PathFromInputs(a).Success?
      requires Commit(t, PathFromInputs(a).value, serializer.dump(fn(a))).ok
      requires !Call(t, env, flags, a, now, git).hit
      ensures var u := Call(t, env, flags, a, now, git).fs;
        Call(u, env, flags, a, now, git) == Called(fn(a), true, u)
    {
      var p := PathFromInputs(a).value;
      assert OutputPath(InputId(a).value, Some(VersionId().value)) == OutputPath(InputId(a).value, None);
      WriteToCacheOutput(t, fn(a), InputId(a).value, VersionId().value, now, git);
    }
  }

  /** One wrapped function: its configuration, the shared disk and its own read/write flags. */
  class CacheableFunction<A, !R(!new)> {
    const config: Config<A, R>
    const disk: Disk
    var read: Option<bool>
    var write: Option<bool>

    ghost predicate Valid()
      reads this, disk
    {
      disk.Valid() && Dumps(config.serializer) && Lossless(config.codec)
    }

    constructor (config: Config<A, R>, disk: Disk)
      requires disk.Valid() && Dumps(config.serializer) && Lossless(config.codec)
      ensures this.config == config && this.disk == disk
      ensures read == None && write == None && Valid()
    {
      this.config := config;
      this.disk := disk;
      read := None;
      write := None;
    }

    function Current(): Flags
      reads this
    {
      Flags(read, write)
    }

    /** Entering enable_cache: the most restrictive of the requested and the current flags. */
    method EnableCache(r: bool, w: bool) returns (saved: Flags)
      modifies this
      ensures Current() == Entered(MostRestrictive, old(Current()), r, w)
      ensures saved == old(Current())
    {
      saved := Flags(read, write);
      read := if read.Some? then Some(r && read.value) else Some(r);
      write := if write.Some? then Some(w && write.value) else Some(w);
    }

    /** Entering disable_cache, which is enable_cache(read=False, write=False). */
    method DisableCache() returns (saved: Flags)
      modifies this
      ensures Current() == Flags(Some(false), Some(false))
      ensures saved == old(Current())
    {
      saved := EnableCache(false, false);
    }

    /** Leaving either block, in `finally`: the flags saved on entry come back. */
    method Restore(saved: Flags)
      modifies this
      ensures Current() == saved
    {
      read, write := saved.read, saved.write;
    }

    method WriteToCache(v: R, p: Path, now: string, git: GitProbe) returns (r: Result<(), Error>)
      requires Valid() && p != []
      modifies disk
      ensures Valid()
      ensures Step(r, disk.fs) == config.WriteToCache(old(disk.fs), v, p, now, git)
    {
      var d := config.serializer.dump(v);
      assert Sound(d);
      CommitSucceeds(disk.fs, p, d);
      var c := Commit(disk.fs, p, d);
      if !c.ok {
        CommitFailureKeeps(disk.fs, p, d);
        return Failure(DumpException);
      }
      CommitSuccess(disk.fs, p, d);
      disk.fs := c.fs;
      if config.VersionId().Success? {
        config.DumpVersionMetadataEffect(disk.fs, now, git);
      }
      var m := config.DumpVersionMetadata(disk.fs, now, git);
      disk.fs := m.fs;
      r := if m.ok then Success(()) else Failure(DumpException);
    }

    /** __call__, step by step. */
    method Call(env: Controllers.Environment, a: A, now: string, git: GitProbe) returns (result: R, hit: bool)
      requires Valid()
      modifies disk
      ensures Valid()
      ensures Called(result, hit, disk.fs) == config.Call(old(disk.fs), env, Current(), a, now, git)
    {
      if CacheDisabled(env) {
        return config.fn(a), false;
      }
      var path := config.PathFromInputs(a);
      if path.Failure? {
        return config.fn(a), false;
      }
      var p := path.value;
      if read == Some(true) && p in disk.fs {
        var loaded := config.ReadFromCache(disk.fs, p);
        if loaded.Success? {
          return loaded.value, true;
        }
      }
      result, hit := config.fn(a), false;
      if write == Some(true) {
        var stored := WriteToCache(result, p, now, git);
      }
    }

    method LoadFromInputs(a: A) returns (r: Result<R, Error>)
      ensures r == config.LoadFromInputs(disk.fs, a)
    {
      var path := config.PathFromInputs(a);
      if path.Failure? {
        return Failure(path.error);
      }
      if path.value !in disk.fs {
        return Failure(MissingResultException);
      }
      r := config.ReadFromCache(disk.fs, path.value);
    }

    method LoadFromIds(inputId: string, versionId: Option<string>) returns (r: Result<R, Error>)
      ensures r == config.LoadFromIds(disk.fs, inputId, versionId)
    {
      var path := config.OutputPath(inputId, versionId);
      if path.Failure? {
        return Failure(path.error);
      }
      if path.value !in disk.fs {
        return Failure(MissingResultException);
      }
      r := config.ReadFromCache(disk.fs, path.value);
    }

    /** The metadata of the named versions, read one after the other; the first failure stops the reading. */
    method LoadVersions(names: seq<string>) returns (r: Result<seq<Metadata>, Error>)
      ensures r == config.LoadAll(disk.fs, names)
    {
      var versions: seq<Metadata> := [];
      var i := 0;
      while i < |names|
        invariant 0 <= i <= |names|
        invariant config.LoadAll(disk.fs, names[..i]) == Success(versions)
      {
        var m := config.LoadVersionMetadata(disk.fs, config.FunctionPath() + ["versions", names[i]]);
        config.LoadAllStep(disk.fs, names, i);
        if m.Failure? {
          return Failure(m.error);
        }
        versions := versions + [m.value];
        i := i + 1;
      }
      assert names[..|names|] == names;
      return Success(versions);
    }

    /**
     * get_versions: the metadata of every version directory, sorted by
     * `created_at`; `listed` is the order the directories were read in. A
     * version without a metadata file reads as an empty record, which has
     * no `created_at`, so the sort raises KeyError.
     */
    method GetVersions() returns (r: Result<seq<Metadata>, Error>, ghost listed: seq<string>)
      ensures forall n :: n in listed <==> IsDir(disk.fs, config.FunctionPath() + ["versions", n])
      ensures forall i, j :: 0 <= i < j < |listed| ==> listed[i] != listed[j]
      ensures config.LoadAll(disk.fs, listed).Failure? ==> r == Failure(config.LoadAll(disk.fs, listed).error)
      ensures config.LoadAll(disk.fs, listed).Success? ==>
        var ms := config.LoadAll(disk.fs, listed).value;
        && (r == Failure(KeyError) <==> exists i :: 0 <= i < |ms| && Ordering.CreatedAtKey !in ms[i])
        && (r == Failure(TypeError) <==>
              (forall i :: 0 <= i < |ms| ==> Ordering.CreatedAtKey in ms[i]) && |ms| >= 2 &&
              exists i :: 0 <= i < |ms| && !Ordering.HasTextKey(ms[i]))
        && (r.Success? ==> Ordering.Sorted(r.value) && multiset(r.value) == multiset(ms))
        && (r.Success? ==> forall k :: Ordering.WithKey(r.value, Ordering.CreatedAt, k) == Ordering.WithKey(ms, Ordering.CreatedAt, k))
    {
      var names := ListDirs(disk.fs, config.FunctionPath() + ["versions"]);
      assert forall n :: config.FunctionPath() + ["versions"] + [n] == config.FunctionPath() + ["versions", n];
      listed := names;
      var loaded := LoadVersions(names);
      if loaded.Failure? {
        return Failure(loaded.error), listed;
      }
      var versions := loaded.value;
      var sorted := Ordering.SortByCreatedAt(versions);
      if sorted.Success? {
        r := Success(sorted.value);
      } else if sorted.error == Ordering.KeyError {
        r := Failure(KeyError);
      } else {
        r := Failure(TypeError);
      }
    }
  }

  /** Entering the module-level enable_cache: every registered function enters its own block. */
  method EnableCache<A, R(!new)>(instances: set<CacheableFunction<A, R>>, r: bool, w: bool)
    returns (saved: map<CacheableFunction<A, R>, Flags>)
    modifies instances
    ensures saved.Keys == instances
    ensures forall f :: f in instances ==> saved[f] == old(f.Current())
    ensures forall f :: f in instances ==> f.Current() == Entered(MostRestrictive, saved[f], r, w)
  {
    saved := map[];
    var rest := instances;
    while rest != {}
      invariant rest <= instances
      invariant saved.Keys == instances - rest
      invariant forall f :: f in instances - rest ==> saved[f] == old(f.Current())
      invariant forall f :: f in instances - rest ==> f.Current() == Entered(MostRestrictive, saved[f], r, w)
      invariant forall f :: f in rest ==> f.Current() == old(f.Current())
      decreases rest
    {
      var f :| f in rest;
      var s := f.EnableCache(r, w);
      saved := saved[f := s];
      rest := rest - {f};
    }
  }

  /** Entering the module-level disable_cache. */
  method DisableCache<A, R(!new)>(instances: set<CacheableFunction<A, R>>)
    returns (saved: map<CacheableFunction<A, R>, Flags>)
    modifies instances
    ensures saved.Keys == instances
    ensures forall f :: f in instances ==> saved[f] == old(f.Current())
    ensures forall f :: f in instances ==> f.Current() == Flags(Some(false), Some(false))
  {
    saved := EnableCache(instances, false, false);
  }

  /** Leaving either module-level block: every registered function gets back the flags it had on entry. */
  method RestoreAll<A, R(!new)>(instances: set<CacheableFunction<A, R>>, saved: map<CacheableFunction<A, R>, Flags>)
    requires instances <= saved.Keys
    modifies instances
    ensures forall f :: f in instances ==> f.Current() == saved[f]
  {
    var rest := instances;
    while rest != {}
      invariant rest <= instances
      invariant forall f :: f in instances - rest ==> f.Current() == saved[f]
      decreases rest
    {
      var f :| f in rest;
      f.Restore(saved[f]);
      rest := rest - {f};
    }
  }
}
