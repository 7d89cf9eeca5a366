/**
 * The versioned disk backend:
 *   <base>/functions/<function_id>/versions/<version_id>/metadata.json
 *   <base>/functions/<function_id>/versions/<version_id>/inputs/<input_id>/output/...
 * Version metadata is written once, by the first writer; an output is a
 * directory of whatever files the serializer dumps.
 */
module BackendsDisk {
  import opened Wrappers
  import opened FileSystem
  import opened Keys
  import opened Documents
  import opened Staging
  import Ordering

  /** The exceptions the backend's operations raise. */
  datatype Error = LoadException | DumpException | OSError | JSONDecodeError | KeyError | TypeError

  const MetadataFile := "metadata.json"
  const OutputLeaf := "output"

  datatype Store<!R(!new)> = Store(base: Path, codec: Codec, serializer: Serializer<R>)
  {
    function FunctionsPath(): Path {
      base + ["functions"]
    }

    function FunctionPath(f: FunctionKey): Path {
      FunctionsPath() + [f.functionId]
    }

    function VersionsPath(f: FunctionKey): Path {
      FunctionPath(f) + ["versions"]
    }

    function VersionPath(v: VersionKey): Path {
      VersionsPath(v.ToFunctionKey()) + [v.versionId]
    }

    function VersionMetadataPath(v: VersionKey): Path {
      VersionPath(v) + [MetadataFile]
    }

    function InputsPath(v: VersionKey): Path {
      VersionPath(v) + ["inputs"]
    }

    function InputPath(k: InputKey): Path {
      InputsPath(k.ToVersionKey()) + [k.inputId]
    }

    function InputMetadataPath(k: InputKey): Path {
      InputPath(k) + [MetadataFile]
    }

    function OutputPath(k: InputKey): Path {
      InputPath(k) + [OutputLeaf]
    }

    /** The layout written out component by component. */
    lemma Layout(k: InputKey)
      ensures OutputPath(k) == base + ["functions", k.functionId, "versions", k.versionId, "inputs", k.inputId, "output"]
      ensures VersionMetadataPath(k.ToVersionKey()) == base + ["functions", k.functionId, "versions", k.versionId, "metadata.json"]
      ensures InputMetadataPath(k) == base + ["functions", k.functionId, "versions", k.versionId, "inputs", k.inputId, "metadata.json"]
    {
    }

    /** Distinct input keys have distinct output directories, neither inside the other. */
    lemma OutputPathsDistinct(k: InputKey, j: InputKey)
      ensures OutputPath(k) == OutputPath(j) <==> k == j
      ensures k != j ==> !Within(OutputPath(k), OutputPath(j))
    {
      var n := |base|;
      if OutputPath(k) == OutputPath(j) {
        assert OutputPath(k)[n + 1] == k.functionId && OutputPath(j)[n + 1] == j.functionId;
        assert OutputPath(k)[n + 3] == k.versionId && OutputPath(j)[n + 3] == j.versionId;
        assert OutputPath(k)[n + 5] == k.inputId && OutputPath(j)[n + 5] == j.inputId;
      }
    }

    /** No version metadata file lies inside an output directory, and no output directory inside one. */
    lemma MetadataApartFromOutputs(v: VersionKey, k: InputKey)
      ensures !Within(OutputPath(k), VersionMetadataPath(v))
      ensures !Within(VersionMetadataPath(v), OutputPath(k))
    {
      var n := |base|;
      assert VersionMetadataPath(v)[n + 4] == MetadataFile;
      assert OutputPath(k)[n + 4] == "inputs";
    }

    // -------------------------------------------------------------------
    // Version metadata

    /** read_version_metadata: json.load of the version's metadata file. */
    function ReadVersionMetadata(t: Tree, v: VersionKey): (r: Result<Metadata, Error>)
      ensures r.Success? ==> IsFile(t, VersionMetadataPath(v))
      ensures r.Failure? ==> r.error in {OSError, JSONDecodeError}
    {
      match ReadFile(t, VersionMetadataPath(v))
      case None => Failure(OSError)
      case Some(bytes) =>
        match codec.decode(bytes)
        case None => Failure(JSONDecodeError)
        case Some(m) => Success(m)
    }

    /** write_version_metadata: only when nothing exists at the metadata path yet. */
    function WriteVersionMetadata(t: Tree, v: VersionKey, m: Metadata): Step<(), Error> {
      if VersionMetadataPath(v) in t then Step(Success(()), t)
      else if !NoFileOnPath(t, VersionPath(v)) then Step(Failure(OSError), t)
      else
        var made := MakeDirs(t, VersionPath(v));
        match WriteFile(made, VersionMetadataPath(v), codec.encode(m))
        case None => Step(Failure(OSError), made)
        case Some(u) => Step(Success(()), u)
    }

    /** The write fails only when a file blocks the version directory; failing, it changes nothing. */
    lemma WriteVersionMetadataSucceeds(t: Tree, v: VersionKey, m: Metadata)
      requires WellFormed(t)
      ensures WriteVersionMetadata(t, v, m).result.Success? <==>
        VersionMetadataPath(v) in t || NoFileOnPath(t, VersionPath(v))
      ensures WriteVersionMetadata(t, v, m).result.Failure? ==> WriteVersionMetadata(t, v, m).fs == t
      ensures VersionMetadataPath(v) in t ==> WriteVersionMetadata(t, v, m).fs == t
    {
      var vp := VersionPath(v);
      if VersionMetadataPath(v) !in t && NoFileOnPath(t, vp) {
        MakeDirsEffect(t, vp);
        PrefixesBound(vp);
        assert Parent(VersionMetadataPath(v)) == vp;
        assert VersionMetadataPath(v) !in Prefixes(vp);
      }
    }

    /** A first write stores the metadata where read_version_metadata finds it, and changes nothing else but the directories above it. */
    lemma WriteVersionMetadataEffect(t: Tree, v: VersionKey, m: Metadata)
      requires WellFormed(t) && Lossless(codec)
      requires VersionMetadataPath(v) !in t && NoFileOnPath(t, VersionPath(v))
      ensures WellFormed(WriteVersionMetadata(t, v, m).fs)
      ensures ReadVersionMetadata(WriteVersionMetadata(t, v, m).fs, v) == Success(m)
      ensures ChangesOnlyUnder(t, WriteVersionMetadata(t, v, m).fs, VersionMetadataPath(v))
    {
      var vp := VersionPath(v);
      var mp := VersionMetadataPath(v);
      WriteVersionMetadataSucceeds(t, v, m);
      MakeDirsEffect(t, vp);
      MakeDirsChanges(t, vp, mp);
      var made := MakeDirs(t, vp);
      assert Parent(mp) == vp;
      WriteFileEffect(made, mp, codec.encode(m));
      assert Within(mp, mp);
      ChangesCompose(t, made, WriteVersionMetadata(t, v, m).fs, mp);
    }

    /** First writer wins: a later write with other metadata leaves the stored version as the first one wrote it. */
    lemma FirstWriterWins(t: Tree, v: VersionKey, first: Metadata, second: Metadata)
      requires WellFormed(t) && Lossless(codec)
      requires WriteVersionMetadata(t, v, first).result.Success?
      requires VersionMetadataPath(v) !in t
      ensures var u := WriteVersionMetadata(t, v, first).fs;
        && WriteVersionMetadata(u, v, second) == Step(Success(()), u)
        && ReadVersionMetadata(WriteVersionMetadata(u, v, second).fs, v) == Success(first)
    {
      WriteVersionMetadataSucceeds(t, v, first);
      WriteVersionMetadataEffect(t, v, first);
    }

    /** The metadata of each listed version, in listing order; the first failed read raises. */
    function ReadAll(t: Tree, vs: seq<VersionKey>): (r: Result<seq<Metadata>, Error>)
      ensures r.Success? ==> |r.value| == |vs|
      ensures r.Success? ==> forall i :: 0 <= i < |vs| ==> ReadVersionMetadata(t, vs[i]) == Success(r.value[i])
      ensures r.Failure? <==> exists i :: 0 <= i < |vs| && ReadVersionMetadata(t, vs[i]).Failure?
      ensures r.Failure? ==> exists i :: 0 <= i < |vs| && ReadVersionMetadata(t, vs[i]) == Failure(r.error)
    {
      if vs == [] then Success([])
      else
        match ReadVersionMetadata(t, vs[0])
        case Failure(e) => Failure(e)
        case Success(m) =>
          match ReadAll(t, vs[1..])
          case Failure(e) =>
            Failure(e)
          case Success(ms) =>
            assert forall i :: 1 <= i < |vs| ==> vs[i] == vs[1..][i - 1];
            Success([m] + ms)
    }

    /** Reading one more version extends a successful listing by that version's metadata, or fails with its error. */
    lemma {:induction false} ReadAllAppend(t: Tree, vs: seq<VersionKey>, v: VersionKey)
      requires ReadAll(t, vs).Success?
      ensures ReadAll(t, vs + [v]) ==
        match ReadVersionMetadata(t, v)
        case Failure(e) => Failure(e)
        case Success(m) => Success(ReadAll(t, vs).value + [m])
    {
      if vs == [] {
        assert vs + [v] == [v] && [v][1..] == [];
        if ReadVersionMetadata(t, v).Success? {
          var m := ReadVersionMetadata(t, v).value;
          assert ReadAll(t, [v]) == Success([m] + []);
          assert [m] + [] == [] + [m];
        }
      } else {
        var w := vs + [v];
        assert w[0] == vs[0] && w[1..] == vs[1..] + [v];
        var m0 := ReadVersionMetadata(t, vs[0]).value;
        ReadAllAppend(t, vs[1..], v);
        var rest := ReadAll(t, vs[1..]).value;
        assert ReadAll(t, vs).value == [m0] + rest;
        if ReadVersionMetadata(t, v).Success? {
          var m := ReadVersionMetadata(t, v).value;
          assert ReadAll(t, w) == Success([m0] + (rest + [m]));
          assert [m0] + (rest + [m]) == ([m0] + rest) + [m];
        }
      }
    }

    /** Once a prefix of the listing fails, the whole listing fails with the same error. */
    lemma {:induction false} ReadAllPrefixFails(t: Tree, vs: seq<VersionKey>, rest: seq<VersionKey>)
      requires ReadAll(t, vs).Failure?
      ensures ReadAll(t, vs + rest) == ReadAll(t, vs)
    {
      assert vs != [];
      assert (vs + rest)[0] == vs[0];
      if ReadVersionMetadata(t, vs[0]).Success? {
        assert (vs + rest)[1..] == vs[1..] + rest;
        ReadAllPrefixFails(t, vs[1..], rest);
      }
    }

    /** Reading the listing one version at a time: the next version extends the prefix read so far, or its failure is the listing's. */
    lemma ReadAllStep(t: Tree, vs: seq<VersionKey>, i: nat)
      requires i < |vs| && ReadAll(t, vs[..i]).Success?
      ensures ReadVersionMetadata(t, vs[i]).Success? ==>
        ReadAll(t, vs[..i + 1]) == Success(ReadAll(t, vs[..i]).value + [ReadVersionMetadata(t, vs[i]).value])
      ensures ReadVersionMetadata(t, vs[i]).Failure? ==> ReadAll(t, vs) == Failure(ReadVersionMetadata(t, vs[i]).error)
    {
      assert vs[..i + 1] == vs[..i] + [vs[i]];
      ReadAllAppend(t, vs[..i], vs[i]);
      if ReadVersionMetadata(t, vs[i]).Failure? {
        ReadAllPrefixFails(t, vs[..i + 1], vs[i + 1..]);
        assert vs[..i + 1] + vs[i + 1..] == vs;
      }
    }

    // -------------------------------------------------------------------
    // Outputs

    /** output_exists: the output path is a directory. */
    predicate OutputExists(t: Tree, k: InputKey) {
      IsDir(t, OutputPath(k))
    }

    /** read_output: any failure of the serializer's load surfaces as LoadException. */
    function ReadOutput(t: Tree, k: InputKey): (r: Result<R, Error>)
      ensures r.Failure? ==> r.error == LoadException
      ensures r.Success? <==> serializer.load(EntryAt(t, OutputPath(k))).Some?
    {
      match serializer.load(EntryAt(t, OutputPath(k)))
      case None => Failure(LoadException)
      case Some(o) => Success(o)
    }

    /** write_output: dump to a temporary directory, check it, then replace the output directory. */
    function WriteOutput(t: Tree, o: R, k: InputKey): (r: Step<(), Error>)
      ensures r.result.Failure? ==> r.result.error == DumpException
    {
      var c := Commit(t, OutputPath(k), serializer.dump(o));
      Step(if c.ok then Success(()) else Failure(DumpException), c.fs)
    }

    /** A failed write_output leaves the previous output, and everything else, untouched. */
    lemma WriteOutputFailure(t: Tree, o: R, k: InputKey)
      requires WellFormed(t)
      ensures WriteOutput(t, o, k).result.Failure? <==>
        serializer.dump(o).Raised? || serializer.dump(o).files == map[] ||
        !NoFileOnPath(t, InputPath(k)) || IsFile(t, OutputPath(k))
      ensures WriteOutput(t, o, k).result.Failure? ==> WriteOutput(t, o, k).fs == t
    {
      assert Parent(OutputPath(k)) == InputPath(k);
      CommitSucceeds(t, OutputPath(k), serializer.dump(o));
      if !Commit(t, OutputPath(k), serializer.dump(o)).ok {
        CommitFailureKeeps(t, OutputPath(k), serializer.dump(o));
      }
    }

    /**
     * A successful write_output leaves an output directory holding exactly
     * the dumped files, which read_output loads back, and changes nothing
     * outside that directory except by creating the directories above it.
     */
    lemma WriteOutputEffect(t: Tree, o: R, k: InputKey)
      requires WellFormed(t) && Dumps(serializer)
      requires WriteOutput(t, o, k).result.Success?
      ensures WellFormed(WriteOutput(t, o, k).fs)
      ensures OutputExists(WriteOutput(t, o, k).fs, k)
      ensures Subtree(WriteOutput(t, o, k).fs, OutputPath(k)) == serializer.dump(o).files
      ensures Faithful(serializer) ==> ReadOutput(WriteOutput(t, o, k).fs, k) == Success(o)
      ensures ChangesOnlyUnder(t, WriteOutput(t, o, k).fs, OutputPath(k))
    {
      assert Sound(serializer.dump(o));
      CommitSuccess(t, OutputPath(k), serializer.dump(o));
      if Faithful(serializer) {
        CommitThenLoad(t, OutputPath(k), serializer, o);
      }
    }

    /** Writing one output leaves every other input's output and every version's metadata as they were. */
    lemma WriteOutputKeepsOthers(t: Tree, o: R, k: InputKey, j: InputKey, v: VersionKey)
      requires WellFormed(t) && Dumps(serializer) && k != j
      ensures SameWithin(t, WriteOutput(t, o, k).fs, OutputPath(j))
      ensures SameWithin(t, WriteOutput(t, o, k).fs, VersionMetadataPath(v))
    {
      var u := WriteOutput(t, o, k).fs;
      WriteOutputFailure(t, o, k);
      if WriteOutput(t, o, k).result.Success? {
        WriteOutputEffect(t, o, k);
        OutputPathsDistinct(k, j);
        OutputPathsDistinct(j, k);
        ChangesElsewhere(t, u, OutputPath(k), OutputPath(j));
        MetadataApartFromOutputs(v, k);
        ChangesElsewhere(t, u, OutputPath(k), VersionMetadataPath(v));
      }
    }
  }

  /** The backend object: the layout and serializer over the shared disk. */
  class DiskBackend<!R(!new)> {
    const store: Store<R>
    const disk: Disk

    ghost predicate Valid()
      reads this, disk
    {
      disk.Valid() && Lossless(store.codec) && Dumps(store.serializer)
    }

    constructor (store: Store<R>, disk: Disk)
      requires disk.Valid() && Lossless(store.codec) && Dumps(store.serializer)
      ensures this.store == store && this.disk == disk && Valid()
    {
      this.store := store;
      this.disk := disk;
    }

    /** list_version_keys: one key per directory under the function's `versions` folder. */
    method ListVersionKeys(f: FunctionKey) returns (keys: seq<VersionKey>)
      ensures forall v :: v in keys <==> v.functionId == f.functionId && IsDir(disk.fs, store.VersionPath(v))
      ensures forall i, j :: 0 <= i < j < |keys| ==> keys[i] != keys[j]
    {
      var names := ListDirs(disk.fs, store.VersionsPath(f));
      keys := [];
      var i := 0;
      while i < |names|
        invariant 0 <= i <= |names|
        invariant |keys| == i
        invariant forall j :: 0 <= j < i ==> keys[j] == VersionKey(f.functionId, names[j])
      {
        keys := keys + [VersionKey(f.functionId, names[i])];
        i := i + 1;
      }
      forall v | v in keys
        ensures v.functionId == f.functionId && IsDir(disk.fs, store.VersionPath(v))
      {
        var j :| 0 <= j < |keys| && keys[j] == v;
        assert names[j] in names;
      }
      forall v: VersionKey | v.functionId == f.functionId && IsDir(disk.fs, store.VersionPath(v))
        ensures v in keys
      {
        assert v.ToFunctionKey() == f;
        assert v.versionId in names;
        var j :| 0 <= j < |names| && names[j] == v.versionId;
        assert keys[j] == v;
      }
    }

    /** The metadata of the given versions, read one after the other; the first failure stops the reading. */
    method ReadVersions(keys: seq<VersionKey>) returns (r: Result<seq<Metadata>, Error>)
      ensures r == store.ReadAll(disk.fs, keys)
    {
      var versions: seq<Metadata> := [];
      var i := 0;
      while i < |keys|
        invariant 0 <= i <= |keys|
        invariant store.ReadAll(disk.fs, keys[..i]) == Success(versions)
      {
        var m := store.ReadVersionMetadata(disk.fs, keys[i]);
        store.ReadAllStep(disk.fs, keys, i);
        if m.Failure? {
          return Failure(m.error);
        }
        versions := versions + [m.value];
        i := i + 1;
      }
      assert keys[..|keys|] == keys;
      return Success(versions);
    }

    /**
     * list_versions: the metadata of every listed version, sorted by
     * `created_at`; `listed` is the listing the metadata was read in.
     */
    method ListVersions(f: FunctionKey) returns (r: Result<seq<Metadata>, Error>, ghost listed: seq<VersionKey>)
      ensures forall v :: v in listed <==> v.functionId == f.functionId && IsDir(disk.fs, store.VersionPath(v))
      ensures forall i, j :: 0 <= i < j < |listed| ==> listed[i] != listed[j]
      ensures store.ReadAll(disk.fs, listed).Failure? ==> r == Failure(store.ReadAll(disk.fs, listed).error)
      ensures r.Success? ==> store.ReadAll(disk.fs, listed).Success?
      ensures store.ReadAll(disk.fs, listed).Success? ==>
        var ms := store.ReadAll(disk.fs, listed).value;
        && (r == Failure(KeyError) <==> exists i :: 0 <= i < |ms| && Ordering.CreatedAtKey !in ms[i])
        && (r == Failure(TypeError) <==>
              (forall i :: 0 <= i < |ms| ==> Ordering.CreatedAtKey in ms[i]) && |ms| >= 2 &&
              exists i :: 0 <= i < |ms| && !Ordering.HasTextKey(ms[i]))
        && (r.Success? ==> Ordering.Sorted(r.value) && multiset(r.value) == multiset(ms))
        && (r.Success? ==> forall k :: Ordering.WithKey(r.value, Ordering.CreatedAt, k) == Ordering.WithKey(ms, Ordering.CreatedAt, k))
    {
      var keys := ListVersionKeys(f);
      listed := keys;
      var read := ReadVersions(keys);
      if read.Failure? {
        return Failure(read.error), listed;
      }
      var versions := read.value;
      var sorted := Ordering.SortByCreatedAt(versions);
      if sorted.Success? {
        r := Success(sorted.value);
      } else if sorted.error == Ordering.KeyError {
        r := Failure(KeyError);
      } else {
        r := Failure(TypeError);
      }
    }

    /** write_version_metadata on the shared disk. */
    method WriteVersionMetadata(v: VersionKey, m: Metadata) returns (r: Result<(), Error>)
      requires Valid()
      modifies disk
      ensures Valid()
      ensures Step(r, disk.fs) == store.WriteVersionMetadata(old(disk.fs), v, m)
    {
      var s := store.WriteVersionMetadata(disk.fs, v, m);
      if store.VersionMetadataPath(v) !in disk.fs && NoFileOnPath(disk.fs, store.VersionPath(v)) {
        store.WriteVersionMetadataEffect(disk.fs, v, m);
      } else {
        store.WriteVersionMetadataSucceeds(disk.fs, v, m);
      }
      disk.fs := s.fs;
      r := s.result;
    }

    method ReadVersionMetadata(v: VersionKey) returns (r: Result<Metadata, Error>)
      ensures r == store.ReadVersionMetadata(disk.fs, v)
    {
      r := store.ReadVersionMetadata(disk.fs, v);
    }

    method OutputExists(k: InputKey) returns (b: bool)
      ensures b <==> store.OutputExists(disk.fs, k)
    {
      b := store.OutputExists(disk.fs, k);
    }

    method ReadOutput(k: InputKey) returns (r: Result<R, Error>)
      ensures r == store.ReadOutput(disk.fs, k)
    {
      r := store.ReadOutput(disk.fs, k);
    }

    method WriteOutput(o: R, k: InputKey) returns (r: Result<(), Error>)
      requires Valid()
      modifies disk
      ensures Valid()
      ensures Step(r, disk.fs) == store.WriteOutput(old(disk.fs), o, k)
    {
      var s := store.WriteOutput(disk.fs, o, k);
      store.WriteOutputFailure(disk.fs, o, k);
      if s.result.Success? {
        store.WriteOutputEffect(disk.fs, o, k);
      }
      disk.fs := s.fs;
      r := s.result;
    }
  }
}
