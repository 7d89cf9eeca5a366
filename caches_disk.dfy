/**
 * The disk cache: one directory per function, one directory per stored
 * input of that function, holding the input's metadata document and the
 * serialized output.
 *
 *   <base>/functions/<function_id>/inputs/<input_id>/metadata.json
 *   <base>/functions/<function_id>/inputs/<input_id>/<output_id>.<extension>
 *
 * `Store` gives each operation as a function of the filesystem before it
 * (with the filesystem after it for the operations that write); the class
 * `DiskCache` performs the same steps on the shared `Disk`.
 */
module CachesDisk {
  import opened Wrappers
  import opened FileSystem
  import opened Keys
  import opened Documents

  /** The exceptions the store operations raise. */
  datatype Error =
    | InputKeyNotFound  // get_output_path on a key that is not stored
    | ReadException     // any failure of read_output
    | WriteException    // any failure of write_output
    | OSError           // a failed open, mkdir, copytree or scandir
    | JSONDecodeError   // a metadata file that is not a JSON object (or not UTF-8 text)
    | KeyError          // metadata without the entries an output path needs
    | AttributeError    // a `serializer` entry that is not an object

  const MetadataFile := "metadata.json"
  const DefaultExtension := "bin"

  /**
   * `<output_id>.<extension>`: the metadata must have an `output_id` and a
   * `serializer` object; the extension defaults to "bin".
   */
  function OutputName(m: Metadata): (r: Option<string>)
    ensures r.Some? <==>
      && "serializer" in m && m["serializer"].Table?
      && ("extension" in m["serializer"].entries ==> !m["serializer"].entries["extension"].Table?)
      && "output_id" in m && !m["output_id"].Table?
    ensures r.Some? && "extension" !in m["serializer"].entries ==>
      r.value == Render(m["output_id"]).value + "." + DefaultExtension
  {
    if "serializer" !in m || !m["serializer"].Table? then None
    else
      var serializer := m["serializer"].entries;
      var extension := if "extension" in serializer then Render(serializer["extension"]) else Some(DefaultExtension);
      if extension.None? || "output_id" !in m then None
      else
        match Render(m["output_id"])
        case None => None
        case Some(id) => Some(id + "." + extension.value)
  }

  /** A stored extension is rendered after the output id and a dot. */
  lemma OutputNameWithExtension(m: Metadata)
    requires OutputName(m).Some? && "extension" in m["serializer"].entries
    ensures OutputName(m).value ==
      Render(m["output_id"]).value + "." + Render(m["serializer"].entries["extension"]).value
  {
  }

  /** The file name depends on the `output_id` and `serializer` entries only. */
  lemma OutputNameIgnoresOthers(m: Metadata, key: string, v: Value)
    requires key != "serializer" && key != "output_id"
    ensures OutputName(m[key := v]) == OutputName(m)
  {
    var stamped := m[key := v];
    assert "serializer" in stamped <==> "serializer" in m;
    assert "output_id" in stamped <==> "output_id" in m;
    if "serializer" in m {
      assert stamped["serializer"] == m["serializer"];
    }
    if "output_id" in m {
      assert stamped["output_id"] == m["output_id"];
    }
  }

  datatype Store = Store(base: Path, codec: Codec)
  {
    function FunctionsPath(): Path {
      base + ["functions"]
    }

    function FunctionPath(f: FunctionKey): Path {
      FunctionsPath() + [f.functionId]
    }

    function InputsPath(f: FunctionKey): Path {
      FunctionPath(f) + ["inputs"]
    }

    function InputPath(k: CacheKey): Path {
      InputsPath(k.ToFunctionKey()) + [k.inputId]
    }

    function MetadataPath(k: CacheKey): Path {
      InputPath(k) + [MetadataFile]
    }

    function OutputPath(k: CacheKey, m: Metadata): Option<Path> {
      match OutputName(m)
      case None => None
      case Some(name) => Some(InputPath(k) + [name])
    }

    /** The layout the path builders compose to. */
    lemma Layout(k: CacheKey, m: Metadata)
      ensures InputPath(k) == base + ["functions", k.functionId, "inputs", k.inputId]
      ensures MetadataPath(k) == base + ["functions", k.functionId, "inputs", k.inputId, "metadata.json"]
      ensures OutputName(m).Some? ==>
        OutputPath(k, m) == Some(base + ["functions", k.functionId, "inputs", k.inputId, OutputName(m).value])
      ensures OutputName(m).None? ==> OutputPath(k, m).None?
    {
      assert InputPath(k) == base + ["functions"] + [k.functionId] + ["inputs"] + [k.inputId];
      if OutputName(m).Some? {
        assert InputPath(k) + [OutputName(m).value] == base + ["functions", k.functionId, "inputs", k.inputId, OutputName(m).value];
      }
    }

    /** Each stored input lies inside the directory of its own function. */
    lemma InputInsideFunction(k: CacheKey)
      ensures Within(FunctionPath(k.ToFunctionKey()), InputPath(k))
      ensures Within(InputsPath(k.ToFunctionKey()), InputPath(k))
    {
    }

    /** The directories of two different functions are disjoint. */
    lemma FunctionsDisjoint(f: FunctionKey, g: FunctionKey)
      requires f != g
      ensures !Within(FunctionPath(f), FunctionPath(g))
      ensures forall p :: Within(FunctionPath(g), p) ==> !Within(FunctionPath(f), p)
    {
      assert FunctionPath(f)[|base| + 1] == f.functionId;
      assert FunctionPath(g)[|base| + 1] == g.functionId;
      forall p | Within(FunctionPath(g), p)
        ensures !Within(FunctionPath(f), p)
      {
        assert p[|base| + 1] == g.functionId;
      }
    }

    /** The directories of two different input keys are disjoint, and neither lies on the way to the other. */
    lemma InputsDisjoint(k: CacheKey, j: CacheKey)
      requires k != j
      ensures forall p :: Within(InputPath(j), p) ==> !Within(InputPath(k), p)
      ensures forall p :: Within(InputPath(j), p) ==> p !in Prefixes(InputPath(k))
    {
      var n := |base|;
      assert InputPath(k)[n + 1] == k.functionId && InputPath(k)[n + 3] == k.inputId;
      assert InputPath(j)[n + 1] == j.functionId && InputPath(j)[n + 3] == j.inputId;
      forall p | Within(InputPath(j), p)
        ensures !Within(InputPath(k), p) && p !in Prefixes(InputPath(k))
      {
        assert p[n + 1] == j.functionId && p[n + 3] == j.inputId;
      }
    }

    /** exists: the input's directory is there. */
    predicate Exists(t: Tree, k: CacheKey) {
      IsDir(t, InputPath(k))
    }

    /** The keys list returns: one per directory inside the function's `inputs` folder. */
    function Listed(t: Tree, f: FunctionKey): (keys: set<CacheKey>)
      ensures forall k :: k in keys <==> k.functionId == f.functionId && Exists(t, k)
    {
      set n | n in ChildDirs(t, InputsPath(f)) :: CacheKey(f.functionId, n)
    }

    /** evict: rmtree of the input directory, ignoring errors. */
    function Evict(t: Tree, k: CacheKey): Tree {
      RemoveTree(t, InputPath(k))
    }

    /** clear: rmtree of the function directory, ignoring errors. */
    function Clear(t: Tree, f: FunctionKey): Tree {
      RemoveTree(t, FunctionPath(f))
    }

    /**
     * adopt: copytree with dirs_exist_ok from one function directory onto
     * another, then rmtree of the source. copytree raises when the source
     * is not a directory or a file blocks the target; it raises after
     * copying everything else when a directory meets a file or a file
     * cannot be put inside the directory it meets, and, when both keys
     * are the same, when it meets any file.
     */
    function Adopt(t: Tree, from: FunctionKey, to: FunctionKey): Step<(), Error> {
      var src := FunctionPath(from);
      var dst := FunctionPath(to);
      if from == to then
        if !IsDir(t, src) || HasFileWithin(t, src) then Step(Failure(OSError), t)
        else Step(Success(()), RemoveTree(t, src))
      else
        var copy := CopyTree(t, src, dst);
        if !copy.ok then Step(Failure(OSError), copy.tree)
        else Step(Success(()), RemoveTree(copy.tree, src))
    }

    /** load_metadata: open and json.load. */
    function LoadMetadata(t: Tree, k: CacheKey): (r: Result<Metadata, Error>)
      ensures r.Success? ==> IsFile(t, MetadataPath(k))
      ensures r.Failure? ==> r.error in {OSError, JSONDecodeError}
    {
      match ReadFile(t, MetadataPath(k))
      case None => Failure(OSError)
      case Some(bytes) =>
        match codec.decode(bytes)
        case None => Failure(JSONDecodeError)
        case Some(m) => Success(m)
    }

    /** dump_metadata: mkdir of the input directory, then open for writing and json.dump. */
    function DumpMetadata(t: Tree, m: Metadata, k: CacheKey): (r: Step<(), Error>)
      ensures r.result.Failure? ==> r.result.error == OSError
    {
      if !NoFileOnPath(t, InputPath(k)) then Step(Failure(OSError), t)
      else
        var made := MakeDirs(t, InputPath(k));
        match WriteFile(made, MetadataPath(k), codec.encode(m))
        case None => Step(Failure(OSError), made)
        case Some(u) => Step(Success(()), u)
    }

    /** read_output: every failure, including a malformed metadata, surfaces as ReadException. */
    function ReadOutput(t: Tree, m: Metadata, k: CacheKey): (r: Result<Bytes, Error>)
      ensures r.Failure? ==> r.error == ReadException
      ensures r.Success? <==> OutputPath(k, m).Some? && IsFile(t, OutputPath(k, m).value)
    {
      match OutputPath(k, m)
      case None => Failure(ReadException)
      case Some(p) =>
        match ReadFile(t, p)
        case None => Failure(ReadException)
        case Some(bytes) => Success(bytes)
    }

    /** write_output: mkdir of the input directory, then open for writing; every failure is a WriteException. */
    function WriteOutput(t: Tree, b: Bytes, m: Metadata, k: CacheKey): (r: Step<(), Error>)
      ensures r.result.Failure? ==> r.result.error == WriteException
    {
      match OutputPath(k, m)
      case None => Step(Failure(WriteException), t)
      case Some(p) =>
        if !NoFileOnPath(t, InputPath(k)) then Step(Failure(WriteException), t)
        else
          var made := MakeDirs(t, InputPath(k));
          match WriteFile(made, p, b)
          case None => Step(Failure(WriteException), made)
          case Some(u) => Step(Success(()), u)
    }

    /** update_last_accessed: load the metadata, stamp it, dump it back. */
    function UpdateLastAccessed(t: Tree, k: CacheKey, now: string): Step<(), Error> {
      match LoadMetadata(t, k)
      case Failure(e) => Step(Failure(e), t)
      case Success(m) => DumpMetadata(t, m["last_accessed" := Text(now)], k)
    }

    /** get_last_accessed: the stored stamp, or nothing when none is stored. */
    function GetLastAccessed(t: Tree, k: CacheKey): (r: Result<Option<Value>, Error>)
      ensures r.Success? ==> LoadMetadata(t, k).Success?
      ensures r.Success? ==> (r.value.None? <==> "last_accessed" !in LoadMetadata(t, k).value)
    {
      match LoadMetadata(t, k)
      case Failure(e) => Failure(e)
      case Success(m) => if "last_accessed" in m then Success(Some(m["last_accessed"])) else Success(None)
    }

    /**
     * get_output_path: the stored key's output file, named by its own
     * metadata. Looking up a missing `serializer` or `output_id` raises
     * KeyError; calling `.get` on a `serializer` that is not an object
     * raises AttributeError.
     */
    function GetOutputPath(t: Tree, k: CacheKey): (r: Result<Path, Error>)
      ensures !Exists(t, k) <==> r == Failure(InputKeyNotFound)
      ensures Exists(t, k) && LoadMetadata(t, k).Failure? ==> r == Failure(LoadMetadata(t, k).error)
      ensures Exists(t, k) && LoadMetadata(t, k).Success? ==>
        var m := LoadMetadata(t, k).value;
        && ("serializer" !in m ==> r == Failure(KeyError))
        && (r == Failure(AttributeError) <==> "serializer" in m && !m["serializer"].Table?)
        && ("serializer" in m && m["serializer"].Table? && "output_id" !in m ==> r == Failure(KeyError))
      ensures r.Success? ==> LoadMetadata(t, k).Success? && Some(r.value) == OutputPath(k, LoadMetadata(t, k).value)
    {
      if !Exists(t, k) then Failure(InputKeyNotFound)
      else
        match LoadMetadata(t, k)
        case Failure(e) => Failure(e)
        case Success(m) =>
          if "serializer" in m && !m["serializer"].Table? then Failure(AttributeError)
          else
            match OutputPath(k, m)
            case None => Failure(KeyError)
            case Some(p) => Success(p)
    }

    // -------------------------------------------------------------------
    // Properties of the store operations

    /** Evicting removes the input's directory and nothing else, and evicting again changes nothing. */
    lemma EvictEffect(t: Tree, k: CacheKey)
      requires WellFormed(t)
      ensures WellFormed(Evict(t, k))
      ensures !Exists(Evict(t, k), k)
      ensures SameOutside(t, Evict(t, k), InputPath(k))
      ensures forall p :: p in Evict(t, k) && Within(InputPath(k), p) ==> p == InputPath(k) && IsFile(t, p)
      ensures Evict(Evict(t, k), k) == Evict(t, k)
    {
      RemoveTreeEffect(t, InputPath(k));
    }

    /** Evicting one key leaves every other key's directory as it was. */
    lemma EvictKeepsOthers(t: Tree, k: CacheKey, j: CacheKey)
      requires WellFormed(t) && k != j
      ensures SameWithin(t, Evict(t, k), InputPath(j))
    {
      EvictEffect(t, k);
      InputsDisjoint(k, j);
    }

    /** After clear no key of the function is stored, and other functions keep everything. */
    lemma ClearEffect(t: Tree, f: FunctionKey)
      requires WellFormed(t)
      ensures WellFormed(Clear(t, f))
      ensures Listed(Clear(t, f), f) == {}
      ensures forall g :: g != f ==> SameWithin(t, Clear(t, f), FunctionPath(g))
    {
      RemoveTreeEffect(t, FunctionPath(f));
      forall k: CacheKey | k.functionId == f.functionId
        ensures !Exists(Clear(t, f), k)
      {
        InputInsideFunction(k);
      }
      forall g | g != f
        ensures SameWithin(t, Clear(t, f), FunctionPath(g))
      {
        FunctionsDisjoint(f, g);
      }
    }

    /** A copied entry never lies below the source, since both function directories are siblings. */
    lemma SiblingsApart(from: FunctionKey, to: FunctionKey)
      requires from != to
      ensures !Within(FunctionPath(from), FunctionPath(to)) && !Within(FunctionPath(to), FunctionPath(from))
      ensures forall rel :: !Within(FunctionPath(from), FunctionPath(to) + rel)
      ensures FunctionPath(from) != []
    {
      FunctionsDisjoint(from, to);
      FunctionsDisjoint(to, from);
      forall rel
        ensures !Within(FunctionPath(from), FunctionPath(to) + rel)
      {
        assert Within(FunctionPath(to), FunctionPath(to) + rel);
      }
    }

    /** A successful adopt between two keys is a clean copy followed by the removal of the source. */
    lemma AdoptSteps(t: Tree, from: FunctionKey, to: FunctionKey)
      requires WellFormed(t) && from != to
      requires Adopt(t, from, to).result.Success?
      ensures var src := FunctionPath(from);
        var dst := FunctionPath(to);
        && IsDir(t, src) && NoFileOnPath(t, dst) && NoConflict(t, src, dst)
        && !Within(src, dst) && !Within(dst, src)
        && WellFormed(CopyTree(t, src, dst).tree) && IsDir(CopyTree(t, src, dst).tree, src)
        && Adopt(t, from, to).fs == RemoveTree(CopyTree(t, src, dst).tree, src)
    {
      SiblingsApart(from, to);
      CopyTreeEffect(t, FunctionPath(from), FunctionPath(to));
    }

    /**
     * A successful adopt between two keys empties the source, keeps every
     * target directory a directory, and changes no other function's
     * directory.
     */
    lemma AdoptEffect(t: Tree, from: FunctionKey, to: FunctionKey)
      requires WellFormed(t) && from != to
      requires Adopt(t, from, to).result.Success?
      ensures WellFormed(Adopt(t, from, to).fs)
      ensures forall p :: p in Adopt(t, from, to).fs ==> !Within(FunctionPath(from), p)
      ensures forall rel :: IsDir(t, FunctionPath(to) + rel) ==> IsDir(Adopt(t, from, to).fs, FunctionPath(to) + rel)
      ensures forall g :: g != from && g != to ==> SameWithin(t, Adopt(t, from, to).fs, FunctionPath(g))
    {
      var src := FunctionPath(from);
      var dst := FunctionPath(to);
      AdoptSteps(t, from, to);
      var copy := CopyTree(t, src, dst);
      var r := RemoveTree(copy.tree, src);
      RemoveTreeEffect(copy.tree, src);
      CopyTreeKeepsDirs(t, src, dst);
      RemoveTreeApart(copy.tree, src, dst);
      forall rel | IsDir(t, dst + rel)
        ensures Within(dst, dst + rel)
      {
        DropPrefix(dst, rel);
      }
      forall g | g != from && g != to
        ensures SameWithin(t, r, FunctionPath(g))
      {
        FunctionsDisjoint(from, g);
        FunctionsDisjoint(to, g);
        CopyTreeApart(t, src, dst, FunctionPath(g));
        RemoveTreeApart(copy.tree, src, FunctionPath(g));
      }
    }

    /**
     * Each file of the source lands at the same place under the target,
     * overwriting a target file there, or, where the target holds a
     * directory at that place, inside that directory under its own name.
     */
    lemma AdoptPlacesFiles(t: Tree, from: FunctionKey, to: FunctionKey)
      requires WellFormed(t) && from != to
      requires Adopt(t, from, to).result.Success?
      ensures forall rel :: IsFile(t, FunctionPath(from) + rel) && !IsDir(t, FunctionPath(to) + rel) ==>
        FunctionPath(to) + rel in Adopt(t, from, to).fs &&
        Adopt(t, from, to).fs[FunctionPath(to) + rel] == t[FunctionPath(from) + rel]
      ensures forall rel :: IsFile(t, FunctionPath(from) + rel) && IsDir(t, FunctionPath(to) + rel) ==>
        rel != [] && Nested(FunctionPath(to), rel) in Adopt(t, from, to).fs &&
        Adopt(t, from, to).fs[Nested(FunctionPath(to), rel)] == t[FunctionPath(from) + rel]
    {
      var src := FunctionPath(from);
      var dst := FunctionPath(to);
      AdoptSteps(t, from, to);
      var copy := CopyTree(t, src, dst);
      RemoveTreeApart(copy.tree, src, dst);
      CleanCopyPlaces(t, src, dst);
      forall rel | IsFile(t, src + rel)
        ensures Within(dst, dst + rel)
      {
        DropPrefix(dst, rel);
      }
      forall rel | IsFile(t, src + rel) && IsDir(t, dst + rel)
        ensures Within(dst, Nested(dst, rel))
      {
        NestedSlices(dst, rel);
      }
    }

    /**
     * Target entries that receive nothing stay: those with no counterpart
     * in the source, other than the place of a source file that meets a
     * directory.
     */
    lemma AdoptKeepsUnmatched(t: Tree, from: FunctionKey, to: FunctionKey)
      requires WellFormed(t) && from != to
      requires Adopt(t, from, to).result.Success?
      ensures forall rel ::
        && FunctionPath(to) + rel in t && FunctionPath(from) + rel !in t
        && !(|rel| >= 2 && IsFile(t, FunctionPath(from) + rel[..|rel| - 1]) && rel[|rel| - 1] == rel[|rel| - 2])
        ==> FunctionPath(to) + rel in Adopt(t, from, to).fs &&
            Adopt(t, from, to).fs[FunctionPath(to) + rel] == t[FunctionPath(to) + rel]
    {
      var src := FunctionPath(from);
      var dst := FunctionPath(to);
      AdoptSteps(t, from, to);
      var copy := CopyTree(t, src, dst);
      RemoveTreeApart(copy.tree, src, dst);
      CopyKeepsUnmatched(t, src, dst);
      forall rel | dst + rel in t
        ensures Within(dst, dst + rel)
      {
        DropPrefix(dst, rel);
      }
    }

    /** An adopt whose source directory is missing raises and changes nothing. */
    lemma AdoptMissingSource(t: Tree, from: FunctionKey, to: FunctionKey)
      requires !IsDir(t, FunctionPath(from))
      ensures Adopt(t, from, to) == Step(Failure(OSError), t)
    {
    }

    /** Adopting a function into itself raises, without a change, exactly when it holds a file. */
    lemma AdoptSelf(t: Tree, f: FunctionKey)
      requires WellFormed(t) && IsDir(t, FunctionPath(f))
      ensures Adopt(t, f, f).result.Failure? <==> HasFileWithin(t, FunctionPath(f))
      ensures Adopt(t, f, f).result.Failure? ==> Adopt(t, f, f).fs == t
      ensures Adopt(t, f, f).result.Success? ==> Listed(Adopt(t, f, f).fs, f) == {}
    {
      RemoveTreeEffect(t, FunctionPath(f));
      forall k: CacheKey | k.functionId == f.functionId
        ensures !Exists(RemoveTree(t, FunctionPath(f)), k)
      {
        InputInsideFunction(k);
      }
    }

    /** dump_metadata fails exactly when a file blocks the input directory or a directory sits at the metadata path. */
    lemma DumpSucceeds(t: Tree, m: Metadata, k: CacheKey)
      requires WellFormed(t)
      ensures DumpMetadata(t, m, k).result.Success? <==>
        NoFileOnPath(t, InputPath(k)) && !IsDir(t, MetadataPath(k))
      ensures DumpMetadata(t, m, k).result.Failure? ==> DumpMetadata(t, m, k).fs == t
    {
      var ip := InputPath(k);
      if NoFileOnPath(t, ip) {
        MakeDirsEffect(t, ip);
        PrefixesBound(ip);
        assert MetadataPath(k) !in Prefixes(ip);
        assert Parent(MetadataPath(k)) == ip;
        if IsDir(t, MetadataPath(k)) {
          MakeDirsNoop(t, ip);
        }
      }
    }

    /**
     * A successful dump stores `m` so that loading gives it back, and
     * changes nothing but the metadata file and the directories on its way.
     */
    lemma DumpEffect(t: Tree, m: Metadata, k: CacheKey)
      requires WellFormed(t) && Lossless(codec)
      requires DumpMetadata(t, m, k).result.Success?
      ensures WellFormed(DumpMetadata(t, m, k).fs)
      ensures LoadMetadata(DumpMetadata(t, m, k).fs, k) == Success(m)
      ensures ChangesOnlyUnder(t, DumpMetadata(t, m, k).fs, MetadataPath(k))
    {
      var ip := InputPath(k);
      var made := MakeDirs(t, ip);
      MakeDirsEffect(t, ip);
      MakeDirsChanges(t, ip, MetadataPath(k));
      var u := WriteFile(made, MetadataPath(k), codec.encode(m)).value;
      WriteFileEffect(made, MetadataPath(k), codec.encode(m));
      SameOutsideChanges(made, u, MetadataPath(k));
      ChangesCompose(t, made, u, MetadataPath(k));
    }

    /** write_output succeeds exactly when the name is well formed and the paths can hold the file. */
    lemma WriteSucceeds(t: Tree, b: Bytes, m: Metadata, k: CacheKey)
      requires WellFormed(t)
      ensures WriteOutput(t, b, m, k).result.Success? <==>
        OutputName(m).Some? && NoFileOnPath(t, InputPath(k)) && !IsDir(t, OutputPath(k, m).value)
      ensures WriteOutput(t, b, m, k).result.Failure? ==> WriteOutput(t, b, m, k).fs == t
    {
      var ip := InputPath(k);
      if OutputName(m).Some? && NoFileOnPath(t, ip) {
        var p := OutputPath(k, m).value;
        MakeDirsEffect(t, ip);
        PrefixesBound(ip);
        assert p !in Prefixes(ip);
        assert Parent(p) == ip;
        if IsDir(t, p) {
          MakeDirsNoop(t, ip);
        }
      }
    }

    /**
     * A successful write_output stores `b` so that read_output with the
     * same metadata gives it back, and changes nothing but that file and
     * the directories on its way.
     */
    lemma WriteEffect(t: Tree, b: Bytes, m: Metadata, k: CacheKey)
      requires WellFormed(t)
      requires WriteOutput(t, b, m, k).result.Success?
      ensures WellFormed(WriteOutput(t, b, m, k).fs)
      ensures ReadOutput(WriteOutput(t, b, m, k).fs, m, k) == Success(b)
      ensures ChangesOnlyUnder(t, WriteOutput(t, b, m, k).fs, OutputPath(k, m).value)
    {
      var ip := InputPath(k);
      var p := OutputPath(k, m).value;
      var made := MakeDirs(t, ip);
      MakeDirsEffect(t, ip);
      MakeDirsChanges(t, ip, p);
      var u := WriteFile(made, p, b).value;
      WriteFileEffect(made, p, b);
      SameOutsideChanges(made, u, p);
      ChangesCompose(t, made, u, p);
    }

    /** update_last_accessed succeeds exactly when the metadata loads. */
    lemma UpdateSucceeds(t: Tree, k: CacheKey, now: string)
      requires WellFormed(t)
      ensures UpdateLastAccessed(t, k, now).result.Success? <==> LoadMetadata(t, k).Success?
      ensures UpdateLastAccessed(t, k, now).result.Failure? ==> UpdateLastAccessed(t, k, now).fs == t
    {
      if LoadMetadata(t, k).Success? {
        var m := LoadMetadata(t, k).value;
        assert Parent(MetadataPath(k)) == InputPath(k);
        MakeDirsNoop(t, InputPath(k));
        DumpSucceeds(t, m["last_accessed" := Text(now)], k);
      }
    }

    /**
     * update_last_accessed sets the `last_accessed` entry and keeps every
     * other entry; only the metadata file changes.
     */
    lemma UpdateEffect(t: Tree, k: CacheKey, now: string)
      requires WellFormed(t) && Lossless(codec)
      requires UpdateLastAccessed(t, k, now).result.Success?
      ensures WellFormed(UpdateLastAccessed(t, k, now).fs)
      ensures LoadMetadata(UpdateLastAccessed(t, k, now).fs, k) == Success(LoadMetadata(t, k).value["last_accessed" := Text(now)])
      ensures GetLastAccessed(UpdateLastAccessed(t, k, now).fs, k) == Success(Some(Text(now)))
      ensures ChangesOnlyUnder(t, UpdateLastAccessed(t, k, now).fs, MetadataPath(k))
    {
      DumpEffect(t, LoadMetadata(t, k).value["last_accessed" := Text(now)], k);
    }
  }

  /** One disk cache object: the store's layout over the shared disk. */
  class DiskCache {
    const store: Store
    const disk: Disk

    ghost predicate Valid()
      reads this, disk
    {
      disk.Valid() && Lossless(store.codec)
    }

    constructor (store: Store, disk: Disk)
      requires disk.Valid() && Lossless(store.codec)
      ensures this.store == store && this.disk == disk && Valid()
    {
      this.store := store;
      this.disk := disk;
    }

    method Exists(k: CacheKey) returns (b: bool)
      ensures b <==> IsDir(disk.fs, store.InputPath(k))
    {
      b := store.Exists(disk.fs, k);
    }

    /** list: the keys of the function's stored inputs, each once, in the order glob gives them. */
    method List(f: FunctionKey) returns (keys: seq<CacheKey>)
      ensures forall k :: k in keys <==> k.functionId == f.functionId && store.Exists(disk.fs, k)
      ensures forall i, j :: 0 <= i < j < |keys| ==> keys[i] != keys[j]
    {
      var names := ListDirs(disk.fs, store.InputsPath(f));
      keys := [];
      var i := 0;
      while i < |names|
        invariant 0 <= i <= |names|
        invariant |keys| == i
        invariant forall j :: 0 <= j < i ==> keys[j] == CacheKey(f.functionId, names[j])
      {
        keys := keys + [CacheKey(f.functionId, names[i])];
        i := i + 1;
      }
      forall k | k in keys
        ensures k.functionId == f.functionId && store.Exists(disk.fs, k)
      {
        var j :| 0 <= j < |keys| && keys[j] == k;
        assert names[j] in names;
      }
      forall k: CacheKey | k.functionId == f.functionId && store.Exists(disk.fs, k)
        ensures k in keys
      {
        assert k.inputId in names;
        var j :| 0 <= j < |names| && names[j] == k.inputId;
        assert keys[j] == k;
      }
    }

    method Evict(k: CacheKey)
      requires Valid()
      modifies disk
      ensures Valid()
      ensures disk.fs == store.Evict(old(disk.fs), k)
    {
      store.EvictEffect(disk.fs, k);
      disk.fs := RemoveTree(disk.fs, store.InputPath(k));
    }

    method Clear(f: FunctionKey)
      requires Valid()
      modifies disk
      ensures Valid()
      ensures disk.fs == store.Clear(old(disk.fs), f)
    {
      store.ClearEffect(disk.fs, f);
      disk.fs := RemoveTree(disk.fs, store.FunctionPath(f));
    }

    /** adopt: copytree, which may raise after copying part of the tree, then rmtree. */
    method Adopt(from: FunctionKey, to: FunctionKey) returns (r: Result<(), Error>)
      requires Valid()
      modifies disk
      ensures Valid()
      ensures Step(r, disk.fs) == store.Adopt(old(disk.fs), from, to)
    {
      var src := store.FunctionPath(from);
      var dst := store.FunctionPath(to);
      if from == to {
        if !IsDir(disk.fs, src) || HasFileWithin(disk.fs, src) {
          return Failure(OSError);
        }
      } else {
        var copy := CopyTree(disk.fs, src, dst);
        if copy.ok || (IsDir(disk.fs, src) && NoFileOnPath(disk.fs, dst)) {
          store.SiblingsApart(from, to);
          CopyTreeWellFormed(disk.fs, src, dst);
        }
        disk.fs := copy.tree;
        if !copy.ok {
          return Failure(OSError);
        }
      }
      RemoveTreeEffect(disk.fs, src);
      disk.fs := RemoveTree(disk.fs, src);
      r := Success(());
    }

    method LoadMetadata(k: CacheKey) returns (r: Result<Metadata, Error>)
      ensures r == store.LoadMetadata(disk.fs, k)
    {
      var bytes := ReadFile(disk.fs, store.MetadataPath(k));
      if bytes.None? {
        return Failure(OSError);
      }
      var m := store.codec.decode(bytes.value);
      if m.None? {
        return Failure(JSONDecodeError);
      }
      r := Success(m.value);
    }

    method DumpMetadata(m: Metadata, k: CacheKey) returns (r: Result<(), Error>)
      requires Valid()
      modifies disk
      ensures Valid()
      ensures Step(r, disk.fs) == store.DumpMetadata(old(disk.fs), m, k)
    {
      var ip := store.InputPath(k);
      if !NoFileOnPath(disk.fs, ip) {
        return Failure(OSError);
      }
      MakeDirsEffect(disk.fs, ip);
      disk.fs := MakeDirs(disk.fs, ip);
      var written := WriteFile(disk.fs, store.MetadataPath(k), store.codec.encode(m));
      if written.None? {
        return Failure(OSError);
      }
      WriteFileEffect(disk.fs, store.MetadataPath(k), store.codec.encode(m));
      disk.fs := written.value;
      r := Success(());
    }

    method ReadOutput(m: Metadata, k: CacheKey) returns (r: Result<Bytes, Error>)
      ensures r == store.ReadOutput(disk.fs, m, k)
    {
      var p := store.OutputPath(k, m);
      if p.None? {
        return Failure(ReadException);
      }
      var bytes := ReadFile(disk.fs, p.value);
      if bytes.None? {
        return Failure(ReadException);
      }
      r := Success(bytes.value);
    }

    method WriteOutput(b: Bytes, m: Metadata, k: CacheKey) returns (r: Result<(), Error>)
      requires Valid()
      modifies disk
      ensures Valid()
      ensures Step(r, disk.fs) == store.WriteOutput(old(disk.fs), b, m, k)
    {
      var p := store.OutputPath(k, m);
      if p.None? {
        return Failure(WriteException);
      }
      var ip := store.InputPath(k);
      if !NoFileOnPath(disk.fs, ip) {
        return Failure(WriteException);
      }
      MakeDirsEffect(disk.fs, ip);
      disk.fs := MakeDirs(disk.fs, ip);
      var written := WriteFile(disk.fs, p.value, b);
      if written.None? {
        return Failure(WriteException);
      }
      WriteFileEffect(disk.fs, p.value, b);
      disk.fs := written.value;
      r := Success(());
    }

    /** The clock's reading arrives as `now`, already formatted as the stored stamp. */
    method UpdateLastAccessed(k: CacheKey, now: string) returns (r: Result<(), Error>)
      requires Valid()
      modifies disk
      ensures Valid()
      ensures Step(r, disk.fs) == store.UpdateLastAccessed(old(disk.fs), k, now)
    {
      var loaded := LoadMetadata(k);
      if loaded.Failure? {
        return Failure(loaded.error);
      }
      var m := loaded.value["last_accessed" := Text(now)];
      r := DumpMetadata(m, k);
    }

    method GetLastAccessed(k: CacheKey) returns (r: Result<Option<Value>, Error>)
      ensures r == store.GetLastAccessed(disk.fs, k)
    {
      var loaded := LoadMetadata(k);
      if loaded.Failure? {
        return Failure(loaded.error);
      }
      if "last_accessed" in loaded.value {
        r := Success(Some(loaded.value["last_accessed"]));
      } else {
        r := Success(None);
      }
    }

    method GetOutputPath(k: CacheKey) returns (r: Result<Path, Error>)
      ensures r == store.GetOutputPath(disk.fs, k)
    {
      var present := Exists(k);
      if !present {
        return Failure(InputKeyNotFound);
      }
      var loaded := LoadMetadata(k);
      if loaded.Failure? {
        return Failure(loaded.error);
      }
      if "serializer" in loaded.value && !loaded.value["serializer"].Table? {
        return Failure(AttributeError);
      }
      var p := store.OutputPath(k, loaded.value);
      if p.None? {
        return Failure(KeyError);
      }
      r := Success(p.value);
    }
  }
}
