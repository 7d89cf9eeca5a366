/**
 * The two operations every cache inherits from its base class: `read`
 * stamps the entry as accessed and returns the stored output, `write`
 * replaces the entry with a new output and metadata. Both are fixed
 * sequences of the store's own operations.
 */
module CachesCache {
  import opened Wrappers
  import opened FileSystem
  import opened Keys
  import opened Documents
  import opened CachesDisk

  /** read: update_last_accessed, then load_metadata, then read_output with that metadata. */
  function ReadStep(s: Store, t: Tree, k: CacheKey, now: string): Step<Bytes, Error> {
    var stamped := s.UpdateLastAccessed(t, k, now);
    if stamped.result.Failure? then Step(Failure(stamped.result.error), stamped.fs)
    else
      match s.LoadMetadata(stamped.fs, k)
      case Failure(e) => Step(Failure(e), stamped.fs)
      case Success(m) => Step(s.ReadOutput(stamped.fs, m, k), stamped.fs)
  }

  /** write: evict, then write_output, then dump_metadata, then update_last_accessed; the first failure stops it. */
  function WriteStep(s: Store, t: Tree, b: Bytes, m: Metadata, k: CacheKey, now: string): Step<(), Error> {
    var evicted := s.Evict(t, k);
    var written := s.WriteOutput(evicted, b, m, k);
    if written.result.Failure? then written
    else
      var dumped := s.DumpMetadata(written.fs, m, k);
      if dumped.result.Failure? then dumped
      else s.UpdateLastAccessed(dumped.fs, k, now)
  }

  method Read(c: DiskCache, k: CacheKey, now: string) returns (r: Result<Bytes, Error>)
    requires c.Valid()
    modifies c.disk
    ensures c.Valid()
    ensures Step(r, c.disk.fs) == ReadStep(c.store, old(c.disk.fs), k, now)
  {
    var stamped := c.UpdateLastAccessed(k, now);
    if stamped.Failure? {
      return Failure(stamped.error);
    }
    var m := c.LoadMetadata(k);
    if m.Failure? {
      return Failure(m.error);
    }
    r := c.ReadOutput(m.value, k);
  }

  method Write(c: DiskCache, b: Bytes, m: Metadata, k: CacheKey, now: string) returns (r: Result<(), Error>)
    requires c.Valid()
    modifies c.disk
    ensures c.Valid()
    ensures Step(r, c.disk.fs) == WriteStep(c.store, old(c.disk.fs), b, m, k, now)
  {
    c.Evict(k);
    r := c.WriteOutput(b, m, k);
    if r.Failure? {
      return;
    }
    r := c.DumpMetadata(m, k);
    if r.Failure? {
      return;
    }
    r := c.UpdateLastAccessed(k, now);
  }

  // ---------------------------------------------------------------------
  // What the write leaves behind

  /** A successful write_output is the input directory's creation followed by one file write. */
  lemma WriteOutputTree(s: Store, e: Tree, b: Bytes, m: Metadata, k: CacheKey)
    requires s.WriteOutput(e, b, m, k).result.Success?
    ensures NoFileOnPath(e, s.InputPath(k)) && s.OutputPath(k, m).Some?
    ensures s.WriteOutput(e, b, m, k).fs == MakeDirs(e, s.InputPath(k))[s.OutputPath(k, m).value := File(b)]
  {
  }

  /** write_output into an input directory that holds nothing below it leaves the directory and the output file alone there. */
  lemma WriteOutputLeaves(s: Store, e: Tree, b: Bytes, m: Metadata, k: CacheKey)
    requires WellFormed(e)
    requires s.WriteOutput(e, b, m, k).result.Success?
    requires forall p :: p in e && Within(s.InputPath(k), p) ==> p == s.InputPath(k)
    ensures var w := s.WriteOutput(e, b, m, k).fs;
      && IsDir(w, s.InputPath(k))
      && !IsDir(w, s.MetadataPath(k))
      && (forall p :: Within(s.InputPath(k), p) ==> (p in w <==> p == s.InputPath(k) || p == s.OutputPath(k, m).value))
  {
    var ip := s.InputPath(k);
    var op := s.OutputPath(k, m).value;
    var mp := s.MetadataPath(k);
    assert op == ip + [OutputName(m).value] && op != ip && Within(ip, op);
    var made := MakeDirs(e, ip);
    MakeDirsEffect(e, ip);
    PrefixesBound(ip);
    WriteOutputTree(s, e, b, m, k);
    var w := s.WriteOutput(e, b, m, k).fs;
    assert IsDir(made, ip);
    forall p | Within(ip, p) && p in made
      ensures p == ip
    {
      if p !in e {
        assert p in Prefixes(ip);
        assert |p| <= |ip|;
      }
    }
    assert mp in w ==> mp == op by {
      assert |mp| == |ip| + 1 && Within(ip, mp);
    }
  }

  /** The filesystem right after write_output inside a write, and what it holds. */
  lemma AfterWriteOutput(s: Store, t: Tree, b: Bytes, m: Metadata, k: CacheKey)
    requires WellFormed(t)
    requires s.WriteOutput(s.Evict(t, k), b, m, k).result.Success?
    ensures var w := s.WriteOutput(s.Evict(t, k), b, m, k).fs;
      && WellFormed(w)
      && IsDir(w, s.InputPath(k))
      && s.ReadOutput(w, m, k) == Success(b)
      && !IsDir(w, s.MetadataPath(k))
      && (forall p :: Within(s.InputPath(k), p) ==> (p in w <==> p == s.InputPath(k) || p == s.OutputPath(k, m).value))
      && ChangesOnlyUnder(t, w, s.InputPath(k))
  {
    var ip := s.InputPath(k);
    var e := s.Evict(t, k);
    s.EvictEffect(t, k);
    SameOutsideChanges(t, e, ip);
    WriteOutputLeaves(s, e, b, m, k);
    var op := s.OutputPath(k, m).value;
    assert Within(ip, op);
    var w := s.WriteOutput(e, b, m, k).fs;
    s.WriteEffect(e, b, m, k);
    ChangesWiden(e, w, op, ip);
    ChangesCompose(t, e, w, ip);
  }

  /** A successful dump_metadata is the input directory's creation followed by one file write. */
  lemma DumpMetadataTree(s: Store, w: Tree, m: Metadata, k: CacheKey)
    requires s.DumpMetadata(w, m, k).result.Success?
    ensures NoFileOnPath(w, s.InputPath(k))
    ensures s.DumpMetadata(w, m, k).fs == MakeDirs(w, s.InputPath(k))[s.MetadataPath(k) := File(s.codec.encode(m))]
  {
  }

  /** The filesystem right after dump_metadata inside a write, and what it holds. */
  lemma AfterDump(s: Store, t: Tree, b: Bytes, m: Metadata, k: CacheKey)
    requires WellFormed(t) && Lossless(s.codec)
    requires s.WriteOutput(s.Evict(t, k), b, m, k).result.Success?
    ensures var w := s.WriteOutput(s.Evict(t, k), b, m, k).fs;
      var d := s.DumpMetadata(w, m, k);
      && d.result.Success?
      && WellFormed(d.fs)
      && s.LoadMetadata(d.fs, k) == Success(m)
      && (OutputName(m) != Some(MetadataFile) ==> s.ReadOutput(d.fs, m, k) == Success(b))
      && (forall p :: Within(s.InputPath(k), p) ==>
            (p in d.fs <==> p == s.InputPath(k) || p == s.OutputPath(k, m).value || p == s.MetadataPath(k)))
      && ChangesOnlyUnder(t, d.fs, s.InputPath(k))
  {
    var ip := s.InputPath(k);
    var mp := s.MetadataPath(k);
    var op := s.OutputPath(k, m).value;
    AfterWriteOutput(s, t, b, m, k);
    var w := s.WriteOutput(s.Evict(t, k), b, m, k).fs;
    MakeDirsNoop(w, ip);
    s.DumpSucceeds(w, m, k);
    DumpMetadataTree(s, w, m, k);
    var d := s.DumpMetadata(w, m, k);
    assert d.fs == w[mp := File(s.codec.encode(m))];
    s.DumpEffect(w, m, k);
    assert mp == ip + [MetadataFile] && Within(ip, mp);
    if OutputName(m).Some? && OutputName(m) != Some(MetadataFile) {
      assert op == ip + [OutputName(m).value] && op != mp;
      assert ReadFile(d.fs, op) == ReadFile(w, op);
    }
    ChangesWiden(w, d.fs, mp, ip);
    ChangesCompose(t, w, d.fs, ip);
  }

  /** A write succeeds exactly when the metadata names an output file and no file blocks the input directory. */
  lemma WriteSucceeds(s: Store, t: Tree, b: Bytes, m: Metadata, k: CacheKey, now: string)
    requires WellFormed(t) && Lossless(s.codec)
    ensures WriteStep(s, t, b, m, k, now).result.Success? <==>
      OutputName(m).Some? && NoFileOnPath(t, s.InputPath(k))
  {
    var ip := s.InputPath(k);
    var e := s.Evict(t, k);
    s.EvictEffect(t, k);
    s.WriteSucceeds(e, b, m, k);
    assert NoFileOnPath(e, ip) <==> NoFileOnPath(t, ip) by {
      forall i | 0 <= i <= |ip|
        ensures IsFile(e, ip[..i]) <==> IsFile(t, ip[..i])
      {
        if i < |ip| {
          assert !Within(ip, ip[..i]);
        } else {
          assert ip[..i] == ip;
        }
      }
    }
    if OutputName(m).Some? && NoFileOnPath(t, ip) {
      var op := s.OutputPath(k, m).value;
      assert op !in e;
      AfterDump(s, t, b, m, k);
      var d := s.DumpMetadata(s.WriteOutput(e, b, m, k).fs, m, k);
      s.UpdateSucceeds(d.fs, k, now);
    }
  }

  /** update_last_accessed on a readable entry rewrites the metadata file in place and nothing else. */
  lemma UpdateRewrites(s: Store, t: Tree, k: CacheKey, now: string)
    requires WellFormed(t)
    requires s.LoadMetadata(t, k).Success?
    ensures var m := s.LoadMetadata(t, k).value;
      s.UpdateLastAccessed(t, k, now) ==
        Step(Success(()), t[s.MetadataPath(k) := File(s.codec.encode(m["last_accessed" := Text(now)]))])
  {
    var mp := s.MetadataPath(k);
    assert Parent(mp) == s.InputPath(k);
    MakeDirsNoop(t, s.InputPath(k));
  }

  /**
   * After a successful write the entry's directory holds exactly the new
   * output file and the metadata file, whatever it held before; the
   * metadata is the given one with `last_accessed` set; get_output_path
   * names the new file.
   */
  lemma WriteEffect(s: Store, t: Tree, b: Bytes, m: Metadata, k: CacheKey, now: string)
    requires WellFormed(t) && Lossless(s.codec)
    requires WriteStep(s, t, b, m, k, now).result.Success?
    ensures var u := WriteStep(s, t, b, m, k, now).fs;
      && WellFormed(u)
      && s.LoadMetadata(u, k) == Success(m["last_accessed" := Text(now)])
      && (forall p :: Within(s.InputPath(k), p) ==>
            (p in u <==> p == s.InputPath(k) || p == s.OutputPath(k, m).value || p == s.MetadataPath(k)))
      && (OutputName(m) != Some(MetadataFile) ==> s.ReadOutput(u, m, k) == Success(b))
      && s.GetOutputPath(u, k) == Success(s.OutputPath(k, m).value)
  {
    WriteStores(s, t, b, m, k, now);
    WriteReadsOutput(s, t, b, m, k, now);
    WriteNamesOutput(s, t, b, m, k, now);
  }

  /** The metadata part of WriteEffect. */
  lemma WriteStores(s: Store, t: Tree, b: Bytes, m: Metadata, k: CacheKey, now: string)
    requires WellFormed(t) && Lossless(s.codec)
    requires WriteStep(s, t, b, m, k, now).result.Success?
    ensures var u := WriteStep(s, t, b, m, k, now).fs;
      && WellFormed(u)
      && s.LoadMetadata(u, k) == Success(m["last_accessed" := Text(now)])
      && (forall p :: Within(s.InputPath(k), p) ==>
            (p in u <==> p == s.InputPath(k) || p == s.OutputPath(k, m).value || p == s.MetadataPath(k)))
  {
    AfterDump(s, t, b, m, k);
    var w := s.WriteOutput(s.Evict(t, k), b, m, k).fs;
    var d := s.DumpMetadata(w, m, k).fs;
    s.UpdateEffect(d, k, now);
    UpdateRewrites(s, d, k, now);
    var u := WriteStep(s, t, b, m, k, now).fs;
    assert u.Keys == d.Keys;
  }

  /** The output file written by a write reads back. */
  lemma WriteReadsOutput(s: Store, t: Tree, b: Bytes, m: Metadata, k: CacheKey, now: string)
    requires WellFormed(t) && Lossless(s.codec)
    requires WriteStep(s, t, b, m, k, now).result.Success?
    ensures OutputName(m) != Some(MetadataFile) ==> s.ReadOutput(WriteStep(s, t, b, m, k, now).fs, m, k) == Success(b)
  {
    AfterDump(s, t, b, m, k);
    var w := s.WriteOutput(s.Evict(t, k), b, m, k).fs;
    var d := s.DumpMetadata(w, m, k).fs;
    UpdateRewrites(s, d, k, now);
    if OutputName(m) != Some(MetadataFile) {
      var m2 := m["last_accessed" := Text(now)];
      RewriteKeepsOutput(s, d, k, m, File(s.codec.encode(m2)));
    }
  }

  /** Rewriting the metadata file leaves what read_output gives as it was. */
  lemma RewriteKeepsOutput(s: Store, d: Tree, k: CacheKey, m: Metadata, n: Node)
    requires OutputName(m) != Some(MetadataFile)
    ensures s.ReadOutput(d[s.MetadataPath(k) := n], m, k) == s.ReadOutput(d, m, k)
  {
    if OutputName(m).Some? {
      assert s.OutputPath(k, m).value != s.MetadataPath(k) by {
        assert s.OutputPath(k, m).value[|s.InputPath(k)|] == OutputName(m).value;
        assert s.MetadataPath(k)[|s.InputPath(k)|] == MetadataFile;
      }
    }
  }

  /** After a write, get_output_path names the output file just written. */
  lemma WriteNamesOutput(s: Store, t: Tree, b: Bytes, m: Metadata, k: CacheKey, now: string)
    requires WellFormed(t) && Lossless(s.codec)
    requires WriteStep(s, t, b, m, k, now).result.Success?
    ensures s.GetOutputPath(WriteStep(s, t, b, m, k, now).fs, k) == Success(s.OutputPath(k, m).value)
  {
    WriteStores(s, t, b, m, k, now);
    var u := WriteStep(s, t, b, m, k, now).fs;
    OutputNameIgnoresOthers(m, "last_accessed", Text(now));
    assert s.InputPath(k) in u;
    NamesStoredOutput(s, u, k, m["last_accessed" := Text(now)]);
  }

  /** get_output_path on a stored key whose metadata names an output gives that output's path. */
  lemma NamesStoredOutput(s: Store, u: Tree, k: CacheKey, m: Metadata)
    requires s.Exists(u, k) && s.LoadMetadata(u, k) == Success(m) && OutputName(m).Some?
    ensures s.GetOutputPath(u, k) == Success(s.OutputPath(k, m).value)
  {
  }

  /** read immediately after a successful write returns the bytes written. */
  lemma WriteThenRead(s: Store, t: Tree, b: Bytes, m: Metadata, k: CacheKey, now: string, later: string)
    requires WellFormed(t) && Lossless(s.codec)
    requires WriteStep(s, t, b, m, k, now).result.Success?
    requires OutputName(m) != Some(MetadataFile)
    ensures ReadStep(s, WriteStep(s, t, b, m, k, now).fs, k, later).result == Success(b)
  {
    WriteEffect(s, t, b, m, k, now);
    var u := WriteStep(s, t, b, m, k, now).fs;
    ReadReturnsStored(s, u, k, later);
    OutputNameIgnoresOthers(m, "last_accessed", Text(now));
  }

  /** A metadata file just written with a document loads back as that document. */
  lemma LoadsBack(s: Store, t: Tree, k: CacheKey, m: Metadata)
    requires Lossless(s.codec)
    ensures s.LoadMetadata(t[s.MetadataPath(k) := File(s.codec.encode(m))], k) == Success(m)
  {
    assert s.codec.decode(s.codec.encode(m)) == Some(m);
  }

  /**
   * read returns what read_output gives for the metadata stored before the
   * call, unless the output file is the metadata file itself.
   */
  lemma ReadReturnsStored(s: Store, t: Tree, k: CacheKey, now: string)
    requires WellFormed(t) && Lossless(s.codec)
    requires s.LoadMetadata(t, k).Success?
    requires OutputName(s.LoadMetadata(t, k).value) != Some(MetadataFile)
    ensures ReadStep(s, t, k, now).result == s.ReadOutput(t, s.LoadMetadata(t, k).value, k)
    ensures ChangesOnlyUnder(t, ReadStep(s, t, k, now).fs, s.MetadataPath(k))
  {
    var m := s.LoadMetadata(t, k).value;
    var m2 := m["last_accessed" := Text(now)];
    var ip := s.InputPath(k);
    var mp := s.MetadataPath(k);
    UpdateRewrites(s, t, k, now);
    var u := t[mp := File(s.codec.encode(m2))];
    LoadsBack(s, t, k, m2);
    OutputNameIgnoresOthers(m, "last_accessed", Text(now));
    if OutputName(m).Some? {
      var op := s.OutputPath(k, m).value;
      assert op == ip + [OutputName(m).value] && mp == ip + [MetadataFile];
      assert op != mp;
      assert ReadFile(u, op) == ReadFile(t, op);
    }
  }

  /** A read whose metadata names the metadata file itself returns the metadata just rewritten. */
  lemma ReadSelfNamed(s: Store, t: Tree, k: CacheKey, now: string)
    requires WellFormed(t) && Lossless(s.codec)
    requires s.LoadMetadata(t, k).Success?
    requires OutputName(s.LoadMetadata(t, k).value) == Some(MetadataFile)
    ensures ReadStep(s, t, k, now).result ==
      Success(s.codec.encode(s.LoadMetadata(t, k).value["last_accessed" := Text(now)]))
  {
    var m := s.LoadMetadata(t, k).value;
    var m2 := m["last_accessed" := Text(now)];
    var mp := s.MetadataPath(k);
    s.UpdateSucceeds(t, k, now);
    s.UpdateEffect(t, k, now);
    UpdateRewrites(s, t, k, now);
    var u := s.UpdateLastAccessed(t, k, now).fs;
    assert ReadFile(u, mp) == Some(s.codec.encode(m2));
    OutputNameIgnoresOthers(m, "last_accessed", Text(now));
    assert s.OutputPath(k, m2) == Some(mp);
  }

  /**
   * With an output named like the metadata file the two share one file:
   * read after write returns the encoded metadata instead of the output.
   */
  lemma MetadataNameCollision(s: Store, t: Tree, b: Bytes, m: Metadata, k: CacheKey, now: string, later: string)
    requires WellFormed(t) && Lossless(s.codec)
    requires WriteStep(s, t, b, m, k, now).result.Success?
    requires OutputName(m) == Some(MetadataFile)
    ensures ReadStep(s, WriteStep(s, t, b, m, k, now).fs, k, later).result ==
      Success(s.codec.encode(m["last_accessed" := Text(later)]))
  {
    WriteEffect(s, t, b, m, k, now);
    var m2 := m["last_accessed" := Text(now)];
    assert m2["last_accessed" := Text(later)] == m["last_accessed" := Text(later)];
    OutputNameIgnoresOthers(m, "last_accessed", Text(now));
    ReadSelfNamed(s, WriteStep(s, t, b, m, k, now).fs, k, later);
  }

  /** read fails, changing nothing, when the entry's metadata is missing or unreadable. */
  lemma ReadWithoutMetadata(s: Store, t: Tree, k: CacheKey, now: string)
    requires WellFormed(t)
    requires s.LoadMetadata(t, k).Failure?
    ensures ReadStep(s, t, k, now) == Step(Failure(s.LoadMetadata(t, k).error), t)
    ensures !IsFile(t, s.MetadataPath(k)) ==> ReadStep(s, t, k, now).result == Failure(OSError)
  {
  }

  /** A change confined to one key's directory leaves every other key's directory as it was. */
  lemma OtherKeysUntouched(s: Store, t: Tree, u: Tree, k: CacheKey, j: CacheKey)
    requires ChangesOnlyUnder(t, u, s.InputPath(k)) && k != j
    ensures SameWithin(t, u, s.InputPath(j))
  {
    s.InputsDisjoint(k, j);
  }

  /** write, successful or not, changes no other key's directory. */
  lemma WriteKeepsOthers(s: Store, t: Tree, b: Bytes, m: Metadata, k: CacheKey, j: CacheKey, now: string)
    requires WellFormed(t) && Lossless(s.codec) && k != j
    ensures SameWithin(t, WriteStep(s, t, b, m, k, now).fs, s.InputPath(j))
  {
    var ip := s.InputPath(k);
    var e := s.Evict(t, k);
    s.EvictEffect(t, k);
    SameOutsideChanges(t, e, ip);
    s.WriteSucceeds(e, b, m, k);
    if s.WriteOutput(e, b, m, k).result.Success? {
      AfterDump(s, t, b, m, k);
      var d := s.DumpMetadata(s.WriteOutput(e, b, m, k).fs, m, k);
      s.UpdateSucceeds(d.fs, k, now);
      if s.UpdateLastAccessed(d.fs, k, now).result.Success? {
        s.UpdateEffect(d.fs, k, now);
        ChangesWiden(d.fs, s.UpdateLastAccessed(d.fs, k, now).fs, s.MetadataPath(k), ip);
        ChangesCompose(t, d.fs, s.UpdateLastAccessed(d.fs, k, now).fs, ip);
      }
    }
    OtherKeysUntouched(s, t, WriteStep(s, t, b, m, k, now).fs, k, j);
  }

  /** read, successful or not, changes no other key's directory. */
  lemma ReadKeepsOthers(s: Store, t: Tree, k: CacheKey, j: CacheKey, now: string)
    requires WellFormed(t) && Lossless(s.codec) && k != j
    ensures SameWithin(t, ReadStep(s, t, k, now).fs, s.InputPath(j))
  {
    s.UpdateSucceeds(t, k, now);
    if s.UpdateLastAccessed(t, k, now).result.Success? {
      s.UpdateEffect(t, k, now);
      ChangesWiden(t, ReadStep(s, t, k, now).fs, s.MetadataPath(k), s.InputPath(k));
    }
    OtherKeysUntouched(s, t, ReadStep(s, t, k, now).fs, k, j);
  }
}
