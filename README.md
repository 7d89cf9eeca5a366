# cacheables: a verified model of the disk-backed memoization store

This project models the core of the Python package `cacheables` (and its
predecessor `cacheable`) in Dafny. The package memoizes function calls on
disk. For each function it keeps a directory tree:

- a function directory;
- below it, one directory per version of the function;
- below that, one directory per input, holding the dumped output and some JSON metadata.

Around the store sit two pieces of logic:

- tri-state switches that decide whether a call may read or write the cache;
- the call flow of a cacheable function: hit, miss, fallback.

The filesystem is a value, `FileSystem.Tree`: a map from paths (sequences of
components) to directories and files. Its one invariant is that every entry
lies inside a directory. Python's `mkdir(parents=True, exist_ok=True)`,
`shutil.rmtree(ignore_errors=True)`, `shutil.copytree(dirs_exist_ok=True)`,
`open(..., "w")` and directory listing become functions on it. A
`FileSystem.Disk` object holds the current tree and is shared by the cache
objects.

Every store operation is modelled twice:

- a function on trees that says what the operation does, returning the
  result and the new tree (`Step`);
- a method of the class that updates `disk.fs` in place, proved to agree
  with that function.

The lemmas state what the source promises about those functions: round
trips, what changes and what does not, and when an operation fails.

Modules, following the package layout:

| module | file | models |
|---|---|---|
| `FileSystem` | filesystem.dfy | the pathlib/shutil primitives the store uses |
| `Keys` | keys.dfy | `cacheables/keys.py` |
| `Documents` | documents.dfy | JSON metadata documents and the json module as a codec |
| `CachesDisk` | caches_disk.dfy | `cacheables/caches/disk.py`, the `DiskCache` engine |
| `CachesCache` | caches_cache.dfy | `cacheables/caches/cache.py`, the composite `read`/`write` |
| `Scopes` | scopes.dfy | nested `with` blocks that save and restore a read/write flag pair |
| `Controllers` | controllers.dfy | `cacheables/controllers.py` |
| `Staging` | staging.dfy | the "dump to a temporary directory, check, replace" write and the serializer |
| `Ordering` | ordering.dfy | `versions.sort(key=lambda x: x["created_at"])` |
| `BackendsDisk` | backends_disk.dfy | `cacheables/backends/disk.py`, the versioned `DiskBackend` |
| `CoreCommon` | core_common.dfy | the exceptions, the id check and `DISABLE_CACHEABLE`, shared by both cores |
| `CacheableCore` | cacheable_core.dfy | `cacheable/core.py` |
| `CacheablesCore` | cacheables_core.dfy | `cacheables/core.py` |

Where the snapshots of the repository disagree, the model follows the code of each file:

- The `DiskCache` layer keys its entries by function id and input id only, so
  the key used there is the two-field `Keys.CacheKey`. The three-field
  `Keys.InputKey` of `cacheables/keys.py` is kept for the versioned backend.
- `Cache.load_metadata` in `cacheables/caches/cache.py` has a concrete no-op
  body. The model uses `DiskCache.load_metadata`, which overrides it.
- The output leaf is `output` in the backend, and `outputs` in both cores.

## Model

| member | source | states |
|---|---|---|
| Keys.VersionKey.ToFunctionKey | cacheables/keys.py:14-16 | the function key carries the version's function id |
| Keys.InputKey.ToFunctionKey | cacheables/keys.py:25-27 | the function key carries the input's function id |
| Keys.InputKey.ToVersionKey | cacheables/keys.py:29-31 | the version key carries the input's function id and version id |
| Keys.CacheKey.ToFunctionKey | cacheables/caches/disk.py:64-69 | the function key of a two-field cache key carries its function id |
| Keys.ProjectionsCommute | cacheables/keys.py:14-31 | going through the version key reaches the same function key as going directly |
| Keys.InputKeyDetermined | cacheables/keys.py:19-23 | two input keys are equal iff their version keys and input ids are equal (structural equality) |
| FileSystem.RemoveTree | cacheables/caches/disk.py:71-77 | rmtree with ignore_errors: a directory goes with everything below it, anything else is left; its properties are those of RemoveTreeEffect and RemoveTreeApart |
| FileSystem.RemoveTreeEffect | cacheables/caches/disk.py:71-73 | rmtree with ignore_errors removes a directory and everything below it (a regular file there is left alone), keeps the tree well formed and changes nothing outside |
| FileSystem.RemoveTreeApart | cacheables/caches/disk.py:79-85 | rmtree leaves every subtree apart from the removed one as it was |
| FileSystem.MakeDirs | cacheables/backends/disk.py:97-103 | mkdir(parents=True, exist_ok=True), defined only when no prefix is a regular file: adds a directory at every missing prefix; its properties are those of MakeDirsEffect |
| FileSystem.MakeDirsEffect | cacheables/backends/disk.py:97-103 | mkdir(parents, exist_ok) leaves a directory at every prefix of the path and only adds directories |
| FileSystem.WriteFile | cacheables/caches/disk.py:89-93 | opening for writing succeeds iff the parent is a directory and the path is not one |
| FileSystem.WriteFileEffect | cacheables/caches/disk.py:89-93 | writing a file makes it read back with the written bytes and changes no other path |
| FileSystem.ListDirs | cacheables/backends/disk.py:73-80 | the listed names are exactly the sub-directories of the path, without duplicates |
| FileSystem.CopyTree | cacheables/caches/disk.py:84 | copytree(dirs_exist_ok=True): raises at once when the source is no directory or a file blocks the destination; otherwise copies what it reaches and reports whether it skipped anything (a directory meeting a file, or a file whose place inside the directory it meets is a directory); its properties are those of the lemmas below |
| FileSystem.CopyTreeEffect | cacheables/caches/disk.py:84 | copytree with dirs_exist_ok keeps the tree well formed and nothing outside the destination changes. A reached file or directory lands at the same relative path; a file meeting a directory goes inside it under its own name. Every destination entry that receives nothing is kept, only copy targets and the destination's own directories change, and directories stay directories |
| FileSystem.CopyTreeKeepsDirs | cacheables/caches/disk.py:84 | copytree, raising or not, never puts anything in place of a directory |
| FileSystem.CopyTreeApart | cacheables/caches/disk.py:84 | copytree leaves every subtree apart from the destination as it was |
| FileSystem.NoConflictReached | cacheables/caches/disk.py:84 | when copytree raised nothing, it reached every entry of the source |
| FileSystem.CleanCopyPlaces | cacheables/caches/disk.py:84 | when copytree raised nothing, every source file is at the same place under the destination, or, where a directory stood there, inside that directory under its own name |
| FileSystem.CopyKeepsUnmatched | cacheables/caches/disk.py:84 | a destination entry with no source counterpart, and not the place of a source file nested into a directory, is kept |
| Documents.Render | cacheables/caches/disk.py:47-48 | the f-string text of a value: a string is itself, a number, boolean or null its Python text; an object gets none (see Left out) |
| CachesDisk.OutputName | cacheables/caches/disk.py:45-49 | a name exists iff the metadata has a `serializer` object and an `output_id`, neither it nor a stored extension being an object; without a stored extension the name is `<output_id>.bin` |
| CachesDisk.OutputNameWithExtension | cacheables/caches/disk.py:47-48 | with a stored extension the name is `<output_id>.<extension>` |
| CachesDisk.OutputNameIgnoresOthers | cacheables/caches/disk.py:45-49 | only `output_id` and `serializer` decide the output name, so updating `last_accessed` keeps it |
| CachesDisk.Store.Layout | cacheables/caches/disk.py:25-49 | input path is base/functions/<function_id>/inputs/<input_id>; metadata and output paths lie directly inside it |
| CachesDisk.Store.InputInsideFunction | cacheables/caches/disk.py:29-39 | an input directory lies inside its function's directory and its inputs directory |
| CachesDisk.Store.FunctionsDisjoint | cacheables/caches/disk.py:29-31 | distinct function keys own disjoint subtrees |
| CachesDisk.Store.InputsDisjoint | cacheables/caches/disk.py:37-39 | distinct cache keys own disjoint subtrees, and no key's directory lies on the path to another's |
| CachesDisk.Store.Listed | cacheables/caches/disk.py:64-69 | list(F) holds exactly the keys of F whose input directory exists |
| CachesDisk.Store.LoadMetadata | cacheables/caches/disk.py:95-98 | loading succeeds only from a metadata file; failures are OSError or JSONDecodeError |
| CachesDisk.Store.DumpMetadata | cacheables/caches/disk.py:89-93 | a failed dump is an OSError (for metadata `json.dump` accepts; see Left out) |
| CachesDisk.Store.ReadOutput | cacheables/caches/disk.py:102-109 | reading succeeds iff the metadata names an output file that exists; every failure is ReadException |
| CachesDisk.Store.WriteOutput | cacheables/caches/disk.py:111-120 | every failure of the output write is WriteException |
| CachesDisk.Store.GetLastAccessed | cacheables/caches/disk.py:129-133 | None exactly when the stored metadata has no `last_accessed`; fails when the metadata cannot be loaded |
| CachesDisk.Store.GetOutputPath | cacheables/caches/disk.py:45-56 | InputKeyNotFoundError iff the key does not exist; a metadata load failure passes through; KeyError without `serializer`, or with a `serializer` object but no `output_id`; AttributeError iff `serializer` is present but not an object; a success is the output path of the stored metadata |
| CachesDisk.Store.Exists | cacheables/caches/disk.py:60-62 | exists(k): k's input directory is a directory; DiskCache.Exists and Listed state it |
| CachesDisk.Store.Evict | cacheables/caches/disk.py:71-73 | rmtree of the input directory with errors ignored; its properties are those of EvictEffect and EvictKeepsOthers |
| CachesDisk.Store.Clear | cacheables/caches/disk.py:75-77 | rmtree of the function directory with errors ignored; its properties are those of ClearEffect |
| CachesDisk.Store.UpdateLastAccessed | cacheables/caches/disk.py:124-127 | load the metadata, set `last_accessed`, dump it back; a load failure passes through unchanged; its properties are those of UpdateSucceeds and UpdateEffect |
| CachesDisk.Store.EvictEffect | cacheables/caches/disk.py:71-73 | after evict the key does not exist, nothing outside its directory changed, and evicting again changes nothing |
| CachesDisk.Store.EvictKeepsOthers | cacheables/caches/disk.py:71-73 | evict leaves every other key's directory as it was |
| CachesDisk.Store.ClearEffect | cacheables/caches/disk.py:75-77 | after clear(F), list(F) is empty and every other function's directory is unchanged |
| CachesDisk.Store.SiblingsApart | cacheables/caches/disk.py:79-85 | two distinct function directories are apart, as adopt needs |
| CachesDisk.Store.Adopt | cacheables/caches/disk.py:79-85 | copytree onto the target, then rmtree of the source when it raised nothing; adopt(F, F) raises iff F is missing or holds a file; its properties are those of the Adopt lemmas |
| CachesDisk.Store.AdoptSteps | cacheables/caches/disk.py:79-85 | a successful adopt between two keys is a copy that raised nothing from an existing source directory, followed by the removal of the source |
| CachesDisk.Store.AdoptEffect | cacheables/caches/disk.py:79-85 | after a successful adopt(F1, F2), with F1 != F2: nothing is left within F1, F2's directories stay directories, and every other function's directory is untouched |
| CachesDisk.Store.AdoptPlacesFiles | cacheables/caches/disk.py:79-85 | after a successful adopt each of F1's files is in F2 at the same relative path, or, where F2 held a directory there, inside that directory under its own name |
| CachesDisk.Store.AdoptKeepsUnmatched | cacheables/caches/disk.py:79-85 | after a successful adopt F2's entries that F1 did not have survive unchanged, except the place of a nested file |
| CachesDisk.Store.AdoptMissingSource | cacheables/caches/disk.py:79-85 | adopting from a function with no directory raises and changes nothing |
| CachesDisk.Store.AdoptSelf | cacheables/caches/disk.py:79-85 | adopt(F, F) raises, changing nothing, iff F holds a file; otherwise it deletes all of F's entries |
| CachesDisk.Store.DumpSucceeds | cacheables/caches/disk.py:89-93 | dump_metadata succeeds iff no file blocks the input directory and the metadata path is not a directory; a failure changes nothing (for metadata `json.dump` accepts; see Left out) |
| CachesDisk.Store.DumpEffect | cacheables/caches/disk.py:89-98 | load_metadata after dump_metadata returns the dumped metadata; only the metadata file and its directories change |
| CachesDisk.Store.WriteSucceeds | cacheables/caches/disk.py:111-120 | write_output succeeds iff the metadata names an output, no file blocks the input directory and the output path is not a directory; a failure changes nothing |
| CachesDisk.Store.WriteEffect | cacheables/caches/disk.py:102-120 | read_output after write_output returns the written bytes; only the output file and its directories change |
| CachesDisk.Store.UpdateSucceeds | cacheables/caches/disk.py:124-127 | update_last_accessed succeeds iff the metadata loads; a failure changes nothing |
| CachesDisk.Store.UpdateEffect | cacheables/caches/disk.py:124-133 | the new metadata is the old one with only `last_accessed` set to the given time, which get_last_accessed then returns |
| CachesDisk.DiskCache.constructor | cacheables/caches/disk.py:14-23 | a cache over the given disk and base path |
| CachesDisk.DiskCache.Exists | cacheables/caches/disk.py:60-62 | exists(k) iff k's input directory is a directory |
| CachesDisk.DiskCache.List | cacheables/caches/disk.py:64-69 | one key per directory under F's inputs folder, each with F's function id, without duplicates |
| CachesDisk.DiskCache.Evict | cacheables/caches/disk.py:71-73 | the new tree is the evicted one |
| CachesDisk.DiskCache.Clear | cacheables/caches/disk.py:75-77 | the new tree is the cleared one |
| CachesDisk.DiskCache.Adopt | cacheables/caches/disk.py:79-85 | result and new tree are those of the adopt function |
| CachesDisk.DiskCache.LoadMetadata | cacheables/caches/disk.py:95-98 | returns the stored metadata, as the load function states |
| CachesDisk.DiskCache.DumpMetadata | cacheables/caches/disk.py:89-93 | result and new tree are those of the dump function |
| CachesDisk.DiskCache.ReadOutput | cacheables/caches/disk.py:102-109 | returns the stored output bytes, as the read function states |
| CachesDisk.DiskCache.WriteOutput | cacheables/caches/disk.py:111-120 | result and new tree are those of the write function |
| CachesDisk.DiskCache.UpdateLastAccessed | cacheables/caches/disk.py:124-127 | the read-modify-write gives the result and tree of the update function |
| CachesDisk.DiskCache.GetLastAccessed | cacheables/caches/disk.py:129-133 | returns the stored `last_accessed`, as the function states |
| CachesDisk.DiskCache.GetOutputPath | cacheables/caches/disk.py:51-56 | returns the output path, as the function states |
| CachesCache.Read | cacheables/caches/cache.py:84-88 | update_last_accessed, then load_metadata, then read_output with the metadata just loaded; the first failure stops it |
| CachesCache.Write | cacheables/caches/cache.py:90-94 | evict, then write_output, then dump_metadata, then update_last_accessed, in that order |
| CachesCache.AfterWriteOutput | cacheables/caches/cache.py:91-92 | after the evict and output write, k's directory holds only the output file and its directory |
| CachesCache.AfterDump | cacheables/caches/cache.py:91-93 | after the metadata dump, k's directory holds the output file and the metadata file, which loads as m |
| CachesCache.WriteSucceeds | cacheables/caches/cache.py:90-94 | write succeeds iff the metadata names an output file and no file blocks k's input directory (for metadata `json.dump` accepts; see Left out) |
| CachesCache.UpdateRewrites | cacheables/caches/disk.py:124-127 | update_last_accessed on a readable entry rewrites only the metadata file, with `last_accessed` set |
| CachesCache.WriteEffect | cacheables/caches/cache.py:90-94 | after write, k's directory holds exactly its metadata (m with only `last_accessed` set) and the new output file; any older output is gone |
| CachesCache.WriteStores | cacheables/caches/cache.py:90-94 | after write, k's metadata loads as m with `last_accessed` set, and k's directory holds only the output and metadata files |
| CachesCache.WriteReadsOutput | cacheables/caches/cache.py:90-94 | after write, read_output with m returns the bytes written, unless the output is named `metadata.json` |
| CachesCache.RewriteKeepsOutput | cacheables/caches/disk.py:102-109 | rewriting the metadata file does not change what read_output gives for an output not named `metadata.json` |
| CachesCache.WriteNamesOutput | cacheables/caches/cache.py:90-94 | after write, get_output_path names the output file just written |
| CachesCache.NamesStoredOutput | cacheables/caches/disk.py:51-56 | for an existing key whose stored metadata names an output, get_output_path gives that output's path |
| CachesCache.WriteThenRead | cacheables/caches/cache.py:84-94 | read right after write returns the bytes written |
| CachesCache.ReadReturnsStored | cacheables/caches/cache.py:84-88 | read returns the stored output of the stored metadata and changes only the metadata file |
| CachesCache.ReadSelfNamed | cacheables/caches/cache.py:84-88 | when the stored metadata names `metadata.json` as the output file, read returns the freshly stamped metadata document |
| CachesCache.MetadataNameCollision | cacheables/caches/cache.py:90-94 | when the output file is named `metadata.json`, read after write returns the metadata document instead of the bytes written |
| CachesCache.ReadWithoutMetadata | cacheables/caches/cache.py:85 | read fails, changing nothing, when k's metadata is missing or unreadable |
| CachesCache.OtherKeysUntouched | cacheables/caches/cache.py:84-94 | a change confined to one key's directory leaves every other key's directory as it was |
| CachesCache.WriteKeepsOthers | cacheables/caches/cache.py:90-94 | write on k, successful or not, changes no other key's directory |
| CachesCache.ReadKeepsOthers | cacheables/caches/cache.py:84-88 | read on k, successful or not, changes no other key's directory |
| Scopes.Restrict | cacheables/core.py:220-224 | a flag is on after entering iff it was requested and was not off before |
| Scopes.Entered | cacheables/controllers.py:16-17 | controllers install the requested pair; the cores install the most restrictive of requested and current |
| Scopes.NestedPrefix | cacheables/controllers.py:19-24 | a prefix of well-nested blocks is well nested |
| Scopes.RunKeepsBase | cacheables/controllers.py:19-24 | nested blocks never disturb the pairs saved before them; once all are closed the starting pair is back |
| Scopes.BalancedRestores | cacheables/controllers.py:16-24 | blocks entered and left in LIFO order leave the flags as they were before the outermost one |
| Scopes.OffStaysOff | cacheables/core.py:218-229 | under the most-restrictive rule a flag that is off stays off in every nested block |
| Controllers.Resolve | cacheables/controllers.py:31-45 | False iff some level is False; True iff none is False and some is True; None iff all are unset |
| Controllers.CombineAllResolves | cacheables/controllers.py:31-45 | the nested if/elif chain over the levels computes that resolution |
| Controllers.CombineLaws | cacheables/controllers.py:76-92 | the two-level combination is commutative, associative, idempotent, has unset as identity and False as absorbing |
| Controllers.Lower | cacheables/controllers.py:96-97 | lower-casing keeps the length and maps each character |
| Controllers.LowerLetter | cacheables/controllers.py:96-97 | a character lower-cases to a given ASCII letter iff it is that letter or its capital |
| Controllers.SaysTrueSpellings | cacheables/controllers.py:96-97 | a value reads as true iff it is "true" in any mix of cases |
| Controllers.EnvVarEnabled | cacheables/controllers.py:94-108 | False when DISABLED is true (with or without ENABLED), True when only ENABLED is true, None otherwise |
| Controllers.GlobalCacheController.constructor | cacheables/controllers.py:51-56 | a new global controller starts with both flags unset |
| Controllers.GlobalCacheController.Enable | cacheables/controllers.py:58-71 | installs the requested pair and returns the previous one |
| Controllers.GlobalCacheController.Disable | cacheables/controllers.py:73-74 | behaves as enable(False, False) |
| Controllers.GlobalCacheController.Restore | cacheables/controllers.py:64-69 | leaving the block puts back exactly the saved pair |
| Controllers.GlobalCacheController.IsReadEnabled | cacheables/controllers.py:76-83 | the resolution of the global read flag and the environment |
| Controllers.GlobalCacheController.IsWriteEnabled | cacheables/controllers.py:85-92 | the resolution of the global write flag and the environment |
| Controllers.GlobalSlot.constructor | cacheables/controllers.py:48-50 | no global controller exists yet |
| Controllers.GlobalSlot.Get | cacheables/controllers.py:51-56 | the first call creates the controller; every later call returns that same instance |
| Controllers.EnableAllCaches | cacheables/controllers.py:111 | enables the single global controller, creating it on first use, and returns its previous pair (both unset for a new controller) |
| Controllers.DisableAllCaches | cacheables/controllers.py:112 | disables the single global controller, creating it on first use, and returns its previous pair (both unset for a new controller) |
| Controllers.CacheController.constructor | cacheables/controllers.py:8-11 | both flags unset; the global is the shared instance |
| Controllers.CacheController.Enable | cacheables/controllers.py:13-26 | installs the requested pair and returns the previous one |
| Controllers.CacheController.Disable | cacheables/controllers.py:28-29 | behaves as enable(False, False) |
| Controllers.CacheController.Restore | cacheables/controllers.py:19-24 | leaving the block puts back exactly the saved pair |
| Controllers.CacheController.IsReadEnabled | cacheables/controllers.py:39-45 | the resolution of instance, global and environment read levels; the write fields are not consulted |
| Controllers.CacheController.IsWriteEnabled | cacheables/controllers.py:31-37 | the resolution of instance, global and environment write levels; the read fields are not consulted |
| Controllers.SharedGlobal | cacheables/controllers.py:8-11 | any two instance controllers share the one global controller |
| Staging.Commit | cacheables/backends/disk.py:164-179 | the dump into a temporary directory, the checks that it holds files, the mkdir of the parent and the copytree onto the output path; its properties are those of the Commit lemmas |
| Staging.CommitSucceeds | cacheables/backends/disk.py:164-179 | the staged write succeeds iff the dump produced files and the output path can hold a directory |
| Staging.CommitFailureKeeps | cacheables/backends/disk.py:164-179 | a failed staged write leaves the filesystem, and so the previous output, as it was |
| Staging.CommitSuccess | cacheables/backends/disk.py:172-177 | a successful staged write leaves exactly the dumped files at the output path, changing nothing else but its parents |
| Staging.CommitThenLoad | cacheables/backends/disk.py:145-179 | with a faithful serializer, loading after a successful staged write returns the dumped object |
| Ordering.TextLeReflexive | cacheables/backends/disk.py:91 | Python's string order is reflexive |
| Ordering.TextLeTotal | cacheables/backends/disk.py:91 | Python's string order is total |
| Ordering.TextLeTransitive | cacheables/backends/disk.py:91 | Python's string order is transitive |
| Ordering.TextLeAntisymmetric | cacheables/backends/disk.py:91 | Python's string order is antisymmetric |
| Ordering.SortedCons | cacheables/backends/disk.py:91 | a least element in front of a sorted sequence keeps it sorted |
| Ordering.Insert | cacheables/backends/disk.py:91 | inserting into a sorted sequence keeps it sorted and adds exactly that element |
| Ordering.WithKeyAppend | cacheables/backends/disk.py:91 | the elements with a given key of a sequence with one more element at the end are the old ones, followed by that element when its key matches |
| Ordering.InsertStable | cacheables/backends/disk.py:91 | inserting into a sorted sequence puts the new element after every element with its key and keeps the order of the others |
| Ordering.InsertNext | cacheables/backends/disk.py:91 | one insertion step keeps, for every key, the elements with that key in listing order |
| Ordering.InsertAll | cacheables/backends/disk.py:91 | the insertion sort returns a sorted permutation in which, for every key, the elements with that key keep their listing order |
| Ordering.SortByCreatedAt | cacheables/backends/disk.py:91 | KeyError iff some version lacks `created_at`; TypeError iff all have it, there are two or more and some is not a string; otherwise a sorted permutation that keeps versions with equal `created_at` in their listing order (list.sort is stable) |
| BackendsDisk.Store.Layout | cacheables/backends/disk.py:35-69 | output path base/functions/<f>/versions/<v>/inputs/<i>/output; version metadata .../versions/<v>/metadata.json |
| BackendsDisk.Store.OutputPathsDistinct | cacheables/backends/disk.py:59-69 | distinct input keys give distinct output paths, neither inside the other |
| BackendsDisk.Store.MetadataApartFromOutputs | cacheables/backends/disk.py:51-69 | version metadata files and output directories never contain one another |
| BackendsDisk.Store.ReadVersionMetadata | cacheables/backends/disk.py:120-123 | reads only from a file; failures are OSError or JSONDecodeError |
| BackendsDisk.Store.WriteVersionMetadata | cacheables/backends/disk.py:97-103 | writes the metadata file only when nothing is at its path yet, after making the version directory; its properties are those of the three lemmas below (for metadata `json.dump` accepts; see Left out) |
| BackendsDisk.Store.WriteVersionMetadataSucceeds | cacheables/backends/disk.py:97-103 | succeeds iff the file exists or no file blocks the version directory; an existing file is left untouched (for metadata `json.dump` accepts; see Left out) |
| BackendsDisk.Store.WriteVersionMetadataEffect | cacheables/backends/disk.py:97-123 | a new file reads back as the written metadata; only the file and its directories change |
| BackendsDisk.Store.FirstWriterWins | cacheables/backends/disk.py:97-103 | a later write with different metadata leaves the first version's metadata in place |
| BackendsDisk.Store.ReadAll | cacheables/backends/disk.py:84-90 | the metadata of each listed version in order; fails iff some read fails, with that read's error |
| BackendsDisk.Store.ReadAllAppend | cacheables/backends/disk.py:84-90 | reading one more version appends its metadata or fails with its error |
| BackendsDisk.Store.ReadAllPrefixFails | cacheables/backends/disk.py:84-90 | the first failure decides the outcome whatever follows |
| BackendsDisk.Store.OutputExists | cacheables/backends/disk.py:141-143 | the output path is a directory; DiskBackend.OutputExists states it |
| BackendsDisk.Store.ReadOutput | cacheables/backends/disk.py:145-151 | succeeds iff the serializer loads; every failure is LoadException |
| BackendsDisk.Store.WriteOutput | cacheables/backends/disk.py:153-179 | every failure is DumpException |
| BackendsDisk.Store.WriteOutputFailure | cacheables/backends/disk.py:164-179 | fails iff the serializer raises or dumps nothing or a file is in the way; a failure leaves the prior output untouched |
| BackendsDisk.Store.WriteOutputEffect | cacheables/backends/disk.py:164-179 | after a successful write the output exists, holds exactly the dumped files, loads back and nothing else changed |
| BackendsDisk.Store.WriteOutputKeepsOthers | cacheables/backends/disk.py:153-179 | writing one input's output leaves every other output and every version metadata file unchanged |
| BackendsDisk.DiskBackend.constructor | cacheables/backends/disk.py:25-33 | a backend over the given disk, base path and serializer |
| BackendsDisk.DiskBackend.ListVersionKeys | cacheables/backends/disk.py:73-80 | one key per folder under F's versions directory, each with F's function id, without duplicates |
| BackendsDisk.DiskBackend.ListVersions | cacheables/backends/disk.py:82-92 | each version folder listed once; their metadata sorted by `created_at` as a stable permutation; a read error, KeyError or TypeError exactly as the reads and the sort give them |
| BackendsDisk.DiskBackend.ReadVersions | cacheables/backends/disk.py:84-90 | the loop reading the listed versions one by one gives exactly the listing's metadata, or the first read error |
| BackendsDisk.DiskBackend.WriteVersionMetadata | cacheables/backends/disk.py:97-103 | result and new tree are those of the write function |
| BackendsDisk.DiskBackend.ReadVersionMetadata | cacheables/backends/disk.py:120-123 | returns what the read function states |
| BackendsDisk.DiskBackend.OutputExists | cacheables/backends/disk.py:141-143 | holds iff the output path is a directory |
| BackendsDisk.DiskBackend.ReadOutput | cacheables/backends/disk.py:145-151 | returns what the read function states |
| BackendsDisk.DiskBackend.WriteOutput | cacheables/backends/disk.py:153-179 | result and new tree are those of the write function |
| CoreCommon.CheckId | cacheables/core.py:90-110 | an id is accepted iff the hook returned a non-empty string; otherwise the given exception |
| CoreCommon.CacheDisabledExactly | cacheables/core.py:172 | the cache is off iff DISABLE_CACHEABLE is set to "true" in any mix of cases |
| CacheableCore.Config.InputId | cacheable/core.py:124-133 | the input-id hook's answer, accepted as CheckId states, else InputIdException |
| CacheableCore.Config.VersionId | cacheable/core.py:135-144 | the version-id hook's answer, accepted as CheckId states, else VersionIdException |
| CacheableCore.Config.OutputPathsDistinct | cacheable/core.py:146-173 | distinct (version id, input id) pairs give distinct output paths |
| CacheableCore.Config.PathFromInputs | cacheable/core.py:146-159 | fails iff an id hook fails, the input hook first; otherwise base/functions/<name>/versions/<vid>/inputs/<iid>/outputs |
| CacheableCore.Config.PathFromIds | cacheable/core.py:161-173 | a given non-empty version id is used as it is, otherwise the current one; PathsAgree relates it to get_path_from_inputs |
| CacheableCore.Config.PathsAgree | cacheable/core.py:146-173 | get_path_from_ids with no, an empty or the current version id gives the path of get_path_from_inputs |
| CacheableCore.Config.ReadFromCache | cacheable/core.py:238-242 | succeeds iff the serializer loads; every failure is LoadException |
| CacheableCore.Config.WriteToCache | cacheable/core.py:244-269 | every failure is DumpException |
| CacheableCore.Config.WriteToCacheEffect | cacheable/core.py:244-269 | succeeds iff the dump gives files and a directory can be made; a failure keeps the old output; a success leaves exactly the dumped files, which load back |
| CacheableCore.Config.LoadFromInputs | cacheable/core.py:271-275 | the path from the inputs, MissingResultException when nothing is there, else the cache read; LoadOutcomes states it |
| CacheableCore.Config.LoadFromIds | cacheable/core.py:277-291 | the path from the ids, MissingResultException when nothing is there, else the cache read; LoadOutcomes states it |
| CacheableCore.Config.LoadOutcomes | cacheable/core.py:271-291 | MissingResultException when nothing is at the path, else the load; both loads agree for the current version |
| CacheableCore.Config.Call | cacheable/core.py:175-220 | the call flow: bypass, hit, miss with write; its properties are those of CallBypass, CallHit, CallStores and CallMemoizes |
| CacheableCore.Config.CallBypass | cacheable/core.py:176-193 | with DISABLE_CACHEABLE, or a failing id hook, the call is the plain function and the store is untouched |
| CacheableCore.Config.CallHit | cacheable/core.py:195-220 | a hit iff reading is on, the path exists and the load succeeds; a hit returns the load and writes nothing; otherwise the function's result |
| CacheableCore.Config.CallStores | cacheable/core.py:208-220 | the store changes only on a miss with writing on and a successful write; a failed write is swallowed |
| CacheableCore.Config.CallMemoizes | cacheable/core.py:175-220 | after a call that stored its result, the same call is a hit returning that result |
| CacheableCore.CacheableFunction.constructor | cacheable/core.py:99-122 | both flags start unset |
| CacheableCore.CacheableFunction.EnableCache | cacheable/core.py:222-231 | installs the most restrictive of requested and current flags and returns the previous pair |
| CacheableCore.CacheableFunction.DisableCache | cacheable/core.py:233-236 | behaves as enable_cache(False, False) |
| CacheableCore.CacheableFunction.Restore | cacheable/core.py:228-231 | leaving the block puts back the saved pair |
| CacheableCore.CacheableFunction.WriteToCache | cacheable/core.py:244-269 | result and new tree are those of the write function |
| CacheableCore.CacheableFunction.Call | cacheable/core.py:175-220 | result, hit and new tree are those of the call function under the current flags |
| CacheableCore.CacheableFunction.LoadFromInputs | cacheable/core.py:271-275 | returns what the load function states |
| CacheableCore.CacheableFunction.LoadFromIds | cacheable/core.py:277-291 | returns what the load function states |
| CacheableCore.EnableCache | cacheable/core.py:302-309 | every registered function enters its own most-restrictive block; each previous pair is saved |
| CacheableCore.DisableCache | cacheable/core.py:313-317 | every registered function has both flags off |
| CacheableCore.RestoreAll | cacheable/core.py:302-309 | every registered function gets back its saved pair |
| CacheablesCore.Config.InputId | cacheables/core.py:90-99 | the input-id hook's answer, accepted as CheckId states, else InputIdException |
| CacheablesCore.Config.VersionId | cacheables/core.py:101-110 | the version-id hook's answer, accepted as CheckId states, else VersionIdException |
| CacheablesCore.Config.FunctionPath | cacheables/core.py:112-120 | base/functions/<name>; OutputPathLayout spells out the chain built on it |
| CacheablesCore.Config.VersionPath | cacheables/core.py:122-132 | a missing or empty version id means the current one; the current one's failure is VersionIdException |
| CacheablesCore.Config.InputPath | cacheables/core.py:134-146 | the version path followed by inputs/<input_id>; OutputPathLayout spells out the chain |
| CacheablesCore.Config.OutputPath | cacheables/core.py:148-158 | the input path followed by outputs; OutputPathLayout and OutputPathsApart state its shape and injectivity |
| CacheablesCore.Config.OutputPathLayout | cacheables/core.py:112-158 | the chain gives base/functions/<name>/versions/<vid>/inputs/<iid>/outputs, and fails only when the current version id is needed and fails |
| CacheablesCore.Config.OutputPathsApart | cacheables/core.py:112-158 | distinct id pairs give output paths neither inside the other |
| CacheablesCore.Config.PathFromInputs | cacheables/core.py:160-163 | fails iff an id hook fails, the input hook first; otherwise the chain's output path for the current version |
| CacheablesCore.Config.PathFromIds | cacheables/core.py:165-169 | the output path of the given ids; a missing or empty version id means the current one, as OutputPathLayout states |
| CacheablesCore.Config.ReadFromCache | cacheables/core.py:236-240 | succeeds iff the serializer loads; every failure is LoadException |
| CacheablesCore.Config.VersionRecord | cacheables/core.py:294-313 | the record holds `created_at` (time + "Z"), `version_id`, `metadata`, and `git` exactly when git answered |
| CacheablesCore.Config.DumpVersionMetadata | cacheables/core.py:288-318 | nothing when the file exists; otherwise a missing git or a file in the way raises, else the record is written; DumpVersionMetadataEffect states it (for metadata `json.dump` accepts; see Left out) |
| CacheablesCore.Config.DumpVersionMetadataEffect | cacheables/core.py:288-318 | an existing file stays; otherwise it is written iff git is present and no file blocks the directory, and reads back as the record; nothing else changes (for metadata `json.dump` accepts; see Left out) |
| CacheablesCore.Config.LoadVersionMetadata | cacheables/core.py:335-344 | a missing file reads as an empty record; failures are OSError or JSONDecodeError |
| CacheablesCore.Config.LoadAll | cacheables/core.py:350-356 | the metadata of each listed version in order; fails iff some load fails |
| CacheablesCore.Config.LoadAllAppend | cacheables/core.py:350-356 | loading one more version appends its record or fails with its error |
| CacheablesCore.Config.LoadAllPrefixFails | cacheables/core.py:350-356 | the first failure decides the outcome whatever follows |
| CacheablesCore.Config.WriteToCache | cacheables/core.py:242-268 | every failure, of the copy or of the version metadata, is DumpException |
| CacheablesCore.Config.MetadataApartFromOutputs | cacheables/core.py:112-158 | the version metadata file and the output directories never contain one another |
| CacheablesCore.Config.DumpKeepsOutputs | cacheables/core.py:288-318 | recording version metadata leaves every output directory as it was |
| CacheablesCore.Config.WriteToCacheOutput | cacheables/core.py:242-268 | a failed copy changes nothing; a successful copy leaves exactly the dumped files, which load back, even when the metadata step then raises; success iff both steps succeed |
| CacheablesCore.Config.CopyKeepsVersion | cacheables/core.py:259-266 | a copy confined to the output directory, which it leaves a directory, keeps the version metadata file as it was and leaves no file on the way to the version directory |
| CacheablesCore.Config.RecordOnto | cacheables/core.py:288-318 | on a tree that agrees on the metadata file, recording keeps an existing record, makes a new one read back as this write's record, and fails only for a missing git (for metadata `json.dump` accepts; see Left out) |
| CacheablesCore.Config.WriteRecordsVersion | cacheables/core.py:242-318 | first writer wins: an existing record is kept; a new one reads back as this write's record; in a fresh version only a missing git makes the write raise (for metadata `json.dump` accepts; see Left out) |
| CacheablesCore.Config.LoadFromInputs | cacheables/core.py:270-274 | the path from the inputs, MissingResultException when nothing is there, else the cache read; LoadOutcomes states it |
| CacheablesCore.Config.LoadFromIds | cacheables/core.py:276-280 | the path from the ids, MissingResultException when nothing is there, else the cache read; LoadOutcomes states it |
| CacheablesCore.Config.LoadOutcomes | cacheables/core.py:270-280 | MissingResultException when nothing is at the path, else the load; both loads agree for the current version |
| CacheablesCore.Config.Call | cacheables/core.py:171-216 | the call flow: bypass, hit, miss with write; its properties are those of CallBypass, CallHit and CallMemoizes |
| CacheablesCore.Config.CallBypass | cacheables/core.py:171-189 | with DISABLE_CACHEABLE, or a failing id hook, the call is the plain function and the store is untouched |
| CacheablesCore.Config.CallHit | cacheables/core.py:191-216 | a hit iff reading is on, the path exists and the load succeeds; a hit returns the load and writes nothing; otherwise the function's result |
| CacheablesCore.Config.CallMemoizes | cacheables/core.py:171-216 | after a call whose copy succeeded, the same call is a hit returning the function's result |
| CacheablesCore.CacheableFunction.constructor | cacheables/core.py:67-88 | both flags start unset |
| CacheablesCore.CacheableFunction.EnableCache | cacheables/core.py:218-229 | installs the most restrictive of requested and current flags and returns the previous pair |
| CacheablesCore.CacheableFunction.DisableCache | cacheables/core.py:231-234 | behaves as enable_cache(False, False) |
| CacheablesCore.CacheableFunction.Restore | cacheables/core.py:226-229 | leaving the block puts back the saved pair |
| CacheablesCore.CacheableFunction.WriteToCache | cacheables/core.py:242-268 | result and new tree are those of the write function |
| CacheablesCore.CacheableFunction.Call | cacheables/core.py:171-216 | result, hit and new tree are those of the call function under the current flags |
| CacheablesCore.CacheableFunction.LoadFromInputs | cacheables/core.py:270-274 | returns what the load function states |
| CacheablesCore.CacheableFunction.LoadFromIds | cacheables/core.py:276-280 | returns what the load function states |
| CacheablesCore.CacheableFunction.GetVersions | cacheables/core.py:346-362 | each version directory listed once; their metadata sorted by `created_at` as a stable permutation; a version without metadata gives KeyError |
| CacheablesCore.CacheableFunction.LoadVersions | cacheables/core.py:350-356 | the loop loading the version directories one by one gives exactly their metadata, or the first load error |
| CacheablesCore.EnableCache | cacheables/core.py:367-374 | every registered function enters its own most-restrictive block; each previous pair is saved |
| CacheablesCore.DisableCache | cacheables/core.py:379-382 | every registered function has both flags off |
| CacheablesCore.RestoreAll | cacheables/core.py:367-374 | every registered function gets back its saved pair |

## Left out

- Ids are taken as single, non-empty path components with no separator. pathlib's treatment of `/`, `.`, `..` and of an empty component is not modelled. Without this assumption the layouts are not injective.
- JSON text is a codec that is assumed lossless. A metadata value is a string, an object or a JSON scalar (number, boolean, null); a scalar carries the text `str` gives it, which is what the output file name's f-string uses. Values `json.dump` cannot encode (a `datetime`, a `Path`, a `set`) cannot be written in the model, so `encode` is total. In Python they make `json.dump` raise TypeError after part of the document is already in the file; the members that promise a dump succeeds are listed below. Lower-casing covers ASCII letters only.
- CachesDisk.Store.DumpMetadata: metadata is limited to values `json.dump` accepts. With any other value Python raises TypeError and leaves a truncated metadata file.
- CachesDisk.Store.DumpSucceeds: the success condition holds only for metadata `json.dump` accepts; otherwise the dump raises TypeError after writing part of the file.
- CachesCache.WriteSucceeds: the success condition holds only for metadata `json.dump` accepts; otherwise dump_metadata raises TypeError, after the output was written and with a truncated metadata file.
- BackendsDisk.Store.WriteVersionMetadata: metadata is limited to values `json.dump` accepts. With any other value Python raises TypeError and leaves a truncated file, which the existence test then keeps for good.
- BackendsDisk.Store.WriteVersionMetadataSucceeds: the success condition holds only for metadata `json.dump` accepts; otherwise the write raises TypeError and the truncated file it leaves is kept by every later write.
- CacheablesCore.Config.DumpVersionMetadata: the user metadata in the record is limited to values `json.dump` accepts. With any other value Python raises TypeError, leaves a truncated `metadata.json` that every later write keeps, and `get_versions` then raises JSONDecodeError.
- CacheablesCore.Config.DumpVersionMetadataEffect: "written iff" and the read-back hold only for a record `json.dump` accepts; otherwise the dump raises TypeError and the truncated file stays.
- CacheablesCore.Config.RecordOnto: "fails only for a missing git" holds only for a record `json.dump` accepts; otherwise recording raises TypeError and leaves a truncated file.
- CacheablesCore.Config.WriteRecordsVersion: "only a missing git makes the write raise" holds only for a record `json.dump` accepts; otherwise the write raises DumpException and the truncated record is kept by every later write.
- CachesDisk.Store.LoadMetadata, BackendsDisk.Store.ReadVersionMetadata and CacheablesCore.Config.LoadVersionMetadata: a file that is not valid UTF-8 raises UnicodeDecodeError in Python; the model reports it as JSONDecodeError, because the codec turns bytes into a document in one step.
- FileSystem.ListDirs: `Path.glob("*/")` yields only directories from Python 3.11 on, which the model assumes; earlier versions yield regular files too.
- The clock (`utcnow().isoformat()`), git, hashing (`compute_input_id`, `compute_version_id`) and the serializers are parameters. The user id hooks are parameters too.
- The version-id hook is called with fixed arguments, so it is modelled as one outcome. The same hook is called again inside `_dump_version_metadata`; that call is assumed to give the same id.
- The wrapped function is total: an exception raised by `fn` itself is not modelled.
- Default base paths, `os.getcwd()`, `fn.__name__` and `Path.resolve` are not modelled.
- The `name`/`base_path` overrides of the `_construct_*` chain are not modelled; no core method passes them.
- `_get_directory_statistics` and the `statistics` entry of `get_versions` are not modelled; they depend on glob and file sizes.
- `datetime.fromisoformat` in `get_last_accessed` is not modelled: the stored value is returned as it is.
- Atomicity, crash safety and concurrency are not modelled. Temporary directories and their cleanup are not modelled.
- Logging and warnings are left out. So are the CLI, the decorator, the abstract backend interface and the `pass` stubs of the backend.
- The `_instances` registry is a set passed to the module-level `enable_cache`/`disable_cache` and restore methods, and holds functions of one argument and result type. Registration in the constructor is not modelled.
- CachesCache.WriteThenRead: requires that the output file is not named `metadata.json`. With that name, the metadata dump overwrites the output; CachesCache.MetadataNameCollision states what read then returns.
- Ordering.SortByCreatedAt: a mix of `created_at` values that Python could still compare (numbers only, say) is reported as TypeError. Only string keys are ordered.
- CacheablesCore.CacheableFunction.GetVersions: a metadata file whose JSON is not an object is reported as JSONDecodeError rather than the TypeError of `**`.
- CachesDisk.Store.LoadMetadata: a metadata file whose JSON is a list, string, number or null is reported as JSONDecodeError; `json.load` returns that value. The codec decodes objects only.
- CachesDisk.DiskCache.LoadMetadata: the same non-object JSON gap as the function it follows.
- CachesDisk.Store.GetLastAccessed: non-object JSON metadata is reported as JSONDecodeError; Python's `in` test on a list or string returns None, or raises TypeError on a number.
- CachesDisk.DiskCache.GetLastAccessed: the same non-object JSON gap as the function it follows.
- BackendsDisk.Store.ReadVersionMetadata: a version metadata file whose JSON is not an object is reported as JSONDecodeError; `json.load` returns that value.
- BackendsDisk.DiskBackend.ReadVersionMetadata: the same non-object JSON gap as the function it follows.
- BackendsDisk.DiskBackend.ListVersions: a version metadata file whose JSON is not an object is reported as JSONDecodeError rather than the TypeError of `**`.
- CacheablesCore.Config.LoadVersionMetadata: a version metadata file whose JSON is not an object is reported as JSONDecodeError; `json.loads` returns that value.
- Documents.Render: an object gets no text. Python's f-string renders a dict by its repr, which depends on key insertion order, and a map keeps no order.
- CachesDisk.OutputName: an object-valued `output_id` or `extension` gives no name, so read_output and write_output fail; Python builds a name from the dict's repr.
- CachesDisk.Store.GetOutputPath: an object-valued `output_id` or `extension` raises KeyError; Python returns a path built from the dict's repr.
- CachesDisk.DiskCache.GetOutputPath: the same object-valued name gap as the function it follows.
