/**
 * The "dump to a temporary directory, check it, then replace" write shared
 * by the disk backend and both cacheable-function cores. The serializer
 * dumps into a fresh empty directory; the write goes ahead only when that
 * directory is not empty, then creates the parent of the output directory,
 * removes an existing output directory and copies the dumped files in.
 */
module Staging {
  import opened Wrappers
  import opened FileSystem

  /** What a serializer's dump leaves in the fresh temporary directory. */
  datatype DumpOutcome = Raised | Wrote(files: Tree)

  /** A dump result that a real directory can hold. */
  ghost predicate Sound(d: DumpOutcome) {
    d.Wrote? ==> RelativeTree(d.files)
  }

  /** What a serializer's load finds at a path: nothing, or the node there with what lies below it. */
  datatype Entry = Missing | Present(node: Node, below: Tree)

  function EntryAt(t: Tree, p: Path): Entry {
    if p in t then Present(t[p], Subtree(t, p)) else Missing
  }

  /**
   * A serializer: `dump` writes an object into a fresh empty directory,
   * `load` reads one back from what lies at a path or fails.
   */
  datatype Serializer<!R> = Serializer(dump: R -> DumpOutcome, load: Entry -> Option<R>)

  /** Every dump describes a directory a real filesystem can hold. */
  ghost predicate Dumps<R(!new)>(s: Serializer<R>) {
    forall r :: Sound(s.dump(r))
  }

  /** Loading a directory holding exactly what a dump wrote gives back the dumped object. */
  ghost predicate Faithful<R(!new)>(s: Serializer<R>) {
    forall r :: s.dump(r).Wrote? && s.dump(r).files != map[] ==> s.load(Present(Dir, s.dump(r).files)) == Some(r)
  }

  /** Whether the write went through, with the filesystem afterwards. */
  datatype Committed = Committed(ok: bool, fs: Tree)

  /**
   * Each failure raises out of the `try` and is reported by the caller as a
   * DumpException: the dump raised, it left the directory empty, a prefix of
   * the output's parent is a regular file (mkdir raises), or the output
   * path itself is a regular file (copytree refuses an existing target).
   */
  function Commit(t: Tree, out: Path, d: DumpOutcome): Committed
    requires out != []
  {
    if d.Raised? || d.files == map[] then Committed(false, t)
    else if !NoFileOnPath(t, Parent(out)) then Committed(false, t)
    else
      var made := MakeDirs(t, Parent(out));
      if IsFile(made, out) then Committed(false, made)
      else Committed(true, Graft(RemoveTree(made, out), out, d.files))
  }

  /** The write succeeds exactly when the dump produced files and the path can hold a directory. */
  lemma CommitSucceeds(t: Tree, out: Path, d: DumpOutcome)
    requires WellFormed(t) && out != []
    ensures Commit(t, out, d).ok <==>
      d.Wrote? && d.files != map[] && NoFileOnPath(t, Parent(out)) && !IsFile(t, out)
  {
    if d.Wrote? && d.files != map[] && NoFileOnPath(t, Parent(out)) {
      MakeDirsEffect(t, Parent(out));
      assert out !in Prefixes(Parent(out));
    }
  }

  /** A failed write leaves the filesystem, and so any previous output, as it was. */
  lemma CommitFailureKeeps(t: Tree, out: Path, d: DumpOutcome)
    requires WellFormed(t) && out != []
    requires !Commit(t, out, d).ok
    ensures Commit(t, out, d).fs == t
  {
    if d.Wrote? && d.files != map[] && NoFileOnPath(t, Parent(out)) {
      var made := MakeDirs(t, Parent(out));
      MakeDirsEffect(t, Parent(out));
      assert out !in Prefixes(Parent(out));
      assert IsFile(t, out);
      MakeDirsNoop(t, Parent(out));
    }
  }

  /**
   * A successful write leaves a directory at `out` holding exactly the
   * dumped files, and touches nothing outside `out` except by creating
   * its parent directories.
   */
  lemma CommitSuccess(t: Tree, out: Path, d: DumpOutcome)
    requires WellFormed(t) && out != [] && Sound(d)
    requires Commit(t, out, d).ok
    ensures WellFormed(Commit(t, out, d).fs)
    ensures IsDir(Commit(t, out, d).fs, out)
    ensures Subtree(Commit(t, out, d).fs, out) == d.files
    ensures ChangesOnlyUnder(t, Commit(t, out, d).fs, out)
  {
    CommitSucceeds(t, out, d);
    var made := MakeDirs(t, Parent(out));
    MakeDirsEffect(t, Parent(out));
    MakeDirsChanges(t, Parent(out), out);
    var cleared := RemoveTree(made, out);
    RemoveTreeEffect(made, out);
    SameOutsideChanges(made, cleared, out);
    assert Parent(out) in Prefixes(Parent(out)) by {
      assert Parent(out)[..|Parent(out)|] == Parent(out);
    }
    assert IsDir(cleared, Parent(out));
    assert forall p :: p in cleared ==> !Within(out, p);
    var r := Graft(cleared, out, d.files);
    GraftWellFormed(cleared, out, d.files);
    GraftHolds(cleared, out, d.files);
    GraftSubtree(cleared, out, d.files);
    GraftOutside(cleared, out, d.files);
    SameOutsideChanges(cleared, r, out);
    ChangesCompose(t, made, cleared, out);
    ChangesCompose(t, cleared, r, out);
  }

  /** After a successful write, loading the output path gives back the object that was dumped. */
  lemma CommitThenLoad<R(!new)>(t: Tree, out: Path, s: Serializer<R>, r: R)
    requires WellFormed(t) && out != [] && Dumps(s) && Faithful(s)
    requires Commit(t, out, s.dump(r)).ok
    ensures s.load(EntryAt(Commit(t, out, s.dump(r)).fs, out)) == Some(r)
  {
    assert Sound(s.dump(r));
    CommitSuccess(t, out, s.dump(r));
  }
}
