/**
 * An abstract hierarchical filesystem, the only shared resource of the
 * cache. A snapshot is a map from absolute paths (the sequence of their
 * components, the root being []) to what is there: a directory or a regular
 * file with its bytes. The functions below are the filesystem primitives the
 * cache calls (pathlib's mkdir, open, shutil's rmtree and copytree, glob)
 * with the outcomes those primitives have on such a snapshot.
 */
module FileSystem {
  import opened Wrappers

  type Byte = bv8
  type Bytes = seq<Byte>

  /** An absolute path, components from the root down. */
  type Path = seq<string>

  datatype Node = Dir | File(data: Bytes)

  /** Every existing path with the node found there. */
  type Tree = map<Path, Node>

  function Parent(p: Path): Path
    requires p != []
  {
    p[..|p| - 1]
  }

  predicate IsDir(t: Tree, p: Path) {
    p in t && t[p].Dir?
  }

  predicate IsFile(t: Tree, p: Path) {
    p in t && t[p].File?
  }

  /** `p` is `root` or lies below it. */
  predicate Within(root: Path, p: Path) {
    root <= p
  }

  /** Every path other than the root lies inside an existing directory. */
  ghost predicate WellFormed(t: Tree) {
    forall p :: p in t && p != [] ==> IsDir(t, Parent(p))
  }

  /** The two trees agree at `root` and everywhere below it. */
  ghost predicate SameWithin(t: Tree, u: Tree, root: Path) {
    forall p :: Within(root, p) ==> (p in t <==> p in u) && (p in t ==> t[p] == u[p])
  }

  /** The two trees agree everywhere outside the subtree at `root`. */
  ghost predicate SameOutside(t: Tree, u: Tree, root: Path) {
    forall p :: !Within(root, p) ==> (p in t <==> p in u) && (p in t ==> t[p] == u[p])
  }

  lemma {:induction false} AncestorIsDir(t: Tree, p: Path, i: nat)
    requires WellFormed(t) && p in t && i < |p|
    ensures IsDir(t, p[..i])
    decreases |p| - i
  {
    var q := Parent(p);
    if i == |p| - 1 {
      assert p[..i] == q;
    } else {
      AncestorIsDir(t, q, i);
      assert q[..i] == p[..i];
    }
  }

  /** No regular file lies on the way to an existing directory. */
  lemma NoFileAbove(t: Tree, p: Path, q: Path)
    requires WellFormed(t) && IsDir(t, p) && Within(q, p)
    ensures NoFileOnPath(t, q)
  {
    forall j | 0 <= j <= |q|
      ensures !IsFile(t, q[..j])
    {
      assert q[..j] == p[..j];
      if j < |p| {
        AncestorIsDir(t, p, j);
      } else {
        assert p[..j] == p;
      }
    }
  }

  /** Nothing lies below a path that does not exist or is a regular file. */
  lemma NothingBelow(t: Tree, root: Path)
    requires WellFormed(t) && !IsDir(t, root)
    ensures forall p :: p in t && Within(root, p) ==> p == root
  {
    forall p | p in t && Within(root, p)
      ensures p == root
    {
      if p != root {
        assert p[..|root|] == root;
        AncestorIsDir(t, p, |root|);
        assert false;
      }
    }
  }

  // ---------------------------------------------------------------------
  // shutil.rmtree(path, ignore_errors=True)

  /**
   * A directory is removed with everything below it. A missing path, or a
   * regular file (rmtree cannot scan it), raises inside rmtree and the error
   * is ignored: nothing changes.
   */
  function RemoveTree(t: Tree, root: Path): Tree {
    if IsDir(t, root) then map p | p in t && !Within(root, p) :: t[p] else t
  }

  lemma RemoveTreeEffect(t: Tree, root: Path)
    requires WellFormed(t)
    ensures WellFormed(RemoveTree(t, root))
    ensures SameOutside(t, RemoveTree(t, root), root)
    ensures forall p :: p in RemoveTree(t, root) && Within(root, p) ==> p == root && IsFile(t, root)
    ensures !IsDir(RemoveTree(t, root), root)
  {
    var r := RemoveTree(t, root);
    if IsDir(t, root) {
      forall p | p in r && p != []
        ensures IsDir(r, Parent(p))
      {
        assert Within(Parent(p), p);
      }
    } else {
      NothingBelow(t, root);
    }
  }

  // ---------------------------------------------------------------------
  // Path.mkdir(parents=True, exist_ok=True)

  /** Every prefix of `p`, from the root to `p` itself. */
  function Prefixes(p: Path): set<Path> {
    set i | 0 <= i <= |p| :: p[..i]
  }

  /** No component of `p`, nor `p` itself, is a regular file. */
  predicate NoFileOnPath(t: Tree, p: Path) {
    forall i :: 0 <= i <= |p| ==> !IsFile(t, p[..i])
  }

  lemma PrefixesBound(p: Path)
    ensures p in Prefixes(p)
    ensures forall q :: q in Prefixes(p) ==> |q| <= |p| && Within(q, p)
  {
    assert p[..|p|] == p;
  }

  /** Removing one subtree leaves a subtree apart from it as it was. */
  lemma RemoveTreeApart(t: Tree, root: Path, other: Path)
    requires !Within(root, other) && !Within(other, root)
    ensures SameWithin(t, RemoveTree(t, root), other)
  {
    var r := RemoveTree(t, root);
    forall p | Within(other, p)
      ensures (p in t <==> p in r) && (p in t ==> t[p] == r[p])
    {
      ApartBelow(other, root, p);
    }
  }

  /**
   * mkdir with parents and exist_ok succeeds exactly when no prefix of the
   * path is a regular file; it then creates the missing directories.
   */
  function MakeDirs(t: Tree, p: Path): Tree
    requires NoFileOnPath(t, p)
  {
    t + map q | q in Prefixes(p) :: Dir
  }

  lemma MakeDirsEffect(t: Tree, p: Path)
    requires WellFormed(t) && NoFileOnPath(t, p)
    ensures WellFormed(MakeDirs(t, p))
    ensures forall q :: q in Prefixes(p) ==> IsDir(MakeDirs(t, p), q)
    ensures forall q :: q in t ==> q in MakeDirs(t, p) && MakeDirs(t, p)[q] == t[q]
    ensures forall q :: q in MakeDirs(t, p) && q !in t ==> q in Prefixes(p)
  {
    var r := MakeDirs(t, p);
    forall q | q in t
      ensures r[q] == t[q]
    {
      if q in Prefixes(p) {
        var i :| 0 <= i <= |p| && q == p[..i];
        assert !IsFile(t, p[..i]);
      }
    }
    forall q | q in r && q != []
      ensures IsDir(r, Parent(q))
    {
      if q in Prefixes(p) {
        var i :| 0 <= i <= |p| && q == p[..i];
        assert Parent(q) == p[..i - 1];
      }
    }
  }

  // ---------------------------------------------------------------------
  // open(path, "w"/"wb").write(data) and open(path, "r"/"rb").read()

  /**
   * Writing a file fails when its directory does not exist (or is not a
   * directory) and when the path itself is a directory; otherwise the file
   * is created or truncated and holds exactly `data`.
   */
  function WriteFile(t: Tree, p: Path, data: Bytes): (r: Option<Tree>)
    ensures r.Some? <==> p != [] && IsDir(t, Parent(p)) && !IsDir(t, p)
  {
    if p != [] && IsDir(t, Parent(p)) && !IsDir(t, p) then Some(t[p := File(data)]) else None
  }

  function ReadFile(t: Tree, p: Path): (r: Option<Bytes>)
    ensures r.Some? <==> IsFile(t, p)
  {
    if IsFile(t, p) then Some(t[p].data) else None
  }

  lemma WriteFileEffect(t: Tree, p: Path, data: Bytes)
    requires WellFormed(t) && WriteFile(t, p, data).Some?
    ensures WellFormed(WriteFile(t, p, data).value)
    ensures ReadFile(WriteFile(t, p, data).value, p) == Some(data)
    ensures SameOutside(t, WriteFile(t, p, data).value, p)
    ensures forall q :: q in WriteFile(t, p, data).value && Within(p, q) ==> q == p
  {
    NothingBelow(t, p);
  }

  // ---------------------------------------------------------------------
  // Path.glob with a trailing slash: directories only

  /** The names of the directories directly inside `p`. */
  function ChildDirs(t: Tree, p: Path): (names: set<string>)
    ensures forall n :: n in names <==> IsDir(t, p + [n])
  {
    var names := set q | q in t && |q| == |p| + 1 && q[..|p|] == p && t[q].Dir? :: q[|p|];
    assert forall n :: n in names ==> IsDir(t, p + [n]) by {
      forall n | n in names
        ensures IsDir(t, p + [n])
      {
        var q :| q in t && |q| == |p| + 1 && q[..|p|] == p && t[q].Dir? && n == q[|p|];
        assert q == p + [n];
      }
    }
    assert forall n :: IsDir(t, p + [n]) ==> n in names by {
      forall n | IsDir(t, p + [n])
        ensures n in names
      {
        var q := p + [n];
        assert q[..|p|] == p && q[|p|] == n;
      }
    }
    names
  }

  /**
   * The listing that `glob` with a trailing slash yields: each directory directly inside `p`
   * once, in an order the filesystem chooses.
   */
  method ListDirs(t: Tree, p: Path) returns (names: seq<string>)
    ensures forall n :: n in names <==> IsDir(t, p + [n])
    ensures forall i, j :: 0 <= i < j < |names| ==> names[i] != names[j]
  {
    var rest := ChildDirs(t, p);
    names := [];
    while rest != {}
      invariant rest <= ChildDirs(t, p)
      invariant forall n :: n in names ==> n in ChildDirs(t, p) && n !in rest
      invariant forall n :: n in ChildDirs(t, p) ==> n in names || n in rest
      invariant forall i, j :: 0 <= i < j < |names| ==> names[i] != names[j]
      decreases rest
    {
      var n :| n in rest;
      names := names + [n];
      rest := rest - {n};
    }
  }

  // ---------------------------------------------------------------------
  // shutil.copytree(src, dst) with a freshly emptied destination

  /** The paths of `files`, taken relative to `at`. */
  function Placed(at: Path, files: Tree): set<Path> {
    set rel | rel in files :: at + rel
  }

  /**
   * `files` describes the contents of a directory: paths relative to it,
   * none of them empty, each inside a directory of `files` or directly in
   * the directory described.
   */
  ghost predicate RelativeTree(files: Tree) {
    && [] !in files
    && forall rel :: rel in files && |rel| > 1 ==> IsDir(files, Parent(rel))
  }

  /** A directory created at `at` holding exactly `files`. */
  function Graft(t: Tree, at: Path, files: Tree): Tree {
    t[at := Dir] + map q | q in Placed(at, files) :: files[q[|at|..]]
  }

  lemma DropPrefix(root: Path, rel: Path)
    ensures (root + rel)[|root|..] == rel && Within(root, root + rel)
  {
  }

  lemma SplitAt(root: Path, p: Path)
    requires Within(root, p)
    ensures root + p[|root|..] == p
  {
  }

  lemma PlacedWithin(at: Path, files: Tree)
    ensures forall q :: q in Placed(at, files) ==> Within(at, q)
  {
    forall q | q in Placed(at, files)
      ensures Within(at, q)
    {
      var rel :| rel in files && q == at + rel;
      DropPrefix(at, rel);
    }
  }

  lemma GraftHolds(t: Tree, at: Path, files: Tree)
    requires [] !in files
    ensures IsDir(Graft(t, at, files), at)
    ensures forall rel :: rel in files ==> at + rel in Graft(t, at, files) && Graft(t, at, files)[at + rel] == files[rel]
  {
    forall rel | rel in files
      ensures at + rel in Graft(t, at, files) && Graft(t, at, files)[at + rel] == files[rel]
    {
      DropPrefix(at, rel);
      assert at + rel in Placed(at, files);
    }
    forall q | q in Placed(at, files)
      ensures q != at
    {
      var rel :| rel in files && q == at + rel;
      assert rel != [];
    }
  }

  lemma GraftOnly(t: Tree, at: Path, files: Tree)
    requires forall p :: p in t ==> !Within(at, p)
    ensures forall rel :: at + rel in Graft(t, at, files) && rel != [] ==> rel in files
  {
    forall rel | at + rel in Graft(t, at, files) && rel != []
      ensures rel in files
    {
      var q := at + rel;
      DropPrefix(at, rel);
      assert q in Placed(at, files);
      var rel' :| rel' in files && q == at + rel';
      DropPrefix(at, rel');
    }
  }

  lemma GraftOutside(t: Tree, at: Path, files: Tree)
    ensures SameOutside(t, Graft(t, at, files), at)
  {
    PlacedWithin(at, files);
  }

  lemma GraftWellFormed(t: Tree, at: Path, files: Tree)
    requires WellFormed(t) && RelativeTree(files)
    requires at != [] && IsDir(t, Parent(at))
    requires forall p :: p in t ==> !Within(at, p)
    ensures WellFormed(Graft(t, at, files))
  {
    var r := Graft(t, at, files);
    GraftHolds(t, at, files);
    PlacedWithin(at, files);
    forall p | p in r && p != []
      ensures IsDir(r, Parent(p))
    {
      if p in Placed(at, files) {
        var rel :| rel in files && p == at + rel;
        if |rel| > 1 {
          assert Parent(p) == at + Parent(rel);
        } else {
          assert Parent(p) == at;
        }
      } else if p != at {
        assert p in t;
      } else {
        assert !Within(at, Parent(at));
      }
    }
  }

  // ---------------------------------------------------------------------
  // shutil.copytree(src, dst, dirs_exist_ok=True)
  //
  // The walk visits every entry of `src`. A directory is created in `dst`
  // (mkdir with exist_ok); a file is copied with copy2, which writes into
  // the destination when that is a directory. Every failure is recorded and
  // the walk goes on; copytree raises at the end if anything was recorded.

  /** A source directory meets a destination file: makedirs fails and the subtree is skipped. */
  predicate Blocked(t: Tree, src: Path, dst: Path, rel: Path) {
    src + rel in t && dst + rel in t && t[src + rel].Dir? && t[dst + rel].File?
  }

  /** copytree reaches `src + rel`: no directory on the way was blocked. */
  predicate Reached(t: Tree, src: Path, dst: Path, rel: Path) {
    src + rel in t && forall j :: 0 <= j <= |rel| ==> !Blocked(t, src, dst, rel[..j])
  }

  /** A source file meets a destination directory: copy2 writes it inside, under its own name. */
  predicate IntoDir(t: Tree, src: Path, dst: Path, rel: Path) {
    rel != [] && src + rel in t && dst + rel in t && t[src + rel].File? && t[dst + rel].Dir?
  }

  /** Where copy2 puts a file that meets a directory. */
  function Nested(dst: Path, rel: Path): Path
    requires rel != []
  {
    dst + rel + [rel[|rel| - 1]]
  }

  /** The place inside that directory is itself a directory: copy2 fails. */
  predicate Stuck(t: Tree, src: Path, dst: Path, rel: Path) {
    IntoDir(t, src, dst, rel) && IsDir(t, Nested(dst, rel))
  }

  /** `q` receives, at the same place, the entry of `src` it corresponds to. */
  predicate CopyTarget(t: Tree, src: Path, dst: Path, q: Path) {
    Within(dst, q) && Reached(t, src, dst, q[|dst|..]) && !IntoDir(t, src, dst, q[|dst|..])
  }

  /** `q` receives a source file that met a directory at `Parent(q)`. */
  predicate NestTarget(t: Tree, src: Path, dst: Path, q: Path) {
    |q| > |dst| && Within(dst, q) &&
    var rel := q[|dst|..|q| - 1];
    Reached(t, src, dst, rel) && IntoDir(t, src, dst, rel) && q[|q| - 1] == rel[|rel| - 1] && !IsDir(t, q)
  }

  function CopyTargets(t: Tree, src: Path, dst: Path): set<Path> {
    set p | p in t && Within(src, p) && CopyTarget(t, src, dst, dst + p[|src|..]) :: dst + p[|src|..]
  }

  function NestTargets(t: Tree, src: Path, dst: Path): set<Path> {
    set p | p in t && Within(src, p) && p != src && NestTarget(t, src, dst, dst + p[|src|..] + [p[|p| - 1]])
      :: dst + p[|src|..] + [p[|p| - 1]]
  }

  /** `made` with every target replaced by the source entry it receives. */
  function CopyEntries(t: Tree, src: Path, dst: Path, made: Tree): Tree {
    map q | q in made.Keys + CopyTargets(t, src, dst) + NestTargets(t, src, dst) ::
      if CopyTarget(t, src, dst, q) then t[src + q[|dst|..]]
      else if NestTarget(t, src, dst, q) then t[src + q[|dst|..|q| - 1]]
      else made[q]
  }

  /** The walk records no failure. */
  predicate NoConflict(t: Tree, src: Path, dst: Path) {
    forall p :: p in t && Within(src, p) ==>
      !Blocked(t, src, dst, p[|src|..]) && !Stuck(t, src, dst, p[|src|..])
  }

  datatype Copy = Copy(ok: bool, tree: Tree)

  /**
   * copytree fails without changing anything when `src` is not a directory
   * or a prefix of `dst` is a regular file. Otherwise it creates `dst` and
   * copies every entry of `src` it reaches: a directory onto a directory
   * or onto nothing, a file onto a file or onto nothing, and a file that
   * meets a directory into that directory. A directory that meets a file
   * is skipped with everything below it, and so is a file whose place
   * inside a directory is itself a directory; copytree raises at the end
   * if it skipped anything.
   */
  function CopyTree(t: Tree, src: Path, dst: Path): Copy {
    if !IsDir(t, src) || !NoFileOnPath(t, dst) then Copy(false, t)
    else Copy(NoConflict(t, src, dst), CopyEntries(t, src, dst, MakeDirs(t, dst)))
  }

  lemma CopyCopies(t: Tree, src: Path, dst: Path, made: Tree)
    ensures forall rel :: Reached(t, src, dst, rel) && !IntoDir(t, src, dst, rel) ==>
      dst + rel in CopyEntries(t, src, dst, made) && CopyEntries(t, src, dst, made)[dst + rel] == t[src + rel]
  {
    forall rel | Reached(t, src, dst, rel) && !IntoDir(t, src, dst, rel)
      ensures dst + rel in CopyEntries(t, src, dst, made)
    {
      DropPrefix(src, rel);
      DropPrefix(dst, rel);
      assert dst + rel in CopyTargets(t, src, dst);
    }
    forall rel | Reached(t, src, dst, rel) && !IntoDir(t, src, dst, rel)
      ensures CopyEntries(t, src, dst, made)[dst + rel] == t[src + rel]
    {
      DropPrefix(dst, rel);
    }
  }

  /** The slices of a nested place give back the entry it came from. */
  lemma NestedSlices(dst: Path, rel: Path)
    requires rel != []
    ensures var q := Nested(dst, rel);
      |q| > |dst| && Within(dst, q) && q[|dst|..|q| - 1] == rel && q[|q| - 1] == rel[|rel| - 1]
      && q[|dst|..] == rel + [rel[|rel| - 1]]
  {
    var q := Nested(dst, rel);
    assert q[..|dst|] == dst;
  }

  lemma CopyNests(t: Tree, src: Path, dst: Path, made: Tree, rel: Path)
    requires WellFormed(t)
    requires Reached(t, src, dst, rel) && IntoDir(t, src, dst, rel) && !IsDir(t, Nested(dst, rel))
    ensures Nested(dst, rel) in CopyEntries(t, src, dst, made)
    ensures CopyEntries(t, src, dst, made)[Nested(dst, rel)] == t[src + rel]
  {
    var q := Nested(dst, rel);
    NestedSlices(dst, rel);
    assert NestTarget(t, src, dst, q);
    var p := src + rel;
    DropPrefix(src, rel);
    assert p[|p| - 1] == rel[|rel| - 1];
    assert q == dst + p[|src|..] + [p[|p| - 1]];
    assert q in NestTargets(t, src, dst);
    var inner := rel + [rel[|rel| - 1]];
    assert Parent(src + inner) == src + rel;
    assert src + inner !in t;
    assert !CopyTarget(t, src, dst, q);
  }

  lemma CopyAdds(t: Tree, src: Path, dst: Path, made: Tree)
    ensures forall q :: q in CopyEntries(t, src, dst, made) && q !in made ==>
      CopyTarget(t, src, dst, q) || NestTarget(t, src, dst, q)
    ensures forall q :: q in made && !CopyTarget(t, src, dst, q) && !NestTarget(t, src, dst, q) ==>
      q in CopyEntries(t, src, dst, made) && CopyEntries(t, src, dst, made)[q] == made[q]
  {
  }

  lemma ReachedParent(t: Tree, src: Path, dst: Path, rel: Path)
    requires Reached(t, src, dst, rel) && rel != []
    requires WellFormed(t) && src != []
    ensures Reached(t, src, dst, Parent(rel)) && t[src + Parent(rel)].Dir?
  {
    var prel := Parent(rel);
    assert Parent(src + rel) == src + prel;
    forall j | 0 <= j <= |prel|
      ensures !Blocked(t, src, dst, prel[..j])
    {
      assert prel[..j] == rel[..j];
    }
  }

  /** The parent of a copy in place is a directory of the result. */
  lemma CopyTargetParent(t: Tree, src: Path, dst: Path, q: Path)
    requires WellFormed(t) && !Within(src, dst) && IsDir(t, src) && NoFileOnPath(t, dst)
    requires CopyTarget(t, src, dst, q) && q != []
    ensures IsDir(CopyEntries(t, src, dst, MakeDirs(t, dst)), Parent(q))
  {
    var made := MakeDirs(t, dst);
    var rel := q[|dst|..];
    SplitAt(dst, q);
    if rel == [] {
      var pq := Parent(q);
      assert pq == dst[..|dst| - 1];
      assert pq in Prefixes(dst);
      assert !Within(dst, pq);
      MakeDirsEffect(t, dst);
      assert IsDir(made, pq);
      CopyAdds(t, src, dst, made);
    } else {
      ReachedParent(t, src, dst, rel);
      assert Parent(q) == dst + Parent(rel);
      CopyCopies(t, src, dst, made);
    }
  }

  /** The parent of a nested copy is the destination directory the file met, which stays. */
  lemma NestTargetParent(t: Tree, src: Path, dst: Path, q: Path)
    requires WellFormed(t) && IsDir(t, src) && NoFileOnPath(t, dst)
    requires NestTarget(t, src, dst, q)
    ensures IsDir(CopyEntries(t, src, dst, MakeDirs(t, dst)), Parent(q))
  {
    var made := MakeDirs(t, dst);
    var rel := q[|dst|..|q| - 1];
    var pq := Parent(q);
    assert pq == dst + rel;
    assert pq[|dst|..] == rel;
    MakeDirsEffect(t, dst);
    assert !CopyTarget(t, src, dst, pq);
    assert !NestTarget(t, src, dst, pq);
    CopyAdds(t, src, dst, made);
  }

  /** The parent of an entry of the destination tree is never a nested place. */
  lemma ParentNotNested(t: Tree, src: Path, dst: Path, q: Path)
    requires WellFormed(t) && NoFileOnPath(t, dst)
    requires q in MakeDirs(t, dst) && q != []
    ensures !NestTarget(t, src, dst, Parent(q))
  {
    MakeDirsEffect(t, dst);
    if q in t {
      assert IsDir(t, Parent(q));
    } else {
      PrefixesBound(dst);
      assert |Parent(q)| < |dst|;
    }
  }

  /** A directory of the destination tree that receives a copy in place receives a directory. */
  lemma CopiedOntoDir(t: Tree, src: Path, dst: Path, q: Path)
    requires WellFormed(t) && IsDir(t, src) && NoFileOnPath(t, dst)
    requires IsDir(MakeDirs(t, dst), q) && CopyTarget(t, src, dst, q)
    ensures t[src + q[|dst|..]].Dir?
  {
    var rel := q[|dst|..];
    SplitAt(dst, q);
    MakeDirsEffect(t, dst);
    if rel == [] {
      assert src + rel == src;
    } else {
      PrefixesBound(dst);
      assert q !in Prefixes(dst);
      assert IsDir(t, dst + rel);
    }
  }

  /** The parent of an entry that receives nothing is a directory of the result. */
  lemma KeptParent(t: Tree, src: Path, dst: Path, q: Path)
    requires WellFormed(t) && IsDir(t, src) && NoFileOnPath(t, dst)
    requires q in MakeDirs(t, dst) && !CopyTarget(t, src, dst, q) && !NestTarget(t, src, dst, q) && q != []
    ensures IsDir(CopyEntries(t, src, dst, MakeDirs(t, dst)), Parent(q))
  {
    var made := MakeDirs(t, dst);
    MakeDirsEffect(t, dst);
    CopyAdds(t, src, dst, made);
    var pq := Parent(q);
    ParentNotNested(t, src, dst, q);
    if CopyTarget(t, src, dst, pq) {
      CopiedOntoDir(t, src, dst, pq);
    }
  }

  lemma CopyTreeWellFormed(t: Tree, src: Path, dst: Path)
    requires WellFormed(t) && !Within(src, dst) && !Within(dst, src)
    requires IsDir(t, src) && NoFileOnPath(t, dst)
    ensures WellFormed(CopyTree(t, src, dst).tree)
  {
    var made := MakeDirs(t, dst);
    CopyAdds(t, src, dst, made);
    var r := CopyEntries(t, src, dst, made);
    forall q | q in r && q != []
      ensures IsDir(r, Parent(q))
    {
      if CopyTarget(t, src, dst, q) {
        CopyTargetParent(t, src, dst, q);
      } else if NestTarget(t, src, dst, q) {
        NestTargetParent(t, src, dst, q);
      } else {
        KeptParent(t, src, dst, q);
      }
    }
  }

  /** copytree never puts anything in place of a directory. */
  lemma CopyKeepsDirs(t: Tree, src: Path, dst: Path, made: Tree)
    requires IsDir(t, src) && forall q :: IsDir(t, q) ==> IsDir(made, q)
    ensures forall q :: IsDir(t, q) ==> IsDir(CopyEntries(t, src, dst, made), q)
  {
    CopyAdds(t, src, dst, made);
    forall q | IsDir(t, q) && CopyTarget(t, src, dst, q)
      ensures t[src + q[|dst|..]].Dir?
    {
      var rel := q[|dst|..];
      SplitAt(dst, q);
      if rel == [] {
        assert src + rel == src;
      } else {
        assert dst + rel == q;
      }
    }
  }

  lemma CopyTreeEffect(t: Tree, src: Path, dst: Path)
    requires WellFormed(t) && !Within(src, dst) && !Within(dst, src)
    requires IsDir(t, src) && NoFileOnPath(t, dst)
    ensures var r := CopyTree(t, src, dst).tree;
      && WellFormed(r)
      && (forall q :: q in t && !Within(dst, q) ==> q in r && r[q] == t[q])
      && (forall rel :: Reached(t, src, dst, rel) && !IntoDir(t, src, dst, rel) ==>
            dst + rel in r && r[dst + rel] == t[src + rel])
      && (forall rel :: Reached(t, src, dst, rel) && IntoDir(t, src, dst, rel) && !IsDir(t, Nested(dst, rel)) ==>
            Nested(dst, rel) in r && r[Nested(dst, rel)] == t[src + rel])
      && (forall q :: q in t && !CopyTarget(t, src, dst, q) && !NestTarget(t, src, dst, q) ==> q in r && r[q] == t[q])
      && (forall q :: q in r && (q !in t || r[q] != t[q]) ==>
            CopyTarget(t, src, dst, q) || NestTarget(t, src, dst, q) || q in Prefixes(dst))
      && (forall q :: IsDir(t, q) ==> IsDir(r, q))
  {
    var made := MakeDirs(t, dst);
    MakeDirsEffect(t, dst);
    CopyTreeWellFormed(t, src, dst);
    CopyCopies(t, src, dst, made);
    CopyAdds(t, src, dst, made);
    forall rel | Reached(t, src, dst, rel) && IntoDir(t, src, dst, rel) && !IsDir(t, Nested(dst, rel))
      ensures Nested(dst, rel) in CopyEntries(t, src, dst, made)
      ensures CopyEntries(t, src, dst, made)[Nested(dst, rel)] == t[src + rel]
    {
      CopyNests(t, src, dst, made, rel);
    }
    CopyKeepsDirs(t, src, dst, made);
  }

  /** copytree, whether it raises or not, never puts anything in place of a directory. */
  lemma CopyTreeKeepsDirs(t: Tree, src: Path, dst: Path)
    requires WellFormed(t)
    ensures forall q :: IsDir(t, q) ==> IsDir(CopyTree(t, src, dst).tree, q)
  {
    if IsDir(t, src) && NoFileOnPath(t, dst) {
      MakeDirsEffect(t, dst);
      CopyKeepsDirs(t, src, dst, MakeDirs(t, dst));
    }
  }

  /** A path below `other` is neither below nor above a path apart from `other`. */
  lemma ApartBelow(other: Path, root: Path, p: Path)
    requires !Within(other, root) && !Within(root, other) && Within(other, p)
    ensures !Within(root, p) && !Within(p, root)
  {
    if |root| <= |other| {
      assert other[..|root|] == p[..|root|];
    } else {
      assert root[..|other|] != other;
      if |p| <= |root| {
        assert root[..|p|][..|other|] == root[..|other|];
      }
    }
  }

  /** copytree leaves a subtree apart from the destination as it was. */
  lemma CopyTreeApart(t: Tree, src: Path, dst: Path, other: Path)
    requires WellFormed(t) && !Within(src, dst) && !Within(dst, src)
    requires IsDir(t, src) && NoFileOnPath(t, dst)
    requires !Within(other, dst) && !Within(dst, other)
    ensures SameWithin(t, CopyTree(t, src, dst).tree, other)
  {
    CopyTreeEffect(t, src, dst);
    PrefixesBound(dst);
    forall p | Within(other, p)
      ensures !Within(dst, p) && p !in Prefixes(dst)
    {
      ApartBelow(other, dst, p);
    }
  }

  /** A copy that raised nothing reached every entry of the source. */
  lemma NoConflictReached(t: Tree, src: Path, dst: Path, rel: Path)
    requires WellFormed(t) && NoConflict(t, src, dst) && src + rel in t
    ensures Reached(t, src, dst, rel)
  {
    forall j | 0 <= j <= |rel|
      ensures !Blocked(t, src, dst, rel[..j])
    {
      var p := src + rel[..j];
      if j < |rel| {
        AncestorIsDir(t, src + rel, |src| + j);
        assert (src + rel)[..|src| + j] == p;
      } else {
        assert rel[..j] == rel;
      }
      DropPrefix(src, rel[..j]);
    }
  }

  /**
   * A copy that raised nothing puts every file of the source at the same
   * place under the destination, or inside the directory it met there.
   */
  lemma CleanCopyPlaces(t: Tree, src: Path, dst: Path)
    requires WellFormed(t) && !Within(src, dst) && !Within(dst, src)
    requires IsDir(t, src) && NoFileOnPath(t, dst) && NoConflict(t, src, dst)
    ensures var r := CopyTree(t, src, dst).tree;
      && (forall rel :: IsFile(t, src + rel) && !IsDir(t, dst + rel) ==> dst + rel in r && r[dst + rel] == t[src + rel])
      && (forall rel :: IsFile(t, src + rel) && IsDir(t, dst + rel) ==>
            rel != [] && Nested(dst, rel) in r && r[Nested(dst, rel)] == t[src + rel])
  {
    CopyTreeEffect(t, src, dst);
    forall rel | IsFile(t, src + rel)
      ensures Reached(t, src, dst, rel)
    {
      NoConflictReached(t, src, dst, rel);
    }
    forall rel | IsFile(t, src + rel) && IsDir(t, dst + rel)
      ensures rel != [] && !IsDir(t, Nested(dst, rel))
    {
      DropPrefix(src, rel);
      assert !Stuck(t, src, dst, rel);
    }
  }

  /** A destination path whose source counterpart is missing receives nothing, unless a file nests into it. */
  lemma Unmatched(t: Tree, src: Path, dst: Path, rel: Path)
    requires src + rel !in t
    requires !(|rel| >= 2 && IsFile(t, src + rel[..|rel| - 1]) && rel[|rel| - 1] == rel[|rel| - 2])
    ensures !CopyTarget(t, src, dst, dst + rel) && !NestTarget(t, src, dst, dst + rel)
  {
    DropPrefix(dst, rel);
    if |rel| >= 1 {
      assert (dst + rel)[|dst|..|dst + rel| - 1] == rel[..|rel| - 1];
    }
  }

  /**
   * A destination entry with no source counterpart, and not the place of a
   * source file that meets a directory, is left as it was.
   */
  lemma CopyKeepsUnmatched(t: Tree, src: Path, dst: Path)
    requires WellFormed(t) && !Within(src, dst) && !Within(dst, src)
    requires IsDir(t, src) && NoFileOnPath(t, dst)
    ensures var r := CopyTree(t, src, dst).tree;
      forall rel ::
        && dst + rel in t && src + rel !in t
        && !(|rel| >= 2 && IsFile(t, src + rel[..|rel| - 1]) && rel[|rel| - 1] == rel[|rel| - 2])
        ==> dst + rel in r && r[dst + rel] == t[dst + rel]
  {
    CopyTreeEffect(t, src, dst);
    forall rel | dst + rel in t && src + rel !in t &&
        !(|rel| >= 2 && IsFile(t, src + rel[..|rel| - 1]) && rel[|rel| - 1] == rel[|rel| - 2])
      ensures !CopyTarget(t, src, dst, dst + rel) && !NestTarget(t, src, dst, dst + rel)
    {
      Unmatched(t, src, dst, rel);
    }
  }

  // ---------------------------------------------------------------------
  // Frames and views shared by the store modules

  /** The outcome of an operation on the filesystem, with the filesystem it leaves behind. */
  datatype Step<+T, +E> = Step(result: Result<T, E>, fs: Tree)

  /**
   * `u` differs from `t` only at or below `root`, apart from directories
   * created on the way to `root`.
   */
  ghost predicate ChangesOnlyUnder(t: Tree, u: Tree, root: Path) {
    && (forall p :: p in t && !Within(root, p) ==> p in u && u[p] == t[p])
    && (forall p :: p in u && p !in t ==> Within(root, p) || p in Prefixes(root))
  }

  lemma SameOutsideChanges(t: Tree, u: Tree, root: Path)
    requires SameOutside(t, u, root)
    ensures ChangesOnlyUnder(t, u, root)
  {
  }

  lemma ChangesCompose(t: Tree, u: Tree, v: Tree, root: Path)
    requires ChangesOnlyUnder(t, u, root) && ChangesOnlyUnder(u, v, root)
    ensures ChangesOnlyUnder(t, v, root)
  {
  }

  /** A path apart from `root` and not on the way to it is untouched by a change confined below `root`. */
  lemma ChangesSpare(t: Tree, u: Tree, root: Path, q: Path)
    requires ChangesOnlyUnder(t, u, root)
    requires !Within(root, q) && !Within(q, root)
    ensures q in u <==> q in t
    ensures q in t ==> u[q] == t[q]
  {
    PrefixesBound(root);
  }

  /** A change confined below `inner` is also confined below any `outer` containing it. */
  lemma ChangesWiden(t: Tree, u: Tree, inner: Path, outer: Path)
    requires ChangesOnlyUnder(t, u, inner) && Within(outer, inner)
    ensures ChangesOnlyUnder(t, u, outer)
  {
    forall p | p in u && p !in t
      ensures Within(outer, p) || p in Prefixes(outer)
    {
      if !Within(inner, p) {
        var i :| 0 <= i <= |inner| && p == inner[..i];
        if i >= |outer| {
          assert p[..|outer|] == outer;
        } else {
          assert p == outer[..i];
        }
      }
    }
  }

  /** A change confined below `root` leaves alone every subtree that neither contains `root` nor lies inside it. */
  lemma ChangesElsewhere(t: Tree, u: Tree, root: Path, other: Path)
    requires ChangesOnlyUnder(t, u, root)
    requires !Within(root, other) && !Within(other, root)
    ensures SameWithin(t, u, other)
  {
  }

  /** mkdir only adds directories, all of them on the way to `p` or to any path below it. */
  lemma MakeDirsChanges(t: Tree, p: Path, below: Path)
    requires WellFormed(t) && NoFileOnPath(t, p) && Within(p, below)
    ensures ChangesOnlyUnder(t, MakeDirs(t, p), below)
  {
    MakeDirsEffect(t, p);
    forall q | q in Prefixes(p)
      ensures q in Prefixes(below)
    {
      var i :| 0 <= i <= |p| && q == p[..i];
      assert q == below[..i];
    }
  }

  /** Creating a directory that already exists changes nothing. */
  lemma MakeDirsNoop(t: Tree, p: Path)
    requires WellFormed(t) && IsDir(t, p)
    ensures NoFileOnPath(t, p) && MakeDirs(t, p) == t
  {
    forall i | 0 <= i <= |p|
      ensures IsDir(t, p[..i])
    {
      if i < |p| {
        AncestorIsDir(t, p, i);
      } else {
        assert p[..i] == p;
      }
    }
    forall q | q in Prefixes(p)
      ensures IsDir(t, q)
    {
      var i :| 0 <= i <= |p| && q == p[..i];
    }
  }

  /** Some regular file lies at or below `root`. */
  predicate HasFileWithin(t: Tree, root: Path) {
    exists p :: p in t && Within(root, p) && t[p].File?
  }

  /** The contents of the directory at `root`, as paths relative to it. */
  function Subtree(t: Tree, root: Path): Tree {
    map rel | rel in RelativePaths(t, root) && root + rel in t :: t[root + rel]
  }

  function RelativePaths(t: Tree, root: Path): set<Path> {
    set p | p in t && Within(root, p) && p != root :: p[|root|..]
  }

  lemma SubtreeAt(t: Tree, root: Path)
    ensures forall rel :: rel in Subtree(t, root) <==> rel != [] && root + rel in t
    ensures forall rel :: rel in Subtree(t, root) ==> Subtree(t, root)[rel] == t[root + rel]
  {
    forall rel | rel != [] && root + rel in t
      ensures rel in RelativePaths(t, root)
    {
      DropPrefix(root, rel);
    }
    forall rel | rel in RelativePaths(t, root)
      ensures rel != []
    {
      var p :| p in t && Within(root, p) && p != root && rel == p[|root|..];
      SplitAt(root, p);
    }
  }

  /** Trees that agree at and below `root` show the same entry there. */
  lemma SameWithinSubtree(t: Tree, u: Tree, root: Path)
    requires SameWithin(t, u, root)
    ensures Subtree(t, root) == Subtree(u, root)
  {
    SubtreeAt(t, root);
    SubtreeAt(u, root);
    forall rel | rel in Subtree(t, root)
      ensures rel in Subtree(u, root)
    {
      assert Within(root, root + rel);
    }
    forall rel | rel in Subtree(u, root)
      ensures rel in Subtree(t, root)
    {
      assert Within(root, root + rel);
    }
  }

  /** A directory created at `at` holding `files` shows exactly `files` below it. */
  lemma GraftSubtree(t: Tree, at: Path, files: Tree)
    requires RelativeTree(files)
    requires forall p :: p in t ==> !Within(at, p)
    ensures Subtree(Graft(t, at, files), at) == files
  {
    var r := Graft(t, at, files);
    GraftHolds(t, at, files);
    GraftOnly(t, at, files);
    SubtreeAt(r, at);
    var sub := Subtree(r, at);
    forall rel | rel in files
      ensures rel in sub && sub[rel] == files[rel]
    {
    }
    forall rel | rel in sub
      ensures rel in files
    {
    }
    assert sub.Keys == files.Keys;
  }

  /** The mutable filesystem that every store object of the model reads and writes. */
  class Disk {
    var fs: Tree

    ghost predicate Valid()
      reads this
    {
      WellFormed(fs)
    }

    constructor (initial: Tree)
      requires WellFormed(initial)
      ensures Valid() && fs == initial
    {
      fs := initial;
    }
  }
}
