/**
 * The storage primitives of Infrastructure/FileSystem.cs over the abstract tree.
 * Each primitive is specified by a function from the tree before to the tree after
 * and the outcome (done, or the exception it throws); the class `FileSystem` holds
 * the live tree and performs the same steps in the order the program does.
 */
module Storage {
  import opened Wrappers
  import opened Paths
  import opened FileTree
  import opened Models

  /** The exceptions the primitives can throw. */
  datatype FsError =
    | PathIsFile(path: Path)                    // Directory.CreateDirectory met a file on the way
    | SourceNotFound(path: Path)                // the FileNotFoundException MoveWithOverwrite throws
    | MoveIntoItself(source: Path, target: Path) // Directory.Move into its own subtree
    | DirectoryNotFound(path: Path)             // ZipFile.CreateFromDirectory without its source
    | TargetIsDirectory(path: Path)             // a file cannot be written where a directory is

  /** The exception's Message. Only the not-found text is the program's own. */
  function Message(e: FsError): string
  {
    match e
    case PathIsFile(p) => "A file exists at " + Render(p) + "."
    case SourceNotFound(_) => "Source path not found."
    case MoveIntoItself(_, _) => "Cannot move a directory into itself."
    case DirectoryNotFound(p) => "Could not find a part of the path " + Render(p) + "."
    case TargetIsDirectory(p) => "Access to the path " + Render(p) + " is denied."
  }

  /** The tree after a primitive, and whether it threw. */
  datatype Effect = Effect(tree: Tree, outcome: Outcome<FsError>)

  /** Directory.CreateDirectory(p). */
  function EnsureDirectoryEffect(t: Tree, p: Path): (e: Effect)
    ensures e.outcome.Pass? <==> !FileOnPath(t, p)
    ensures e.outcome.Pass? ==> forall q :: q <= p ==> IsDir(e.tree, q)
    ensures e.outcome.Pass? ==> forall q :: q in e.tree <==> q in t || q <= p
    ensures e.outcome.Fail? ==> e.tree == t && e.outcome.error == PathIsFile(p)
  {
    if FileOnPath(t, p) then Effect(t, Fail(PathIsFile(p)))
    else Effect(WithDirs(t, p), Pass)
  }

  /** Creating a directory keeps every entry that was there, with its kind. */
  lemma EnsureDirectoryKeeps(t: Tree, p: Path)
    requires WellFormed(t)
    ensures var e := EnsureDirectoryEffect(t, p);
            WellFormed(e.tree) && forall q :: q in t ==> q in e.tree && e.tree[q] == t[q]
  {
    var e := EnsureDirectoryEffect(t, p);
    if e.outcome.Pass? {
      WithDirsWellFormed(t, p);
      forall q | q in t ensures e.tree[q] == t[q] {
        if q <= p {
          FileOnPathIff(t, p);
        }
      }
    }
  }

  /** EnsureDirectory is idempotent. */
  lemma EnsureDirectoryIdempotent(t: Tree, p: Path)
    requires WellFormed(t)
    ensures var e := EnsureDirectoryEffect(t, p);
            EnsureDirectoryEffect(e.tree, p) == Effect(e.tree, e.outcome)
  {
    var e := EnsureDirectoryEffect(t, p);
    if e.outcome.Pass? {
      FileOnPathIff(e.tree, p);
      assert WithDirs(e.tree, p) == e.tree;
    } else {
      assert EnsureDirectoryEffect(e.tree, p) == e;
    }
  }

  /** DeletePath(p): a file or a directory with its whole subtree goes; nothing happens when `p` is absent. */
  function DeletePathEffect(t: Tree, p: Path): (e: Effect)
    ensures e.outcome == Pass
  {
    if IsFile(t, p) then Effect(Removed(t, p), Pass)
    else if IsDir(t, p) then Effect(Removed(t, p), Pass)
    else Effect(t, Pass)
  }

  lemma DeletePathProperties(t: Tree, p: Path)
    requires WellFormed(t)
    ensures var r := DeletePathEffect(t, p).tree;
            && WellFormed(r)
            && p !in r
            && (forall q :: q in r <==> q in t && !(p <= q))
            && (forall q :: q in r ==> r[q] == t[q])
            && (p !in t ==> r == t)
  {
    RemovedWellFormed(t, p);
    if p !in t {
      RemovedAbsent(t, p);
    }
  }

  /** The two DeletePath branches MoveWithOverwrite takes when something is at the destination. */
  function ClearDestination(t: Tree, dst: Path): (r: Tree)
    requires WellFormed(t)
    ensures WellFormed(r)
    ensures forall q :: q in r <==> q in t && !(dst <= q)
    ensures forall q :: q in r ==> r[q] == t[q]
  {
    DeletePathProperties(t, dst);
    if IsFile(t, dst) then DeletePathEffect(t, dst).tree
    else if IsDir(t, dst) then DeletePathEffect(t, dst).tree
    else t
  }

  /** The destination deleted and its parent created: the state the move itself starts from. */
  function PrepareMove(t: Tree, dst: Path): (e: Effect)
    requires WellFormed(t)
    ensures WellFormed(e.tree)
    ensures forall q :: q in e.tree ==> !(dst <= q)
    ensures e.outcome.Fail? ==> e.tree == ClearDestination(t, dst)
    ensures e.outcome.Pass? ==> forall q :: q in e.tree <==> q in ClearDestination(t, dst) || q < dst
    ensures e.outcome.Pass? ==> forall q :: q < dst ==> IsDir(e.tree, q)
    ensures forall q :: q in ClearDestination(t, dst) ==> q in e.tree && e.tree[q] == ClearDestination(t, dst)[q]
  {
    var t1 := ClearDestination(t, dst);
    if dst != [] then
      EnsureDirectoryKeeps(t1, Parent(dst));
      assert forall q: Path :: q < dst <==> (q <= dst && |q| < |dst|);
      EnsureDirectoryEffect(t1, Parent(dst))
    else
      Effect(t1, Pass)
  }

  /** MoveWithOverwrite(src, dst): delete the destination, create its parent, then move a file or a directory. */
  function MoveWithOverwriteEffect(t: Tree, src: Path, dst: Path): (e: Effect)
    requires WellFormed(t)
    ensures WellFormed(e.tree)
  {
    var prep := PrepareMove(t, dst);
    if prep.outcome.Fail? then prep
    else
      var t2 := prep.tree;
      if IsFile(t2, src) then
        assert !(dst <= src) && !(src <= dst);
        RelocatedWellFormed(t2, src, dst);
        Effect(Relocated(t2, src, dst), Pass)
      else if IsDir(t2, src) then
        if src <= dst then Effect(t2, Fail(MoveIntoItself(src, dst)))
        else
          assert !(dst <= src);
          RelocatedWellFormed(t2, src, dst);
          Effect(Relocated(t2, src, dst), Pass)
      else Effect(t2, Fail(SourceNotFound(src)))
  }

  /** Two prefixes of one path are prefixes of each other. */
  lemma PrefixesComparable(a: Path, b: Path, q: Path)
    requires a <= q && b <= q
    ensures a <= b || b <= a
  {
    if |a| <= |b| {
      assert b[..|a|] == q[..|a|];
    } else {
      assert a[..|b|] == q[..|b|];
    }
  }

  /** A move that succeeded relocated the prepared tree, from a source that was present and unrelated to the destination. */
  lemma MovePassShape(t: Tree, src: Path, dst: Path)
    requires WellFormed(t)
    requires MoveWithOverwriteEffect(t, src, dst).outcome.Pass?
    ensures var prep := PrepareMove(t, dst);
            && prep.outcome.Pass? && src in prep.tree
            && !(src <= dst) && !(dst <= src) && dst != []
            && MoveWithOverwriteEffect(t, src, dst).tree == Relocated(prep.tree, src, dst)
  {
  }

  /**
   * A successful move leaves the old source subtree under the destination and
   * nowhere else, and whatever was at the destination before is gone.
   */
  lemma MoveWithOverwriteSucceeded(t: Tree, src: Path, dst: Path)
    requires WellFormed(t)
    requires MoveWithOverwriteEffect(t, src, dst).outcome.Pass?
    ensures var r := MoveWithOverwriteEffect(t, src, dst).tree;
            && src in t && !(dst <= src) && !(src <= dst)
            && (forall s :: dst + s in r <==> src + s in t)
            && (forall s :: src + s in t ==> r[dst + s] == t[src + s])
            && (forall q :: src <= q ==> q !in r)
  {
    MovePassShape(t, src, dst);
    var prep := PrepareMove(t, dst);
    var t1 := ClearDestination(t, dst);
    var t2 := prep.tree;
    var r := MoveWithOverwriteEffect(t, src, dst).tree;
    assert src <= src;
    assert src in t1;
    forall s ensures dst + s in r <==> src + s in t {
      assert (dst + s)[|dst|..] == s;
      SourceSideStays(t, src, dst, s);
    }
    forall s | src + s in t ensures r[dst + s] == t[src + s] {
      assert (dst + s)[|dst|..] == s;
      SourceSideStays(t, src, dst, s);
    }
  }

  /** An entry below the source is in the prepared tree, with its old kind, exactly when it was in the tree before. */
  lemma SourceSideStays(t: Tree, src: Path, dst: Path, s: Path)
    requires WellFormed(t)
    requires PrepareMove(t, dst).outcome.Pass?
    requires !(src <= dst) && !(dst <= src)
    ensures var t2 := PrepareMove(t, dst).tree;
            (src + s in t2 <==> src + s in t) && (src + s in t ==> t2[src + s] == t[src + s])
  {
    var q := src + s;
    assert src <= q;
    assert dst <= q ==> dst <= src || src <= dst by {
      if dst <= q {
        PrefixesComparable(dst, src, q);
      }
    }
    assert q < dst ==> src <= dst;
  }

  /** Outside the destination's subtree, a move adds only the destination's ancestors, whatever its outcome. */
  lemma MoveWithOverwriteNewEntries(t: Tree, src: Path, dst: Path)
    requires WellFormed(t)
    ensures var r := MoveWithOverwriteEffect(t, src, dst).tree;
            forall q :: q in r && q !in t ==> q < dst || dst <= q
  {
    var prep := PrepareMove(t, dst);
    var r := MoveWithOverwriteEffect(t, src, dst).tree;
    if prep.outcome.Pass? && MoveWithOverwriteEffect(t, src, dst).outcome.Pass? {
      MovePassShape(t, src, dst);
    }
  }

  /**
   * A move whose source is missing throws not-found, after it has deleted the
   * destination and created the destination's parent. (A missing source that is an
   * ancestor of the destination is created by that step instead, and the move then
   * fails as a move into itself.)
   */
  lemma MoveWithOverwriteMissingSource(t: Tree, src: Path, dst: Path)
    requires WellFormed(t)
    requires src !in t && !(src < dst)
    ensures var e := MoveWithOverwriteEffect(t, src, dst);
            var prep := PrepareMove(t, dst);
            && e.outcome.Fail?
            && e.tree == prep.tree
            && (prep.outcome.Pass? ==> e.outcome.error == SourceNotFound(src))
  {
    var prep := PrepareMove(t, dst);
    var t1 := ClearDestination(t, dst);
    if prep.outcome.Pass? {
      assert src !in t1;
      assert src !in prep.tree;
    }
  }

  /** The live filesystem: the program's FileSystem class acting on the tree it holds. */
  class FileSystem {
    var tree: Tree

    ghost predicate Valid()
      reads this
    {
      WellFormed(tree)
    }

    constructor (t: Tree)
      requires WellFormed(t)
      ensures Valid() && tree == t
    {
      tree := t;
    }

    method EnsureDirectory(path: Path) returns (r: Outcome<FsError>)
      requires Valid()
      modifies this
      ensures Valid()
      ensures Effect(tree, r) == EnsureDirectoryEffect(old(tree), path)
    {
      EnsureDirectoryKeeps(tree, path);
      if FileOnPath(tree, path) {
        return Fail(PathIsFile(path));
      }
      tree := WithDirs(tree, path);
      return Pass;
    }

    method MoveWithOverwrite(sourcePath: Path, destinationPath: Path, deleteMode: DeleteMode) returns (r: Outcome<FsError>)
      requires Valid()
      modifies this
      ensures Valid()
      ensures Effect(tree, r) == MoveWithOverwriteEffect(old(tree), sourcePath, destinationPath)
    {
      ghost var t0 := tree;
      if IsFile(tree, destinationPath) {
        DeletePath(destinationPath, deleteMode);
      } else if IsDir(tree, destinationPath) {
        DeletePath(destinationPath, deleteMode);
      }
      if destinationPath != [] {
        var made := EnsureDirectory(Parent(destinationPath));
        if made.Fail? {
          return made;
        }
      }
      assert Effect(tree, Pass) == PrepareMove(t0, destinationPath);
      if IsFile(tree, sourcePath) {
        RelocatedWellFormed(tree, sourcePath, destinationPath);
        tree := Relocated(tree, sourcePath, destinationPath);
        return Pass;
      }
      if IsDir(tree, sourcePath) {
        if sourcePath <= destinationPath {
          return Fail(MoveIntoItself(sourcePath, destinationPath));
        }
        RelocatedWellFormed(tree, sourcePath, destinationPath);
        tree := Relocated(tree, sourcePath, destinationPath);
        return Pass;
      }
      return Fail(SourceNotFound(sourcePath));
    }

    method DeletePath(path: Path, deleteMode: DeleteMode)
      requires Valid()
      modifies this
      ensures Valid()
      ensures tree == DeletePathEffect(old(tree), path).tree
    {
      if IsFile(tree, path) {
        DeleteFile(path, deleteMode);
        return;
      }
      if IsDir(tree, path) {
        DeleteDirectory(path, deleteMode);
        return;
      }
    }

    /** Both the recycle-bin and the permanent mechanism take the file out of the tree. */
    method DeleteFile(filePath: Path, deleteMode: DeleteMode)
      requires Valid()
      modifies this
      ensures Valid()
      ensures tree == Removed(old(tree), filePath)
    {
      RemovedWellFormed(tree, filePath);
      if deleteMode == RecycleBin {
        tree := Removed(tree, filePath);
        return;
      }
      tree := Removed(tree, filePath);
    }

    /** Both mechanisms take the directory and its whole subtree out of the tree. */
    method DeleteDirectory(directoryPath: Path, deleteMode: DeleteMode)
      requires Valid()
      modifies this
      ensures Valid()
      ensures tree == Removed(old(tree), directoryPath)
    {
      RemovedWellFormed(tree, directoryPath);
      if deleteMode == RecycleBin {
        tree := Removed(tree, directoryPath);
        return;
      }
      tree := Removed(tree, directoryPath);
    }
  }
}
