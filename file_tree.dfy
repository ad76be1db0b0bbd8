/**
 * The abstract filesystem every component reads and changes: a map from paths to
 * files and directories that is closed under parents, the immediate entries of a
 * directory derived from it, and the three whole-subtree changes the storage
 * primitives are built from (remove a subtree, create a chain of directories,
 * relocate a subtree).
 */
module FileTree {
  import opened Paths

  datatype Node = File | Dir

  type Tree = map<Path, Node>

  predicate IsDir(t: Tree, p: Path)
  {
    p in t && t[p] == Dir
  }

  predicate IsFile(t: Tree, p: Path)
  {
    p in t && t[p] == File
  }

  /** Every entry other than the root sits in a directory that is itself present. */
  ghost predicate WellFormed(t: Tree)
  {
    forall p {:trigger Parent(p)} :: p in t && p != [] ==> IsDir(t, Parent(p))
  }

  /** In a well-formed tree every proper ancestor of an entry is a directory. */
  lemma {:induction false} AncestorIsDir(t: Tree, p: Path, a: Path)
    requires WellFormed(t) && p in t && a < p
    ensures IsDir(t, a)
    decreases |p|
  {
    var up := Parent(p);
    assert IsDir(t, up);
    assert a <= up;
    if a != up {
      AncestorIsDir(t, up, a);
    }
  }

  /** Nothing lies below an absent path or below a file. */
  lemma NothingBelow(t: Tree, a: Path)
    requires WellFormed(t) && !IsDir(t, a)
    ensures forall q :: q in t ==> !(a < q)
  {
    forall q | q in t && a < q ensures false {
      AncestorIsDir(t, q, a);
    }
  }

  /** The immediate entries of `d`. */
  function Children(t: Tree, d: Path): set<Path>
  {
    set p | p in t && |p| == |d| + 1 && d <= p
  }

  /** `s` holds each immediate entry of `d` once, and nothing when `d` is absent or a file. */
  ghost predicate ListsChildren(t: Tree, d: Path, s: seq<Path>)
  {
    && (forall p :: p in s <==> IsDir(t, d) && p in t && |p| == |d| + 1 && d <= p)
    && (forall i, j :: 0 <= i < j < |s| ==> s[i] != s[j])
  }

  /** `s` holds each directory strictly below `d` once, and nothing when `d` is absent or a file. */
  ghost predicate ListsDescendantDirs(t: Tree, d: Path, s: seq<Path>)
  {
    && (forall p :: p in s <==> IsDir(t, d) && IsDir(t, p) && d < p)
    && (forall i, j :: 0 <= i < j < |s| ==> s[i] != s[j])
  }

  /**
   * The filesystem as the planner and the scanner read it: the tree, the entries a
   * top-level listing of a directory returns (Directory.EnumerateFileSystemEntries
   * with its failure swallowed) and the directories a recursive listing returns
   * (Directory.EnumerateDirectories with SearchOption.AllDirectories). The filesystem
   * fixes what a listing holds but not its order, so the order is part of the snapshot.
   */
  datatype Snapshot = Snapshot(tree: Tree, entries: Path -> seq<Path>, walk: Path -> seq<Path>)

  ghost predicate Consistent(s: Snapshot)
  {
    && (forall d :: ListsChildren(s.tree, d, s.entries(d)))
    && (forall d :: ListsDescendantDirs(s.tree, d, s.walk(d)))
  }

  /** A directory's entries in ordinal order. */
  function OrdinalEntries(t: Tree, d: Path): seq<Path>
  {
    if IsDir(t, d) then SortedPaths(Children(t, d)) else []
  }

  /** The directories below a directory in ordinal order. */
  function OrdinalWalk(t: Tree, d: Path): seq<Path>
  {
    if IsDir(t, d) then SortedPaths(set p | p in t && IsDir(t, p) && d < p) else []
  }

  lemma OrdinalListings(t: Tree, d: Path)
    ensures ListsChildren(t, d, OrdinalEntries(t, d))
    ensures ListsDescendantDirs(t, d, OrdinalWalk(t, d))
  {
  }

  /** Every tree has a consistent snapshot: the one that lists in ordinal order. */
  lemma ConsistentSnapshotExists(t: Tree)
    ensures exists s: Snapshot :: s.tree == t && Consistent(s)
  {
    var s := Snapshot(t, d => OrdinalEntries(t, d), d => OrdinalWalk(t, d));
    forall d ensures ListsChildren(t, d, s.entries(d)) && ListsDescendantDirs(t, d, s.walk(d)) {
      OrdinalListings(t, d);
    }
    assert Consistent(s);
  }

  /** The tree without the entry `p` and everything below it. */
  function Removed(t: Tree, p: Path): (r: Tree)
    ensures forall q :: q in r <==> q in t && !(p <= q)
    ensures forall q :: q in r ==> r[q] == t[q]
  {
    map q | q in t && !(p <= q) :: t[q]
  }

  lemma RemovedWellFormed(t: Tree, p: Path)
    requires WellFormed(t)
    ensures WellFormed(Removed(t, p))
  {
    var r := Removed(t, p);
    forall q | q in r && q != [] ensures IsDir(r, Parent(q)) {
      assert IsDir(t, Parent(q));
      assert Parent(q) <= q;
    }
  }

  /** Removing an absent path changes nothing. */
  lemma RemovedAbsent(t: Tree, p: Path)
    requires WellFormed(t) && p !in t
    ensures Removed(t, p) == t
  {
    NothingBelow(t, p);
    forall q | q in t ensures !(p <= q) {
      assert p != q;
    }
    assert Removed(t, p).Keys == t.Keys;
  }

  /** The path `p` and all its ancestors. */
  function Prefixes(p: Path): (r: set<Path>)
    ensures forall q :: q in r <==> q <= p
  {
    var r := set i | 0 <= i <= |p| :: p[..i];
    assert forall q :: q <= p ==> q == p[..|q|];
    r
  }

  /** Some ancestor of `p`, or `p` itself, is a file. */
  predicate FileOnPath(t: Tree, p: Path)
  {
    exists i :: 0 <= i <= |p| && IsFile(t, p[..i])
  }

  lemma FileOnPathIff(t: Tree, p: Path)
    ensures FileOnPath(t, p) <==> exists q :: q <= p && IsFile(t, q)
  {
    if exists q :: q <= p && IsFile(t, q) {
      var q :| q <= p && IsFile(t, q);
      assert p[..|q|] == q;
    }
  }

  /** The tree with `p` and all its ancestors present as directories. */
  function WithDirs(t: Tree, p: Path): (r: Tree)
    ensures forall q :: q in r <==> q in t || q <= p
    ensures forall q :: q in r ==> r[q] == if q <= p then Dir else t[q]
  {
    t + map q | q in Prefixes(p) :: Dir
  }

  lemma WithDirsWellFormed(t: Tree, p: Path)
    requires WellFormed(t) && !FileOnPath(t, p)
    ensures WellFormed(WithDirs(t, p))
  {
    var r := WithDirs(t, p);
    forall q | q in r && q != [] ensures IsDir(r, Parent(q)) {
      if q <= p {
        assert Parent(q) <= p;
      } else {
        assert IsDir(t, Parent(q));
      }
    }
  }

  /** A key below `src` seen from `dst`: `dst + s` for `src + s`. */
  function Rebase(q: Path, src: Path, dst: Path): Path
    requires src <= q
  {
    dst + q[|src|..]
  }

  lemma RebaseBack(q: Path, src: Path, dst: Path)
    requires src <= q
    ensures dst <= Rebase(q, src, dst)
    ensures src + Rebase(q, src, dst)[|dst|..] == q
  {
    var k := Rebase(q, src, dst);
    assert k[|dst|..] == q[|src|..];
    assert q == q[..|src|] + q[|src|..];
  }

  /**
   * The tree with the subtree at `src` re-rooted at `dst`: what Directory.Move and
   * File.Move do once nothing is left at `dst`.
   */
  function Relocated(t: Tree, src: Path, dst: Path): (r: Tree)
    requires forall q :: q in t ==> !(dst <= q)
    ensures forall q :: q in r <==> (q in t && !(src <= q)) || (dst <= q && src + q[|dst|..] in t)
    ensures forall q :: q in r && dst <= q ==> r[q] == t[src + q[|dst|..]]
    ensures forall q :: q in r && !(dst <= q) ==> r[q] == t[q]
  {
    var kept := set q | q in t && !(src <= q);
    var moved := set q | q in t && src <= q :: Rebase(q, src, dst);
    var r := map k | k in kept + moved ::
      if dst <= k then
        (assert exists q :: q in t && src <= q && k == Rebase(q, src, dst);
         var q :| q in t && src <= q && k == Rebase(q, src, dst);
         RebaseBack(q, src, dst);
         t[src + k[|dst|..]])
      else t[k];
    forall q | dst <= q && src + q[|dst|..] in t ensures q in moved {
      var o := src + q[|dst|..];
      assert src <= o;
      assert o[|src|..] == q[|dst|..];
      assert q == dst + q[|dst|..];
      assert Rebase(o, src, dst) == q;
    }
    forall k | k in moved ensures dst <= k && src + k[|dst|..] in t {
      var q :| q in t && src <= q && k == Rebase(q, src, dst);
      RebaseBack(q, src, dst);
    }
    r
  }

  lemma RelocatedWellFormed(t: Tree, src: Path, dst: Path)
    requires WellFormed(t)
    requires forall q :: q in t ==> !(dst <= q)
    requires src in t && !(src <= dst)
    requires dst != [] && IsDir(t, Parent(dst))
    ensures WellFormed(Relocated(t, src, dst))
  {
    var r := Relocated(t, src, dst);
    forall q | q in r && q != [] ensures IsDir(r, Parent(q)) {
      var up := Parent(q);
      if dst <= q {
        var s := q[|dst|..];
        if s == [] {
          assert q == dst;
          assert !(dst <= up);
          assert up <= dst;
        } else {
          var o := src + s;
          assert o != [] && Parent(o) == src + up[|dst|..];
          assert dst <= up;
        }
      } else {
        assert IsDir(t, up);
        assert up <= q;
      }
    }
  }
}
