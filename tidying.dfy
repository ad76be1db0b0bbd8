/**
 * What a plan leaves on disk once the executor has run it through: under policy A
 * nothing is left in the mod folder outside its entries named `lang`, under policy B
 * the mod folder is empty. Both follow from what each primitive may add to the tree
 * and from which deletions the plan holds.
 */
module Tidying {
  import opened Wrappers
  import opened Paths
  import opened FileTree
  import opened Models
  import opened Operations
  import opened Storage
  import opened Execution
  import opened Planning
  import opened ViewModels

  /**
   * The paths a turn of `op` may bring into the tree: ancestors of its target, and
   * for a move the target's subtree as well. Deletions and the operations the switch
   * has no case for bring nothing.
   */
  predicate MayAdd(op: Operation, q: Path)
  {
    match op
    case EnsureDirectoryOperation(p) => q <= p
    case MoveWithOverwriteOperation(_, d) => q < d || d <= q
    case BackupZipOperation(_, z) => q <= z
    case DeletePathOperation(_) => false
    case ExtractZipEntryOperation(_, _, _) => false
  }

  /** A turn adds only the paths its operation may add, whether it succeeds or throws. */
  lemma TurnAdds(t: Tree, op: Operation, q: Path)
    requires WellFormed(t)
    ensures q in Turn(t, op, Dispatch).tree && q !in t ==> MayAdd(op, q)
  {
    match op
    case EnsureDirectoryOperation(p) =>
    case MoveWithOverwriteOperation(s, d) =>
      MoveWithOverwriteNewEntries(t, s, d);
    case DeletePathOperation(p) =>
      DeletePathProperties(t, p);
    case BackupZipOperation(s, z) =>
      CreateZipFrame(t, s, z);
    case ExtractZipEntryOperation(_, _, _) =>
  }

  /** A path that turns of `ops` brought into the tree is one that some operation of `ops` may add. */
  lemma {:induction false} AppliedAdds(t: Tree, ops: seq<Operation>, q: Path)
    requires WellFormed(t)
    ensures q in Applied(t, ops, Dispatch) && q !in t ==> exists i :: 0 <= i < |ops| && MayAdd(ops[i], q)
    decreases |ops|
  {
    if ops != [] {
      var n := |ops| - 1;
      var mid := Applied(t, ops[..n], Dispatch);
      AppliedAdds(t, ops[..n], q);
      TurnAdds(mid, ops[n], q);
      if q in mid && q !in t {
        var i :| 0 <= i < n && MayAdd(ops[..n][i], q);
        assert ops[..n][i] == ops[i];
      }
    }
  }

  /** Applying `a + b` is applying `a`, then `b`. */
  lemma {:induction false} AppliedAppend(t: Tree, a: seq<Operation>, b: seq<Operation>)
    requires WellFormed(t)
    ensures Applied(t, a + b, Dispatch) == Applied(Applied(t, a, Dispatch), b, Dispatch)
    decreases |b|
  {
    if b == [] {
      assert a + b == a;
    } else {
      var n := |b| - 1;
      AppliedAppend(t, a, b[..n]);
      assert (a + b)[..|a + b| - 1] == a + b[..n];
    }
  }

  /** Deletions only take away: what is left was there before, outside every deleted subtree. */
  lemma {:induction false} AppliedDeletes(t: Tree, ops: seq<Operation>, q: Path)
    requires WellFormed(t)
    requires forall i :: 0 <= i < |ops| ==> ops[i].DeletePathOperation?
    ensures q in Applied(t, ops, Dispatch) ==> q in t && forall i :: 0 <= i < |ops| ==> !(ops[i].path <= q)
    decreases |ops|
  {
    if ops != [] {
      var n := |ops| - 1;
      var mid := Applied(t, ops[..n], Dispatch);
      DeletePathProperties(mid, ops[n].path);
      AppliedDeletes(t, ops[..n], q);
      if q in Applied(t, ops, Dispatch) {
        forall i | 0 <= i < n ensures !(ops[i].path <= q) {
          assert ops[..n][i] == ops[i];
        }
      }
    }
  }

  /** A run outside dry-run that went through to the end leaves every operation applied, in order. */
  lemma CompletedApplies(t: Tree, ops: seq<Operation>, options: AppOptions, cancelled: nat -> bool)
    requires WellFormed(t) && !options.dryRun
    ensures var r := Run(t, ops, options, cancelled, Dispatch);
            r.outcome == Completed ==> r.tree == Applied(t, ops, Dispatch)
  {
    RunApplies(t, ops, options, cancelled, Dispatch);
    var r := Run(t, ops, options, cancelled, Dispatch);
    if r.outcome == Completed {
      assert ops[..r.visited] == ops;
    }
  }

  /** Every path strictly below `mod` lies in one of the entries a consistent snapshot lists for `mod`. */
  lemma ChildListed(snap: Snapshot, mod: Path, q: Path)
    requires WellFormed(snap.tree) && Consistent(snap)
    requires q in snap.tree && mod < q
    ensures q[..|mod| + 1] in snap.entries(mod)
  {
    var t := snap.tree;
    var c := q[..|mod| + 1];
    if c != q {
      AncestorIsDir(t, q, c);
    }
    AncestorIsDir(t, q, mod);
    assert Parent(c) == mod;
    EntryOf(snap, mod, c);
  }

  /** A path strictly below `mod` that is an ancestor of `root` or of `root + [name]` puts `mod` on the way to `root`. */
  lemma BelowBackup(mod: Path, q: Path, root: Path, name: string)
    ensures mod < q && (q <= root || q <= root + [name]) ==> mod <= root
  {
    if mod < q && q <= root {
      assert mod == root[..|mod|];
    } else if mod < q && q <= root + [name] {
      assert mod == (root + [name])[..|mod|] == root[..|mod|];
    }
  }

  /** The backup brings nothing below a mod folder that does not contain the backup folder. */
  lemma BackupAddsNothingBelow(scan: ModScanResult, options: AppOptions, backupRootDir: Option<Path>, q: Path)
    requires BackupWanted(options, backupRootDir) ==> !(scan.modPath <= backupRootDir.value)
    requires scan.modPath < q
    ensures var backup := BackupOps(scan, options, backupRootDir);
            forall i :: 0 <= i < |backup| ==> !MayAdd(backup[i], q)
  {
    if BackupWanted(options, backupRootDir) {
      BelowBackup(scan.modPath, q, backupRootDir.value, scan.modName + ".zip");
    }
  }

  /** A move of policy A onto `<mod>/lang/<name>` may bring only paths inside `<mod>/lang` below `mod`. */
  lemma MoveAddsUnderLang(snap: Snapshot, chosen: seq<Path>, mod: Path, op: Operation, q: Path)
    requires Consistent(snap)
    requires op in LangMoves(snap, chosen, mod + ["lang"])
    ensures MayAdd(op, q) && mod < q ==> q[..|mod| + 1] == mod + ["lang"]
  {
    var dst := mod + ["lang"];
    var a, b := op.sourcePath, op.destinationPath;
    LangMovesMembers(snap, chosen, dst, a, b);
    assert b == dst + [FileName(a)];
    if MayAdd(op, q) && mod < q {
      if q < b {
        assert q[..|mod| + 1] == b[..|mod| + 1];
      } else {
        assert q[..|mod| + 1] == b[..|mod| + 1];
      }
    }
  }

  /**
   * Under policy A, what the backup, the EnsureDirectory of `<mod>/lang` and the
   * moves may bring below `mod` lies inside `<mod>/lang`.
   */
  lemma PreludeAddsOnlyLang(snap: Snapshot, scan: ModScanResult, options: AppOptions, backupRootDir: Option<Path>,
                            i: nat, q: Path)
    requires Consistent(snap)
    requires BackupWanted(options, backupRootDir) ==> !(scan.modPath <= backupRootDir.value)
    requires var backup := BackupOps(scan, options, backupRootDir);
             var chosen := ChooseLangSources(scan.langCandidates, options.multiLangMode);
             i < |backup| + 1 + |LangMoves(snap, chosen, scan.modPath + ["lang"])|
    ensures var backup := BackupOps(scan, options, backupRootDir);
            var chosen := ChooseLangSources(scan.langCandidates, options.multiLangMode);
            var dst := scan.modPath + ["lang"];
            var prelude := backup + [EnsureDirectoryOperation(dst)] + LangMoves(snap, chosen, dst);
            MayAdd(prelude[i], q) && scan.modPath < q ==> q[..|scan.modPath| + 1] == dst
  {
    var mod := scan.modPath;
    var backup := BackupOps(scan, options, backupRootDir);
    var chosen := ChooseLangSources(scan.langCandidates, options.multiLangMode);
    var dst := mod + ["lang"];
    var moves := LangMoves(snap, chosen, dst);
    var prelude := backup + [EnsureDirectoryOperation(dst)] + moves;
    if i < |backup| {
      assert prelude[i] == backup[i];
      if mod < q {
        BackupAddsNothingBelow(scan, options, backupRootDir, q);
      }
    } else if i == |backup| {
      assert prelude[i] == EnsureDirectoryOperation(dst);
      if q <= dst && mod < q {
        assert q[..|mod| + 1] == dst[..|mod| + 1];
      }
    } else {
      assert prelude[i] == moves[i - |backup| - 1];
      MoveAddsUnderLang(snap, chosen, mod, prelude[i], q);
    }
  }

  /**
   * Deleting the entries of `mod` not named `lang` after a prelude that brings
   * below `mod` only paths inside `<mod>/lang`: every path left below `mod` lies in
   * an entry of it named `lang`, ignoring case.
   */
  lemma SurvivorsOfPolicyA(snap: Snapshot, mod: Path, prelude: seq<Operation>, q: Path)
    requires WellFormed(snap.tree) && Consistent(snap)
    requires forall i :: 0 <= i < |prelude| ==> (MayAdd(prelude[i], q) && mod < q ==> q[..|mod| + 1] == mod + ["lang"])
    ensures q in Applied(snap.tree, prelude + NonLangDeletes(snap.entries(mod)), Dispatch) && mod < q
            ==> EqIgnoreCase(FileName(q[..|mod| + 1]), "lang")
  {
    var t := snap.tree;
    var deletes := NonLangDeletes(snap.entries(mod));
    AppliedAppend(t, prelude, deletes);
    var t1 := Applied(t, prelude, Dispatch);
    AppliedDeletes(t1, deletes, q);
    AppliedAdds(t, prelude, q);
    if q in Applied(t, prelude + deletes, Dispatch) && mod < q {
      var c := q[..|mod| + 1];
      if q in t {
        ChildListed(snap, mod, q);
        assert c <= q;
        assert DeletePathOperation(c) !in deletes;
      } else {
        var i :| 0 <= i < |prelude| && MayAdd(prelude[i], q);
        assert FileName(c) == "lang";
      }
    }
  }

  /**
   * Deleting every entry of `mod` after a prelude that brings nothing below `mod`:
   * nothing is left below `mod`.
   */
  lemma SurvivorsOfPolicyB(snap: Snapshot, mod: Path, prelude: seq<Operation>, q: Path)
    requires WellFormed(snap.tree) && Consistent(snap)
    requires mod < q ==> forall i :: 0 <= i < |prelude| ==> !MayAdd(prelude[i], q)
    ensures mod < q ==> q !in Applied(snap.tree, prelude + DeleteAll(snap.entries(mod)), Dispatch)
  {
    var t := snap.tree;
    var children := snap.entries(mod);
    var deletes := DeleteAll(children);
    AppliedAppend(t, prelude, deletes);
    var t1 := Applied(t, prelude, Dispatch);
    AppliedDeletes(t1, deletes, q);
    AppliedAdds(t, prelude, q);
    if mod < q {
      var c := q[..|mod| + 1];
      assert c <= q;
      assert q !in Applied(t, prelude + deletes, Dispatch) by {
        if q in t {
          ChildListed(snap, mod, q);
          DeleteAllMembers(children, c);
        }
      }
    }
  }

  /**
   * In a batch the backup folder `<target>\_backup\<timestamp>` lies in no mod
   * folder `<target>\<name>` other than `<target>\_backup` itself.
   */
  lemma BackupOutsideMod(options: AppOptions, targetDir: Path, timestamp: string, name: Name)
    ensures var root := BackupRunDir(options, targetDir, timestamp);
            root.Some? && name != "_backup" ==> !(targetDir + [name] <= root.value)
  {
    var mod := targetDir + [name];
    if options.backupZip && mod <= targetDir + ["_backup", timestamp] {
      assert mod[|targetDir|] == (targetDir + ["_backup", timestamp])[|targetDir|];
    }
  }

  /**
   * Plan A run through to the end, outside dry-run, from the tree the plan was made
   * from: every path left below the mod folder lies in an entry of it named `lang`,
   * ignoring case. The backup folder must not lie in the mod folder.
   */
  lemma PolicyALeavesOnlyLang(snap: Snapshot, scan: ModScanResult, options: AppOptions, backupRootDir: Option<Path>,
                              cancelled: nat -> bool, q: Path)
    requires WellFormed(snap.tree) && Consistent(snap) && !options.dryRun
    requires scan.langCandidates != []
    requires BackupWanted(options, backupRootDir) ==> !(scan.modPath <= backupRootDir.value)
    ensures var r := Run(snap.tree, PlanSpec(snap, scan, options, backupRootDir).operations, options, cancelled, Dispatch);
            r.outcome == Completed && q in r.tree && scan.modPath < q
            ==> EqIgnoreCase(FileName(q[..|scan.modPath| + 1]), "lang")
  {
    var mod := scan.modPath;
    var backup := BackupOps(scan, options, backupRootDir);
    var chosen := ChooseLangSources(scan.langCandidates, options.multiLangMode);
    var dst := mod + ["lang"];
    var prelude := backup + [EnsureDirectoryOperation(dst)] + LangMoves(snap, chosen, dst);
    var ops := PlanSpec(snap, scan, options, backupRootDir).operations;
    assert ops == prelude + NonLangDeletes(snap.entries(mod));
    forall i | 0 <= i < |prelude|
      ensures MayAdd(prelude[i], q) && mod < q ==> q[..|mod| + 1] == dst
    {
      PreludeAddsOnlyLang(snap, scan, options, backupRootDir, i, q);
    }
    SurvivorsOfPolicyA(snap, mod, prelude, q);
    CompletedApplies(snap.tree, ops, options, cancelled);
  }

  /**
   * Plan B run through to the end, outside dry-run, from the tree the plan was made
   * from: nothing is left below the mod folder. The backup folder must not lie in
   * the mod folder.
   */
  lemma PolicyBEmptiesMod(snap: Snapshot, scan: ModScanResult, options: AppOptions, backupRootDir: Option<Path>,
                          cancelled: nat -> bool, q: Path)
    requires WellFormed(snap.tree) && Consistent(snap) && !options.dryRun
    requires scan.langCandidates == []
    requires BackupWanted(options, backupRootDir) ==> !(scan.modPath <= backupRootDir.value)
    ensures var r := Run(snap.tree, PlanSpec(snap, scan, options, backupRootDir).operations, options, cancelled, Dispatch);
            r.outcome == Completed && scan.modPath < q ==> q !in r.tree
  {
    var mod := scan.modPath;
    var backup := BackupOps(scan, options, backupRootDir);
    var ops := PlanSpec(snap, scan, options, backupRootDir).operations;
    assert ops == backup + DeleteAll(snap.entries(mod));
    if mod < q {
      BackupAddsNothingBelow(scan, options, backupRootDir, q);
    }
    SurvivorsOfPolicyB(snap, mod, backup, q);
    CompletedApplies(snap.tree, ops, options, cancelled);
  }
}
