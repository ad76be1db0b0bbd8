/**
 * The planner: from one scan result, the options and a snapshot of the filesystem,
 * the ordered operations that tidy one mod folder and the two counters shown in the
 * preview. Policy A keeps the contents of the chosen `lang` directories under
 * `<mod>/lang` and deletes every other entry of the mod folder; policy B, taken when
 * no `lang` directory was chosen, deletes every entry. An optional backup comes first.
 */
module Planning {
  import opened Wrappers
  import opened Paths
  import opened FileTree
  import opened Models
  import opened Operations
  import opened Sequences

  const LabelA: string := "A (langあり)"
  const LabelB: string := "B (langなし: 中身全削除)"

  /** ChooseLangSources: every candidate under MergeAll, the first one under any other mode. */
  function ChooseLangSources(candidates: seq<Path>, mode: MultiLangMode): (r: seq<Path>)
    ensures r <= candidates
    ensures |r| > 0 <==> |candidates| > 0
    ensures mode == MergeAll ==> r == candidates
    ensures mode != MergeAll ==> |r| <= 1
  {
    if |candidates| == 0 then []
    else
      match mode
      case MergeAll => candidates
      case _ => [candidates[0]]
  }

  /** SeparateFolders has no behaviour of its own: it chooses what FirstOnly chooses. */
  lemma SeparateFoldersIsFirstOnly(candidates: seq<Path>)
    ensures ChooseLangSources(candidates, SeparateFolders) == ChooseLangSources(candidates, FirstOnly)
    ensures candidates != [] ==> ChooseLangSources(candidates, SeparateFolders) == [candidates[0]]
  {
  }

  /**
   * SafeEnumerateFileSystemEntries: the top-level entries of a directory, in the order
   * the snapshot lists them; a path that is not a directory cannot be listed and has none.
   */
  method SafeEnumerateFileSystemEntries(snap: Snapshot, dir: Path) returns (entries: seq<Path>)
    ensures entries == snap.entries(dir)
    ensures Consistent(snap) ==>
              forall a :: a in entries <==> a in snap.tree && a != [] && Parent(a) == dir && IsDir(snap.tree, dir)
    ensures Consistent(snap) && !IsDir(snap.tree, dir) ==> entries == []
  {
    entries := snap.entries(dir);
    if Consistent(snap) {
      forall a ensures a in entries <==> a in snap.tree && a != [] && Parent(a) == dir && IsDir(snap.tree, dir) {
        EntryOf(snap, dir, a);
      }
      if entries != [] {
        assert entries[0] in entries;
      }
    }
  }

  // ---------------------------------------------------------------------------
  // The plan as a function of the snapshot

  /** The backup is planned when it is enabled and a backup root that is not blank is given. */
  predicate BackupWanted(options: AppOptions, backupRootDir: Option<Path>)
  {
    options.backupZip && backupRootDir.Some? && !IsBlank(Render(backupRootDir.value))
  }

  function BackupOps(scan: ModScanResult, options: AppOptions, backupRootDir: Option<Path>): seq<Operation>
  {
    if BackupWanted(options, backupRootDir) then
      var root := backupRootDir.value;
      [EnsureDirectoryOperation(root), BackupZipOperation(scan.modPath, root + [scan.modName + ".zip"])]
    else []
  }

  /** The move that brings `entry` to `<dstLangDir>/<name of entry>`. */
  function MoveInto(dstLangDir: Path, entry: Path): Operation
  {
    MoveWithOverwriteOperation(entry, dstLangDir + [FileName(entry)])
  }

  /** One move per entry, in order. */
  function Moves(entries: seq<Path>, dstLangDir: Path): (r: seq<Operation>)
    ensures |r| == |entries|
    ensures forall i :: 0 <= i < |r| ==> r[i] == MoveInto(dstLangDir, entries[i])
  {
    if entries == [] then []
    else Moves(entries[..|entries| - 1], dstLangDir) + [MoveInto(dstLangDir, entries[|entries| - 1])]
  }

  /** A move is planned from `a` to `b` exactly when `a` is one of the entries and `b` its place in `dstLangDir`. */
  lemma MovesMembers(entries: seq<Path>, dstLangDir: Path, a: Path, b: Path)
    ensures MoveWithOverwriteOperation(a, b) in Moves(entries, dstLangDir)
      <==> a in entries && b == dstLangDir + [FileName(a)]
  {
    var r := Moves(entries, dstLangDir);
    if a in entries && b == dstLangDir + [FileName(a)] {
      var i :| 0 <= i < |entries| && entries[i] == a;
      assert r[i] == MoveWithOverwriteOperation(a, b);
    }
  }

  /** The moves for every entry of every source directory, source by source. */
  function LangMoves(snap: Snapshot, sources: seq<Path>, dstLangDir: Path): (r: seq<Operation>)
    ensures forall i :: 0 <= i < |r| ==> r[i].MoveWithOverwriteOperation?
  {
    if sources == [] then []
    else LangMoves(snap, sources[..|sources| - 1], dstLangDir) + Moves(snap.entries(sources[|sources| - 1]), dstLangDir)
  }

  /** How many of `ops` are moves onto a path that exists in `t`. */
  function ExistingTargets(t: Tree, ops: seq<Operation>): (n: nat)
    ensures n <= |ops|
  {
    if ops == [] then 0
    else
      var last := ops[|ops| - 1];
      ExistingTargets(t, ops[..|ops| - 1]) + (if last.MoveWithOverwriteOperation? && last.destinationPath in t then 1 else 0)
  }

  /** A deletion for every child not named `lang` (ignoring case), in order. */
  function NonLangDeletes(children: seq<Path>): (r: seq<Operation>)
    ensures |r| <= |children|
    ensures forall i :: 0 <= i < |r| ==> r[i].DeletePathOperation?
    ensures forall p :: DeletePathOperation(p) in r <==> p in children && !EqIgnoreCase(FileName(p), "lang")
  {
    if children == [] then []
    else
      var last := children[|children| - 1];
      NonLangDeletes(children[..|children| - 1])
        + (if EqIgnoreCase(FileName(last), "lang") then [] else [DeletePathOperation(last)])
  }

  /** A deletion for every child, in order. */
  function DeleteAll(children: seq<Path>): (r: seq<Operation>)
    ensures |r| == |children|
    ensures forall i :: 0 <= i < |r| ==> r[i] == DeletePathOperation(children[i])
  {
    if children == [] then []
    else DeleteAll(children[..|children| - 1]) + [DeletePathOperation(children[|children| - 1])]
  }

  // One more element at the end, for the loops that build these sequences

  lemma MovesSnoc(entries: seq<Path>, e: Path, dstLangDir: Path)
    ensures Moves(entries + [e], dstLangDir) == Moves(entries, dstLangDir) + [MoveInto(dstLangDir, e)]
  {
    assert (entries + [e])[..|entries|] == entries;
  }

  lemma LangMovesSnoc(snap: Snapshot, sources: seq<Path>, s: Path, dstLangDir: Path)
    ensures LangMoves(snap, sources + [s], dstLangDir) == LangMoves(snap, sources, dstLangDir) + Moves(snap.entries(s), dstLangDir)
  {
    assert (sources + [s])[..|sources|] == sources;
  }

  lemma NonLangDeletesSnoc(children: seq<Path>, c: Path)
    ensures NonLangDeletes(children + [c])
         == NonLangDeletes(children) + (if EqIgnoreCase(FileName(c), "lang") then [] else [DeletePathOperation(c)])
  {
    assert (children + [c])[..|children|] == children;
  }

  lemma ExistingTargetsSnoc(t: Tree, ops: seq<Operation>, op: Operation)
    ensures ExistingTargets(t, ops + [op])
         == ExistingTargets(t, ops) + (if op.MoveWithOverwriteOperation? && op.destinationPath in t then 1 else 0)
  {
    assert (ops + [op])[..|ops|] == ops;
  }

  lemma DeleteAllSnoc(children: seq<Path>, c: Path)
    ensures DeleteAll(children + [c]) == DeleteAll(children) + [DeletePathOperation(c)]
  {
    assert (children + [c])[..|children|] == children;
  }

  /** The plan BuildPlan returns for `scan` against the snapshot `snap`. */
  function PlanSpec(snap: Snapshot, scan: ModScanResult, options: AppOptions, backupRootDir: Option<Path>): ExecutionPlan
  {
    var backup := BackupOps(scan, options, backupRootDir);
    var chosen := ChooseLangSources(scan.langCandidates, options.multiLangMode);
    var dstLangDir := scan.modPath + ["lang"];
    if |chosen| > 0 then
      var moves := LangMoves(snap, chosen, dstLangDir);
      var deletes := NonLangDeletes(snap.entries(scan.modPath));
      ExecutionPlan(
        scan.modName, scan.modPath, scan.langCandidates, LabelA,
        backup + [EnsureDirectoryOperation(dstLangDir)] + moves + deletes,
        |moves|, ExistingTargets(snap.tree, moves) + |deletes|)
    else
      var deletes := DeleteAll(snap.entries(scan.modPath));
      ExecutionPlan(
        scan.modName, scan.modPath, scan.langCandidates, LabelB,
        backup + deletes, 0, |deletes|)
  }

  // ---------------------------------------------------------------------------
  // BuildPlan

  /**
   * OperationPlanner.BuildPlan against the snapshot `snap`: it appends the operations and
   * bumps the counters loop by loop, and ends with the plan PlanSpec describes.
   */
  method BuildPlan(snap: Snapshot, scan: ModScanResult, options: AppOptions, backupRootDir: Option<Path>)
    returns (plan: ExecutionPlan)
    ensures plan == PlanSpec(snap, scan, options, backupRootDir)
  {
    var operations: seq<Operation> := [];
    var modRoot := scan.modPath;
    var dstLangDir := modRoot + ["lang"];
    var candidates := scan.langCandidates;
    var chosenLangDirs := ChooseLangSources(candidates, options.multiLangMode);
    var plannedMoves := 0;
    var plannedDeletes := 0;

    if options.backupZip && backupRootDir.Some? && !IsBlank(Render(backupRootDir.value)) {
      var root := backupRootDir.value;
      var zipPath := root + [scan.modName + ".zip"];
      operations := operations + [EnsureDirectoryOperation(root)];
      operations := operations + [BackupZipOperation(modRoot, zipPath)];
    }
    assert operations == BackupOps(scan, options, backupRootDir);

    if |chosenLangDirs| > 0 {
      operations := operations + [EnsureDirectoryOperation(dstLangDir)];
      ghost var head := operations;
      var moves;
      moves, plannedMoves, plannedDeletes := PlanMoves(snap, chosenLangDirs, dstLangDir);
      operations := operations + moves;
      var modChildren := SafeEnumerateFileSystemEntries(snap, modRoot);
      var deletes := PlanNonLangDeletes(modChildren);
      plannedDeletes := plannedDeletes + |deletes|;
      operations := operations + deletes;
      return ExecutionPlan(scan.modName, scan.modPath, candidates, LabelA, operations, plannedMoves, plannedDeletes);
    }

    var children := SafeEnumerateFileSystemEntries(snap, modRoot);
    var deletes;
    deletes, plannedDeletes := PlanDeleteAll(children);
    operations := operations + deletes;
    return ExecutionPlan(scan.modName, scan.modPath, candidates, LabelB, operations, 0, plannedDeletes);
  }

  /** The loop of policy B over the mod folder's children. */
  method PlanDeleteAll(children: seq<Path>) returns (deletes: seq<Operation>, plannedDeletes: nat)
    ensures deletes == DeleteAll(children)
    ensures plannedDeletes == |children|
  {
    deletes := [];
    plannedDeletes := 0;
    var i := 0;
    while i < |children|
      invariant 0 <= i <= |children|
      invariant deletes == DeleteAll(children[..i])
      invariant plannedDeletes == i
    {
      TakeSnoc(children, i);
      DeleteAllSnoc(children[..i], children[i]);
      plannedDeletes := plannedDeletes + 1;
      deletes := deletes + [DeletePathOperation(children[i])];
      i := i + 1;
    }
    assert children[..i] == children;
  }

  /** Counting existing targets distributes over concatenation. */
  lemma {:induction false} ExistingTargetsAppend(t: Tree, a: seq<Operation>, b: seq<Operation>)
    ensures ExistingTargets(t, a + b) == ExistingTargets(t, a) + ExistingTargets(t, b)
    decreases |b|
  {
    if b != [] {
      var b' := b[..|b| - 1];
      assert (a + b)[..|a + b| - 1] == a + b';
      ExistingTargetsAppend(t, a, b');
    } else {
      assert a + b == a;
    }
  }

  /** The outer loop of policy A over the chosen directories. */
  method PlanMoves(snap: Snapshot, chosenLangDirs: seq<Path>, dstLangDir: Path)
    returns (moves: seq<Operation>, plannedMoves: nat, overwrites: nat)
    ensures moves == LangMoves(snap, chosenLangDirs, dstLangDir)
    ensures plannedMoves == |moves|
    ensures overwrites == ExistingTargets(snap.tree, moves)
  {
    moves := [];
    plannedMoves := 0;
    overwrites := 0;
    var i := 0;
    while i < |chosenLangDirs|
      invariant 0 <= i <= |chosenLangDirs|
      invariant moves == LangMoves(snap, chosenLangDirs[..i], dstLangDir)
      invariant plannedMoves == |moves| && overwrites == ExistingTargets(snap.tree, moves)
    {
      var srcLangDir := chosenLangDirs[i];
      var entries := SafeEnumerateFileSystemEntries(snap, srcLangDir);
      var dirMoves, dirPlanned, dirOverwrites := PlanEntryMoves(snap.tree, entries, dstLangDir);
      ExistingTargetsAppend(snap.tree, moves, dirMoves);
      TakeSnoc(chosenLangDirs, i);
      LangMovesSnoc(snap, chosenLangDirs[..i], srcLangDir, dstLangDir);
      moves := moves + dirMoves;
      plannedMoves := plannedMoves + dirPlanned;
      overwrites := overwrites + dirOverwrites;
      i := i + 1;
    }
    assert chosenLangDirs[..i] == chosenLangDirs;
  }

  /** The inner loop of policy A over the entries of one chosen directory. */
  method PlanEntryMoves(t: Tree, entries: seq<Path>, dstLangDir: Path)
    returns (moves: seq<Operation>, plannedMoves: nat, overwrites: nat)
    ensures moves == Moves(entries, dstLangDir)
    ensures plannedMoves == |moves|
    ensures overwrites == ExistingTargets(t, moves)
  {
    moves := [];
    plannedMoves := 0;
    overwrites := 0;
    var j := 0;
    while j < |entries|
      invariant 0 <= j <= |entries|
      invariant moves == Moves(entries[..j], dstLangDir)
      invariant plannedMoves == |moves| && overwrites == ExistingTargets(t, moves)
    {
      plannedMoves := plannedMoves + 1;
      var name := FileName(entries[j]);
      var destPath := dstLangDir + [name];
      if destPath in t {
        overwrites := overwrites + 1;
      }
      var move := MoveWithOverwriteOperation(entries[j], destPath);
      TakeSnoc(entries, j);
      MovesSnoc(entries[..j], entries[j], dstLangDir);
      ExistingTargetsSnoc(t, moves, move);
      moves := moves + [move];
      j := j + 1;
    }
    assert entries[..j] == entries;
  }

  /** The loop of policy A over the mod folder's children. */
  method PlanNonLangDeletes(modChildren: seq<Path>) returns (deletes: seq<Operation>)
    ensures deletes == NonLangDeletes(modChildren)
  {
    deletes := [];
    var i := 0;
    while i < |modChildren|
      invariant 0 <= i <= |modChildren|
      invariant deletes == NonLangDeletes(modChildren[..i])
    {
      var child := modChildren[i];
      var name := FileName(child);
      TakeSnoc(modChildren, i);
      NonLangDeletesSnoc(modChildren[..i], child);
      if !EqIgnoreCase(name, "lang") {
        deletes := deletes + [DeletePathOperation(child)];
      }
      i := i + 1;
    }
    assert modChildren[..i] == modChildren;
  }

  // ---------------------------------------------------------------------------
  // What a plan promises

  /** Moves onto existing paths are only counted among moves. */
  lemma {:induction false} ExistingTargetsNone(t: Tree, ops: seq<Operation>)
    requires forall i :: 0 <= i < |ops| ==> !ops[i].MoveWithOverwriteOperation?
    ensures ExistingTargets(t, ops) == 0
    decreases |ops|
  {
    if ops != [] {
      ExistingTargetsNone(t, ops[..|ops| - 1]);
    }
  }

  /** Counting over a plan of four consecutive parts. */
  lemma CountKind4(a: seq<Operation>, b: seq<Operation>, c: seq<Operation>, d: seq<Operation>, k: OperationKind)
    ensures CountKind(a + b + c + d, k) == CountKind(a, k) + CountKind(b, k) + CountKind(c, k) + CountKind(d, k)
  {
    CountKindAppend(a + b + c, d, k);
    CountKindAppend(a + b, c, k);
    CountKindAppend(a, b, k);
  }

  lemma BackupOpsKinds(scan: ModScanResult, options: AppOptions, backupRootDir: Option<Path>)
    ensures var backup := BackupOps(scan, options, backupRootDir);
      && (forall i :: 0 <= i < |backup| ==> backup[i].Kind() != MoveWithOverwrite && backup[i].Kind() != DeletePath)
      && CountKind(backup, BackupZip) == if BackupWanted(options, backupRootDir) then 1 else 0
  {
    var backup := BackupOps(scan, options, backupRootDir);
    if BackupWanted(options, backupRootDir) {
      assert backup == [backup[0]] + [backup[1]];
      CountKindAppend([backup[0]], [backup[1]], BackupZip);
    } else {
      assert backup == [];
    }
  }

  /** The counts over a policy A plan, part by part. */
  lemma CountsOfPolicyA(t: Tree, backup: seq<Operation>, dstLangDir: Path, moves: seq<Operation>, deletes: seq<Operation>)
    requires forall i :: 0 <= i < |backup| ==> backup[i].Kind() != MoveWithOverwrite && backup[i].Kind() != DeletePath
    requires forall i :: 0 <= i < |moves| ==> moves[i].MoveWithOverwriteOperation?
    requires forall i :: 0 <= i < |deletes| ==> deletes[i].DeletePathOperation?
    ensures var ops := backup + [EnsureDirectoryOperation(dstLangDir)] + moves + deletes;
      && CountKind(ops, MoveWithOverwrite) == |moves|
      && CountKind(ops, DeletePath) == |deletes|
      && CountKind(ops, BackupZip) == CountKind(backup, BackupZip)
      && ExistingTargets(t, ops) == ExistingTargets(t, moves)
  {
    var ensure := [EnsureDirectoryOperation(dstLangDir)];
    CountKindNone(backup, MoveWithOverwrite);
    CountKindNone(backup, DeletePath);
    ExistingTargetsNone(t, backup);
    CountKindNone(ensure, MoveWithOverwrite);
    CountKindNone(ensure, DeletePath);
    CountKindNone(ensure, BackupZip);
    CountKindAll(moves, MoveWithOverwrite);
    CountKindNone(moves, DeletePath);
    CountKindNone(moves, BackupZip);
    CountKindNone(deletes, MoveWithOverwrite);
    CountKindAll(deletes, DeletePath);
    CountKindNone(deletes, BackupZip);
    CountKind4(backup, ensure, moves, deletes, MoveWithOverwrite);
    CountKind4(backup, ensure, moves, deletes, DeletePath);
    CountKind4(backup, ensure, moves, deletes, BackupZip);
    ExistingTargetsNone(t, ensure);
    ExistingTargetsNone(t, deletes);
    ExistingTargetsAppend(t, backup + ensure + moves, deletes);
    ExistingTargetsAppend(t, backup + ensure, moves);
    ExistingTargetsAppend(t, backup, ensure);
  }

  /** The counts over a policy B plan, part by part. */
  lemma CountsOfPolicyB(backup: seq<Operation>, deletes: seq<Operation>)
    requires forall i :: 0 <= i < |backup| ==> backup[i].Kind() != MoveWithOverwrite && backup[i].Kind() != DeletePath
    requires forall i :: 0 <= i < |deletes| ==> deletes[i].DeletePathOperation?
    ensures CountKind(backup + deletes, MoveWithOverwrite) == 0
    ensures CountKind(backup + deletes, DeletePath) == |deletes|
    ensures CountKind(backup + deletes, BackupZip) == CountKind(backup, BackupZip)
  {
    CountKindNone(backup, MoveWithOverwrite);
    CountKindNone(backup, DeletePath);
    CountKindNone(deletes, MoveWithOverwrite);
    CountKindAll(deletes, DeletePath);
    CountKindNone(deletes, BackupZip);
    CountKindAppend(backup, deletes, MoveWithOverwrite);
    CountKindAppend(backup, deletes, DeletePath);
    CountKindAppend(backup, deletes, BackupZip);
  }

  /**
   * The preview's counters: plannedMoves is the number of move operations; under
   * policy A plannedDeletes is the number of deletions plus the number of moves onto
   * a path that already exists, under policy B the number of deletions, one per entry
   * of the mod folder; the plan holds one BackupZip exactly when a backup is wanted.
   */
  lemma PlanCounts(snap: Snapshot, scan: ModScanResult, options: AppOptions, backupRootDir: Option<Path>)
    ensures var plan := PlanSpec(snap, scan, options, backupRootDir);
      && plan.plannedMoves == CountKind(plan.operations, MoveWithOverwrite)
      && CountKind(plan.operations, BackupZip) == (if BackupWanted(options, backupRootDir) then 1 else 0)
      && (scan.langCandidates != [] ==>
            plan.plannedDeletes == ExistingTargets(snap.tree, plan.operations) + CountKind(plan.operations, DeletePath))
      && (scan.langCandidates == [] ==>
            plan.plannedDeletes == CountKind(plan.operations, DeletePath) == |snap.entries(scan.modPath)|)
  {
    var backup := BackupOps(scan, options, backupRootDir);
    var chosen := ChooseLangSources(scan.langCandidates, options.multiLangMode);
    var dstLangDir := scan.modPath + ["lang"];
    BackupOpsKinds(scan, options, backupRootDir);
    if |chosen| > 0 {
      CountsOfPolicyA(snap.tree, backup, dstLangDir, LangMoves(snap, chosen, dstLangDir), NonLangDeletes(snap.entries(scan.modPath)));
    } else {
      CountsOfPolicyB(backup, DeleteAll(snap.entries(scan.modPath)));
    }
  }

  /** The entries a consistent snapshot lists for `d` are the paths whose parent is the directory `d`. */
  lemma EntryOf(snap: Snapshot, d: Path, a: Path)
    requires Consistent(snap)
    ensures a in snap.entries(d) <==> a in snap.tree && a != [] && Parent(a) == d && IsDir(snap.tree, d)
  {
    assert ListsChildren(snap.tree, d, snap.entries(d));
    if a != [] && Parent(a) == d {
      assert d <= a;
    }
  }

  /**
   * A move from `a` is planned over `sources` exactly when `a` is an entry of one of
   * them, and then it targets `a`'s name under `dstLangDir`.
   */
  lemma {:induction false} LangMovesMembers(snap: Snapshot, sources: seq<Path>, dstLangDir: Path, a: Path, b: Path)
    requires Consistent(snap)
    ensures MoveWithOverwriteOperation(a, b) in LangMoves(snap, sources, dstLangDir)
      <==> a in snap.tree && a != [] && Parent(a) in sources && IsDir(snap.tree, Parent(a)) && b == dstLangDir + [FileName(a)]
    decreases |sources|
  {
    if sources != [] {
      var init := sources[..|sources| - 1];
      var last := sources[|sources| - 1];
      assert sources == init + [last];
      LangMovesMembers(snap, init, dstLangDir, a, b);
      MovesMembers(snap.entries(last), dstLangDir, a, b);
      EntryOf(snap, last, a);
    }
  }

  /** In a policy A plan the moves are exactly those of the move part. */
  lemma MovesOfPolicyA(backup: seq<Operation>, dstLangDir: Path, moves: seq<Operation>, deletes: seq<Operation>, a: Path, b: Path)
    requires forall i :: 0 <= i < |backup| ==> backup[i].Kind() != MoveWithOverwrite
    requires forall i :: 0 <= i < |deletes| ==> deletes[i].DeletePathOperation?
    ensures MoveWithOverwriteOperation(a, b) in backup + [EnsureDirectoryOperation(dstLangDir)] + moves + deletes
      <==> MoveWithOverwriteOperation(a, b) in moves
  {
    var op := MoveWithOverwriteOperation(a, b);
    assert forall i :: 0 <= i < |backup| ==> backup[i] != op;
  }

  /** A policy B plan moves nothing. */
  lemma MovesOfPolicyB(backup: seq<Operation>, deletes: seq<Operation>, a: Path, b: Path)
    requires forall i :: 0 <= i < |backup| ==> backup[i].Kind() != MoveWithOverwrite
    requires forall i :: 0 <= i < |deletes| ==> deletes[i].DeletePathOperation?
    ensures MoveWithOverwriteOperation(a, b) !in backup + deletes
  {
    var op := MoveWithOverwriteOperation(a, b);
    assert forall i :: 0 <= i < |backup| ==> backup[i] != op;
  }

  /** Under policy B nothing is moved; under policy A the moves are the entries of the chosen directories. */
  lemma PlanMoveSources(snap: Snapshot, scan: ModScanResult, options: AppOptions, backupRootDir: Option<Path>, a: Path, b: Path)
    requires Consistent(snap)
    ensures var plan := PlanSpec(snap, scan, options, backupRootDir);
      var chosen := ChooseLangSources(scan.langCandidates, options.multiLangMode);
      MoveWithOverwriteOperation(a, b) in plan.operations
      <==> a in snap.tree && a != [] && Parent(a) in chosen && IsDir(snap.tree, Parent(a))
           && b == scan.modPath + ["lang", FileName(a)]
  {
    var backup := BackupOps(scan, options, backupRootDir);
    var chosen := ChooseLangSources(scan.langCandidates, options.multiLangMode);
    var dstLangDir := scan.modPath + ["lang"];
    BackupOpsKinds(scan, options, backupRootDir);
    assert dstLangDir + [FileName(a)] == scan.modPath + ["lang", FileName(a)];
    if |chosen| > 0 {
      MovesOfPolicyA(backup, dstLangDir, LangMoves(snap, chosen, dstLangDir), NonLangDeletes(snap.entries(scan.modPath)), a, b);
      LangMovesMembers(snap, chosen, dstLangDir, a, b);
    } else {
      MovesOfPolicyB(backup, DeleteAll(snap.entries(scan.modPath)), a, b);
    }
  }

  /**
   * The deletions: under policy A every entry of the mod folder not named `lang`
   * (ignoring case), under policy B every entry.
   */
  lemma PlanDeletes(snap: Snapshot, scan: ModScanResult, options: AppOptions, backupRootDir: Option<Path>, p: Path)
    requires Consistent(snap)
    ensures var plan := PlanSpec(snap, scan, options, backupRootDir);
      var child := p in snap.tree && p != [] && Parent(p) == scan.modPath && IsDir(snap.tree, scan.modPath);
      && (scan.langCandidates != [] ==>
            (DeletePathOperation(p) in plan.operations <==> child && !EqIgnoreCase(FileName(p), "lang")))
      && (scan.langCandidates == [] ==> (DeletePathOperation(p) in plan.operations <==> child))
  {
    var backup := BackupOps(scan, options, backupRootDir);
    var chosen := ChooseLangSources(scan.langCandidates, options.multiLangMode);
    var dstLangDir := scan.modPath + ["lang"];
    var children := snap.entries(scan.modPath);
    BackupOpsKinds(scan, options, backupRootDir);
    EntryOf(snap, scan.modPath, p);
    if |chosen| > 0 {
      DeletesOfPolicyA(backup, dstLangDir, LangMoves(snap, chosen, dstLangDir), NonLangDeletes(children), p);
    } else {
      DeletesOfPolicyB(backup, DeleteAll(children), p);
      DeleteAllMembers(children, p);
    }
  }

  /** Deletions in a policy A plan come only from its deletion part: the backup and the moves delete nothing. */
  lemma DeletesOfPolicyA(backup: seq<Operation>, dstLangDir: Path, moves: seq<Operation>, deletes: seq<Operation>, p: Path)
    requires forall i :: 0 <= i < |backup| ==> backup[i].Kind() != DeletePath
    requires forall i :: 0 <= i < |moves| ==> moves[i].MoveWithOverwriteOperation?
    ensures DeletePathOperation(p) in backup + [EnsureDirectoryOperation(dstLangDir)] + moves + deletes
      <==> DeletePathOperation(p) in deletes
  {
    var op := DeletePathOperation(p);
    assert forall i :: 0 <= i < |backup| ==> backup[i] != op;
  }

  /** Deletions in a policy B plan come only from its deletion part. */
  lemma DeletesOfPolicyB(backup: seq<Operation>, deletes: seq<Operation>, p: Path)
    requires forall i :: 0 <= i < |backup| ==> backup[i].Kind() != DeletePath
    ensures DeletePathOperation(p) in backup + deletes <==> DeletePathOperation(p) in deletes
  {
    var op := DeletePathOperation(p);
    assert forall i :: 0 <= i < |backup| ==> backup[i] != op;
  }

  /** Policy B deletes exactly the listed children. */
  lemma DeleteAllMembers(children: seq<Path>, p: Path)
    ensures DeletePathOperation(p) in DeleteAll(children) <==> p in children
  {
    if p in children {
      var i :| 0 <= i < |children| && children[i] == p;
      assert DeleteAll(children)[i] == DeletePathOperation(p);
    }
  }

  /** A policy A plan is the backup, then the EnsureDirectory of `dstLangDir`, then moves, then deletions. */
  lemma ShapeOfPolicyA(backup: seq<Operation>, dstLangDir: Path, moves: seq<Operation>, deletes: seq<Operation>)
    requires forall i :: 0 <= i < |moves| ==> moves[i].MoveWithOverwriteOperation?
    requires forall i :: 0 <= i < |deletes| ==> deletes[i].DeletePathOperation?
    ensures var ops := backup + [EnsureDirectoryOperation(dstLangDir)] + moves + deletes;
      && backup <= ops
      && ops[|backup|] == EnsureDirectoryOperation(dstLangDir)
      && (forall j :: |backup| < j < |ops| ==> ops[j].MoveWithOverwriteOperation? || ops[j].DeletePathOperation?)
      && (forall i, j :: |backup| <= i < j < |ops| && ops[i].DeletePathOperation? ==> ops[j].DeletePathOperation?)
  {
    var ops := backup + [EnsureDirectoryOperation(dstLangDir)] + moves + deletes;
    var k := |backup| + 1 + |moves|;
    assert forall j :: |backup| < j < k ==> ops[j] == moves[j - |backup| - 1];
    assert forall j :: k <= j < |ops| ==> ops[j] == deletes[j - k];
  }

  /**
   * The order of a plan: the backup first (EnsureDirectory of the backup root, then
   * BackupZip of the mod folder into `<root>/<mod name>.zip`) when wanted; then under
   * policy A the EnsureDirectory of `<mod>/lang` and moves before any deletion, and
   * under policy B deletions only.
   */
  lemma PlanShape(snap: Snapshot, scan: ModScanResult, options: AppOptions, backupRootDir: Option<Path>)
    ensures var plan := PlanSpec(snap, scan, options, backupRootDir);
      var backup := BackupOps(scan, options, backupRootDir);
      var ops := plan.operations;
      && backup <= ops
      && (BackupWanted(options, backupRootDir) ==>
            && |backup| == 2
            && ops[0] == EnsureDirectoryOperation(backupRootDir.value)
            && ops[1] == BackupZipOperation(scan.modPath, backupRootDir.value + [scan.modName + ".zip"]))
      && (!BackupWanted(options, backupRootDir) ==> backup == [])
      && (scan.langCandidates != [] ==>
            && |backup| < |ops|
            && ops[|backup|] == EnsureDirectoryOperation(scan.modPath + ["lang"])
            && (forall j :: |backup| < j < |ops| ==> ops[j].MoveWithOverwriteOperation? || ops[j].DeletePathOperation?)
            && (forall i, j :: |backup| <= i < j < |ops| && ops[i].DeletePathOperation? ==> ops[j].DeletePathOperation?))
      && (scan.langCandidates == [] ==> forall j :: |backup| <= j < |ops| ==> ops[j].DeletePathOperation?)
  {
    var backup := BackupOps(scan, options, backupRootDir);
    var chosen := ChooseLangSources(scan.langCandidates, options.multiLangMode);
    var dstLangDir := scan.modPath + ["lang"];
    if |chosen| > 0 {
      ShapeOfPolicyA(backup, dstLangDir, LangMoves(snap, chosen, dstLangDir), NonLangDeletes(snap.entries(scan.modPath)));
    } else {
      var deletes := DeleteAll(snap.entries(scan.modPath));
      assert forall j :: |backup| <= j < |backup + deletes| ==> (backup + deletes)[j] == deletes[j - |backup|];
    }
  }

  /** The plan's header: what it copies from the scan, and the policy it took. */
  lemma PlanHeader(snap: Snapshot, scan: ModScanResult, options: AppOptions, backupRootDir: Option<Path>)
    ensures var plan := PlanSpec(snap, scan, options, backupRootDir);
      && plan.modName == scan.modName && plan.modPath == scan.modPath
      && plan.langCandidates == scan.langCandidates
      && (plan.policyLabel == LabelA <==> scan.langCandidates != [])
      && (plan.policyLabel == LabelB <==> scan.langCandidates == [])
      && (scan.langCandidates == [] ==> plan.plannedMoves == 0)
  {
    assert LabelA[0] != LabelB[0];
  }

  /** The plan does not depend on the dry-run switch or the delete mode: a preview shows what a run does. */
  lemma PlanIgnoresRunSwitches(snap: Snapshot, scan: ModScanResult, options: AppOptions, backupRootDir: Option<Path>,
                               dryRun: bool, deleteMode: DeleteMode)
    ensures PlanSpec(snap, scan, options.(dryRun := dryRun, deleteMode := deleteMode), backupRootDir)
      == PlanSpec(snap, scan, options, backupRootDir)
  {
  }
}
