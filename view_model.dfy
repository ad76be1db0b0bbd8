/**
 * ViewModels/MainViewModel.cs: the preview counters recomputed after a scan, the
 * backup folder of one execution, and the batch that plans and executes every mod in
 * turn, tallies the outcomes, carries on after a failure and marks the remaining
 * mods Cancelled once the user has asked to stop.
 */
module ViewModels {
  import opened Wrappers
  import opened Paths
  import opened FileTree
  import opened Models
  import opened Operations
  import opened Storage
  import opened Planning
  import opened Execution
  import opened Sequences

  /** One row of the mod list (ModItemViewModel), with the fields the batch reads and writes. */
  datatype ModItem = ModItem(
    sourceType: ModSourceType,
    modName: Name,
    modPath: Path,
    assetsExists: bool,
    langCandidates: seq<Path>,
    policyLabel: string,
    plannedMoves: int,
    plannedDeletes: int,
    status: ModStatus)

  /** The scan result rebuilt from a row before planning it. */
  function ScanOf(m: ModItem): ModScanResult
  {
    ModScanResult(m.sourceType, m.modName, m.modPath, m.assetsExists, m.langCandidates, 0, 0, "")
  }

  // ---------------------------------------------------------------------------
  // The backup folder

  /**
   * The backup folder of one execution: `<target>\_backup\<timestamp>` when backups
   * are on, none otherwise. The clock reading is the parameter `timestamp`.
   */
  function BackupRunDir(options: AppOptions, targetDir: Path, timestamp: string): Option<Path>
  {
    if options.backupZip then Some(targetDir + ["_backup", timestamp]) else None
  }

  /** A rendered path of two or more segments holds a separator, so it is never blank. */
  lemma RenderedPairNotBlank(p: Path)
    requires |p| >= 2
    ensures !IsBlank(Render(p))
  {
    var init := Render(p[..|p| - 1]);
    assert Render(p)[|init|] == '\\';
  }

  /** The planner plans a backup in an execution exactly when backups are on. */
  lemma BackupRunDirWanted(options: AppOptions, targetDir: Path, timestamp: string)
    ensures BackupWanted(options, BackupRunDir(options, targetDir, timestamp)) <==> options.backupZip
    ensures options.backupZip ==> BackupRunDir(options, targetDir, timestamp).value[..|targetDir|] == targetDir
  {
    if options.backupZip {
      RenderedPairNotBlank(targetDir + ["_backup", timestamp]);
    }
  }

  // ---------------------------------------------------------------------------
  // RecalculatePlans

  /** A row with the policy and the counters of the plan built without a backup folder. */
  function Preview(snap: Snapshot, m: ModItem, options: AppOptions): ModItem
  {
    var plan := PlanSpec(snap, ScanOf(m), options, None);
    m.(policyLabel := plan.policyLabel, plannedMoves := plan.plannedMoves, plannedDeletes := plan.plannedDeletes)
  }

  /**
   * The preview shows what an execution will count: a plan without a backup folder
   * holds no BackupZip, and the folder changes neither the policy nor the counters.
   */
  lemma PreviewMatchesExecution(snap: Snapshot, m: ModItem, options: AppOptions, backupRunDir: Option<Path>)
    ensures CountKind(PlanSpec(snap, ScanOf(m), options, None).operations, BackupZip) == 0
    ensures var p := Preview(snap, m, options);
      var plan := PlanSpec(snap, ScanOf(m), options, backupRunDir);
      && p.policyLabel == plan.policyLabel
      && p.plannedMoves == plan.plannedMoves
      && p.plannedDeletes == plan.plannedDeletes
      && p.(policyLabel := m.policyLabel, plannedMoves := m.plannedMoves, plannedDeletes := m.plannedDeletes) == m
  {
    PlanCounts(snap, ScanOf(m), options, None);
  }

  // ---------------------------------------------------------------------------
  // The batch as a function

  /** The token handed to the executor: CancellationToken.None is never cancelled. */
  function NoCancel(i: nat): bool
  {
    false
  }

  /** The status of a row whose plan was executed; the plan's candidates are the row's. */
  function StatusAfter(m: ModItem, outcome: RunOutcome): ModStatus
  {
    if outcome == Completed then (if |m.langCandidates| == 0 then Warning else Success) else Failed
  }

  /** The exception's Message as the batch logs it. */
  function FailureMessage(outcome: RunOutcome): string
  {
    match outcome
    case Aborted(e) => Message(e)
    case _ => "The operation was canceled."
  }

  function ModFailedLine(m: ModItem, outcome: RunOutcome): LogLine
  {
    LogLine(Error, "Mod failed: " + m.modName + " / " + FailureMessage(outcome))
  }

  const CancelDetectedLine: LogLine := LogLine(Warn, "Cancel detected. Stop after current mod.")

  /** The plan of row `m` on the tree `t`, read through the listing orders `views(t)`. */
  function ModPlan(t: Tree, m: ModItem, options: AppOptions, backupRunDir: Option<Path>, views: Tree -> Snapshot): ExecutionPlan
  {
    PlanSpec(views(t), ScanOf(m), options, backupRunDir)
  }

  /** The execution of row `m`'s plan on the tree `t`, with the token that is never cancelled. */
  function ModRun(t: Tree, m: ModItem, options: AppOptions, backupRunDir: Option<Path>, views: Tree -> Snapshot): (r: Progress)
    requires WellFormed(t)
    ensures WellFormed(r.tree)
    ensures r.outcome != Canceled
  {
    DispatchSound();
    NoCancelRunsThrough(t, ModPlan(t, m, options, backupRunDir, views).operations, options, Dispatch);
    Run(t, ModPlan(t, m, options, backupRunDir, views).operations, options, NoCancel, Dispatch)
  }

  /** What one row leaves behind: the tree, the lines it logged and the status it got. */
  datatype RowResult = RowResult(tree: Tree, log: seq<LogLine>, status: ModStatus)

  /**
   * One row of the loop: its plan executed, the status set from the outcome, and
   * "Mod failed" logged after the executor's own lines when the execution threw.
   */
  function ExecuteRow(t: Tree, m: ModItem, options: AppOptions, backupRunDir: Option<Path>, views: Tree -> Snapshot): (r: RowResult)
    requires WellFormed(t)
    ensures WellFormed(r.tree)
    ensures r.status in {Success, Warning, Failed}
  {
    var run := ModRun(t, m, options, backupRunDir, views);
    var status := StatusAfter(m, run.outcome);
    RowResult(run.tree, Lines(run.log) + (if status == Failed then [ModFailedLine(m, run.outcome)] else []), status)
  }

  /** The program's way of executing a row, as one value the batch is stated over. */
  function Executing(options: AppOptions, backupRunDir: Option<Path>, views: Tree -> Snapshot): (Tree, ModItem) --> RowResult
  {
    (t: Tree, m: ModItem) requires WellFormed(t) => ExecuteRow(t, m, options, backupRunDir, views)
  }

  /** A way of executing rows that is defined on every well-formed tree, keeps it well formed and sets a final status. */
  ghost predicate SoundExec(exec: (Tree, ModItem) --> RowResult)
  {
    forall t, m :: WellFormed(t) ==>
      exec.requires(t, m) && WellFormed(exec(t, m).tree) && exec(t, m).status in {Success, Warning, Failed}
  }

  lemma ExecutingSound(options: AppOptions, backupRunDir: Option<Path>, views: Tree -> Snapshot)
    ensures SoundExec(Executing(options, backupRunDir, views))
    ensures ExecutesRows(Executing(options, backupRunDir, views), options, backupRunDir, views)
  {
  }

  /** `exec` executes every row as ExecuteRow does with these options, backup folder and listing orders. */
  ghost predicate ExecutesRows(exec: (Tree, ModItem) --> RowResult, options: AppOptions, backupRunDir: Option<Path>,
                               views: Tree -> Snapshot)
  {
    forall t, m {:trigger ExecuteRow(t, m, options, backupRunDir, views)} ::
      WellFormed(t) ==> exec.requires(t, m) && exec(t, m) == ExecuteRow(t, m, options, backupRunDir, views)
  }

  /**
   * The state of the batch after some rows: the tree, the log lines, the status of
   * each row, the three counters, how many rows were planned and executed, and
   * whether a cancellation was detected.
   */
  datatype Batch = Batch(
    tree: Tree,
    log: seq<LogLine>,
    statuses: seq<ModStatus>,
    success: nat,
    warning: nat,
    failed: nat,
    visited: nat,
    stopped: bool)

  /** The number of rows with status `s`. */
  function CountStatus(statuses: seq<ModStatus>, s: ModStatus): (n: nat)
    ensures n <= |statuses|
  {
    if statuses == [] then 0
    else CountStatus(statuses[..|statuses| - 1], s) + (if statuses[|statuses| - 1] == s then 1 else 0)
  }

  /** One turn of the loop: execute the row, record its status, read the cancel flag. */
  function VisitMod(b: Batch, m: ModItem, exec: (Tree, ModItem) --> RowResult, cancel: bool): Batch
    requires SoundExec(exec) && WellFormed(b.tree)
  {
    var r := exec(b.tree, m);
    var status := r.status;
    Batch(r.tree, b.log + r.log + (if cancel then [CancelDetectedLine] else []), b.statuses + [status],
      b.success + (if status == Success then 1 else 0),
      b.warning + (if status == Warning then 1 else 0),
      b.failed + (if status == Failed then 1 else 0),
      b.visited + 1, cancel)
  }

  /**
   * The loop of ExecuteAsync over `mods` from the tree `t`, each row executed by
   * `exec`. `cancelRequested(i)` is the cancel flag as the loop reads it after row i.
   */
  function ExecuteBatch(t: Tree, mods: seq<ModItem>, exec: (Tree, ModItem) --> RowResult, cancelRequested: nat -> bool): (b: Batch)
    requires SoundExec(exec) && WellFormed(t)
    ensures WellFormed(b.tree)
    ensures |b.statuses| == |mods| && b.visited <= |mods|
    ensures !b.stopped ==> b.visited == |mods|
    decreases |mods|
  {
    if mods == [] then Batch(t, [], [], 0, 0, 0, 0, false)
    else
      var n := |mods| - 1;
      var b := ExecuteBatch(t, mods[..n], exec, cancelRequested);
      if b.stopped then
        var r := b.(statuses := b.statuses + [Cancelled]);
        assert r.statuses[..n] == b.statuses;
        r
      else
        var r := VisitMod(b, mods[n], exec, cancelRequested(n));
        assert r.statuses[..n] == b.statuses;
        r
  }

  // ---------------------------------------------------------------------------
  // Properties of the batch

  /** The counters of a batch: each counts the rows with its status, and together they count the rows visited. */
  ghost predicate Tallied(b: Batch)
  {
    && b.success == CountStatus(b.statuses, Success)
    && b.warning == CountStatus(b.statuses, Warning)
    && b.failed == CountStatus(b.statuses, Failed)
    && b.success + b.warning + b.failed == b.visited
  }

  lemma {:induction false} BatchTallied(t: Tree, mods: seq<ModItem>, exec: (Tree, ModItem) --> RowResult, cancelRequested: nat -> bool)
    requires SoundExec(exec) && WellFormed(t)
    ensures Tallied(ExecuteBatch(t, mods, exec, cancelRequested))
    decreases |mods|
  {
    if mods != [] {
      var n := |mods| - 1;
      BatchTallied(t, mods[..n], exec, cancelRequested);
      var b := ExecuteBatch(t, mods[..n], exec, cancelRequested);
      var r := ExecuteBatch(t, mods, exec, cancelRequested);
      assert r.statuses[..n] == b.statuses;
    }
  }

  /** Every row the batch visited has one of the three final statuses, and every row after them is Cancelled. */
  ghost predicate Settled(b: Batch)
  {
    && (forall j :: 0 <= j < b.visited && j < |b.statuses| ==> b.statuses[j] in {Success, Warning, Failed})
    && (forall j :: b.visited <= j < |b.statuses| ==> b.statuses[j] == Cancelled)
  }

  lemma {:induction false} BatchStatuses(t: Tree, mods: seq<ModItem>, exec: (Tree, ModItem) --> RowResult, cancelRequested: nat -> bool)
    requires SoundExec(exec) && WellFormed(t)
    ensures Settled(ExecuteBatch(t, mods, exec, cancelRequested))
    decreases |mods|
  {
    if mods != [] {
      var n := |mods| - 1;
      BatchStatuses(t, mods[..n], exec, cancelRequested);
      var b := ExecuteBatch(t, mods[..n], exec, cancelRequested);
      var r := ExecuteBatch(t, mods, exec, cancelRequested);
      assert r.statuses[..n] == b.statuses;
      forall j | 0 <= j < n ensures r.statuses[j] == b.statuses[j] {
        assert r.statuses[..n][j] == r.statuses[j];
      }
      if !b.stopped {
        assert r.statuses[n] == exec(b.tree, mods[n]).status;
      }
    }
  }

  /**
   * A batch stops only after a row whose cancel flag was read as set, reads the flag
   * as clear after every earlier row, and runs through all rows otherwise.
   */
  lemma {:induction false} BatchStops(t: Tree, mods: seq<ModItem>, exec: (Tree, ModItem) --> RowResult, cancelRequested: nat -> bool)
    requires SoundExec(exec) && WellFormed(t)
    ensures var b := ExecuteBatch(t, mods, exec, cancelRequested);
      && (b.stopped ==> b.visited > 0 && cancelRequested(b.visited - 1))
      && (forall j :: 0 <= j < b.visited - (if b.stopped then 1 else 0) ==> !cancelRequested(j))
    decreases |mods|
  {
    if mods != [] {
      BatchStops(t, mods[..|mods| - 1], exec, cancelRequested);
    }
  }

  /**
   * The batch over the first rows `done` is the start of the batch over `done + rest`;
   * once it has detected a cancellation no further row is planned or executed.
   */
  lemma {:induction false} BatchPrefix(t: Tree, done: seq<ModItem>, rest: seq<ModItem>, exec: (Tree, ModItem) --> RowResult,
                                       cancelRequested: nat -> bool)
    requires SoundExec(exec) && WellFormed(t)
    ensures var p := ExecuteBatch(t, done, exec, cancelRequested);
      var b := ExecuteBatch(t, done + rest, exec, cancelRequested);
      && (forall j :: 0 <= j < |done| ==> b.statuses[j] == p.statuses[j])
      && p.visited <= b.visited
      && (p.stopped ==> b == p.(statuses := b.statuses))
    decreases |rest|
  {
    if rest == [] {
      assert done + rest == done;
    } else {
      var init, last := rest[..|rest| - 1], rest[|rest| - 1];
      SnocSplit(done, rest);
      BatchPrefix(t, done, init, exec, cancelRequested);
      if ExecuteBatch(t, done + init, exec, cancelRequested).stopped {
        StoppedStep(t, done + init, last, exec, cancelRequested);
      } else {
        BatchStep(t, done + init, last, exec, cancelRequested);
      }
    }
  }

  /** A row after the batch has stopped is only marked Cancelled. */
  lemma StoppedStep(t: Tree, mods: seq<ModItem>, m: ModItem, exec: (Tree, ModItem) --> RowResult, cancelRequested: nat -> bool)
    requires SoundExec(exec) && WellFormed(t)
    requires ExecuteBatch(t, mods, exec, cancelRequested).stopped
    ensures ExecuteBatch(t, mods + [m], exec, cancelRequested)
         == ExecuteBatch(t, mods, exec, cancelRequested).(statuses := ExecuteBatch(t, mods, exec, cancelRequested).statuses + [Cancelled])
  {
    assert (mods + [m])[..|mods|] == mods;
  }

  /**
   * Once the batch over `done` has stopped, the batch over `done + rest` is the same
   * batch with every row of `rest` Cancelled: no further row is planned or executed.
   */
  lemma {:induction false} CancelledTail(t: Tree, done: seq<ModItem>, rest: seq<ModItem>, exec: (Tree, ModItem) --> RowResult,
                                         cancelRequested: nat -> bool)
    requires SoundExec(exec) && WellFormed(t)
    requires ExecuteBatch(t, done, exec, cancelRequested).stopped
    ensures var p := ExecuteBatch(t, done, exec, cancelRequested);
      var b := ExecuteBatch(t, done + rest, exec, cancelRequested);
      && b == p.(statuses := b.statuses)
      && (forall j :: 0 <= j < |b.statuses| ==> b.statuses[j] == if j < |done| then p.statuses[j] else Cancelled)
    decreases |rest|
  {
    if rest == [] {
      assert done + rest == done;
    } else {
      var n := |rest| - 1;
      CancelledTail(t, done, rest[..n], exec, cancelRequested);
      assert done + rest == (done + rest[..n]) + [rest[n]];
      StoppedStep(t, done + rest[..n], rest[n], exec, cancelRequested);
    }
  }

  /**
   * Row j of a batch that reached it: the rows before it ran without stopping, and
   * its status is the one its execution on the tree they left produced.
   */
  lemma RowStatus(t: Tree, mods: seq<ModItem>, exec: (Tree, ModItem) --> RowResult, cancelRequested: nat -> bool, j: nat)
    requires SoundExec(exec) && WellFormed(t)
    requires j < ExecuteBatch(t, mods, exec, cancelRequested).visited
    ensures var before := ExecuteBatch(t, mods[..j], exec, cancelRequested);
      && !before.stopped && before.visited == j
      && ExecuteBatch(t, mods, exec, cancelRequested).statuses[j] == exec(before.tree, mods[j]).status
  {
    var done, m, rest := mods[..j], mods[j], mods[j + 1..];
    Split(mods, j);
    BatchPrefix(t, done, [m] + rest, exec, cancelRequested);
    BatchStep(t, done, m, exec, cancelRequested);
    BatchPrefix(t, done + [m], rest, exec, cancelRequested);
  }

  /**
   * A row of the program's batch fails exactly when its execution threw; otherwise it
   * is Warning without candidates and Success with some. It logs the executor's lines
   * first and adds "Mod failed" only on failure.
   */
  lemma RowFailedIffThrew(t: Tree, m: ModItem, options: AppOptions, backupRunDir: Option<Path>, views: Tree -> Snapshot)
    requires WellFormed(t)
    ensures var run := ModRun(t, m, options, backupRunDir, views);
      var r := ExecuteRow(t, m, options, backupRunDir, views);
      && (r.status == Failed <==> run.outcome.Aborted?)
      && (r.status == Warning <==> run.outcome == Completed && m.langCandidates == [])
      && (r.status == Success <==> run.outcome == Completed && m.langCandidates != [])
      && r.log[..|run.log|] == Lines(run.log)
      && |r.log| == |run.log| + (if run.outcome.Aborted? then 1 else 0)
  {
    var run := ModRun(t, m, options, backupRunDir, views);
    var r := ExecuteRow(t, m, options, backupRunDir, views);
    assert |Lines(run.log)| == |run.log|;
    assert r.log[..|run.log|] == Lines(run.log);
  }

  /** A batch whose rows leave the tree alone and never fail leaves the filesystem as it was, and no row fails. */
  lemma {:induction false} HarmlessBatch(t: Tree, mods: seq<ModItem>, exec: (Tree, ModItem) --> RowResult,
                                         cancelRequested: nat -> bool)
    requires SoundExec(exec) && WellFormed(t)
    requires forall t', m :: WellFormed(t') ==> exec(t', m).tree == t' && exec(t', m).status != Failed
    ensures var b := ExecuteBatch(t, mods, exec, cancelRequested);
      b.tree == t && b.failed == 0
    decreases |mods|
  {
    if mods != [] {
      HarmlessBatch(t, mods[..|mods| - 1], exec, cancelRequested);
    }
  }

  /** Under dry-run the program's batch changes nothing on disk and no row fails. */
  lemma DryRunBatchHarmless(t: Tree, mods: seq<ModItem>, options: AppOptions, backupRunDir: Option<Path>,
                            views: Tree -> Snapshot, cancelRequested: nat -> bool)
    requires WellFormed(t) && options.dryRun
    ensures var b := ExecuteBatch(t, mods, Executing(options, backupRunDir, views), cancelRequested);
      b.tree == t && b.failed == 0
  {
    var exec := Executing(options, backupRunDir, views);
    forall t', m | WellFormed(t') ensures exec(t', m).tree == t' && exec(t', m).status != Failed {
      DryRunRow(t', m, options, backupRunDir, views);
    }
    HarmlessBatch(t, mods, exec, cancelRequested);
  }

  /** Under dry-run one row leaves the tree alone and does not fail. */
  lemma DryRunRow(t: Tree, m: ModItem, options: AppOptions, backupRunDir: Option<Path>, views: Tree -> Snapshot)
    requires WellFormed(t) && options.dryRun
    ensures var r := ExecuteRow(t, m, options, backupRunDir, views);
      r.tree == t && r.status != Failed
  {
    DispatchSound();
    var ops := ModPlan(t, m, options, backupRunDir, views).operations;
    DryRunHarmless(t, ops, options, NoCancel, Dispatch);
    NoCancelRunsThrough(t, ops, options, Dispatch);
  }

  /** One more row of a batch that has not stopped is one more turn of the loop. */
  lemma BatchStep(t: Tree, mods: seq<ModItem>, m: ModItem, exec: (Tree, ModItem) --> RowResult, cancelRequested: nat -> bool)
    requires SoundExec(exec) && WellFormed(t)
    requires !ExecuteBatch(t, mods, exec, cancelRequested).stopped
    ensures ExecuteBatch(t, mods + [m], exec, cancelRequested)
         == VisitMod(ExecuteBatch(t, mods, exec, cancelRequested), m, exec, cancelRequested(|mods|))
  {
    assert (mods + [m])[..|mods|] == mods;
  }

  /**
   * The rows after a cancellation detected after the rows `done`, the start of `mods`:
   * the batch is the one over `done`, and marking every later row Cancelled gives
   * each row its status.
   */
  lemma CancelledRows(t: Tree, mods: seq<ModItem>, done: seq<ModItem>, rest: seq<ModItem>, exec: (Tree, ModItem) --> RowResult,
                      cancelRequested: nat -> bool, marked: seq<ModItem>, after: seq<ModItem>)
    requires SoundExec(exec) && WellFormed(t) && done + rest == mods && |marked| == |after| == |mods|
    requires ExecuteBatch(t, done, exec, cancelRequested).stopped
    requires forall j :: 0 <= j < |done| ==> marked[j] == mods[j].(status := ExecuteBatch(t, done, exec, cancelRequested).statuses[j])
    requires forall j :: |done| <= j < |marked| ==> marked[j] == mods[j]
    requires forall j :: 0 <= j < |after| ==> after[j] == if j < |done| then marked[j] else marked[j].(status := Cancelled)
    ensures var p := ExecuteBatch(t, done, exec, cancelRequested);
      var b := ExecuteBatch(t, mods, exec, cancelRequested);
      && b == p.(statuses := b.statuses)
      && (forall j :: 0 <= j < |after| ==> after[j] == mods[j].(status := b.statuses[j]))
  {
    CancelledTail(t, done, rest, exec, cancelRequested);
  }

  // ---------------------------------------------------------------------------
  // The view model

  class MainViewModel {
    var mods: seq<ModItem>
    var logs: seq<LogLine>
    const executor: Executor

    constructor (executor: Executor)
      ensures this.executor == executor && mods == [] && logs == []
    {
      this.executor := executor;
      mods := [];
      logs := [];
    }

    /** RecalculatePlans: every row shows the policy and counters of its plan without a backup folder. */
    method RecalculatePlans(snap: Snapshot, options: AppOptions)
      modifies this
      ensures |mods| == |old(mods)| && logs == old(logs)
      ensures forall i :: 0 <= i < |mods| ==> mods[i] == Preview(snap, old(mods)[i], options)
    {
      if |mods| == 0 {
        return;
      }
      var i := 0;
      while i < |mods|
        invariant 0 <= i <= |mods| == |old(mods)| && logs == old(logs)
        invariant forall k :: 0 <= k < i ==> mods[k] == Preview(snap, old(mods)[k], options)
        invariant forall k :: i <= k < |mods| ==> mods[k] == old(mods)[k]
      {
        var mod := mods[i];
        var plan := BuildPlan(snap, ScanOf(mod), options, None);
        mods := mods[i := mod.(policyLabel := plan.policyLabel, plannedMoves := plan.plannedMoves,
                                 plannedDeletes := plan.plannedDeletes)];
        i := i + 1;
      }
    }

    /**
     * The per-row loop of ExecuteAsync (from CurrentOptions on): rows planned and
     * executed in order on the live filesystem, the statuses and the three counters
     * as ExecuteBatch describes them.
     */
    method ExecuteMods(options: AppOptions, targetDir: Path, timestamp: string, views: Tree -> Snapshot,
                       cancelRequested: nat -> bool)
      returns (success: nat, warning: nat, failed: nat)
      requires executor.fs.Valid()
      modifies this, executor.fs
      ensures executor.fs.Valid()
      ensures var b := ExecuteBatch(old(executor.fs.tree), old(mods),
                                    Executing(options, BackupRunDir(options, targetDir, timestamp), views), cancelRequested);
        && executor.fs.tree == b.tree && logs == old(logs) + b.log
        && |mods| == |old(mods)|
        && (forall j :: 0 <= j < |mods| ==> mods[j] == old(mods)[j].(status := b.statuses[j]))
        && success == b.success && warning == b.warning && failed == b.failed
    {
      var backupRunDir := BackupRunDir(options, targetDir, timestamp);
      ExecutingSound(options, backupRunDir, views);
      success, warning, failed := ExecuteModsWith(options, backupRunDir, views, cancelRequested,
                                                  Executing(options, backupRunDir, views));
    }

    /**
     * The window shows the batch `b` over the rows `mods0`: the filesystem is the one
     * it leaves, the log has its lines after `logs0`, the rows it has reached carry
     * its statuses and the others are as they were.
     */
    ghost predicate Shows(b: Batch, logs0: seq<LogLine>, mods0: seq<ModItem>)
      reads this, executor.fs
    {
      && executor.fs.tree == b.tree && logs == logs0 + b.log
      && |mods| == |mods0| && |b.statuses| <= |mods0|
      && (forall j :: 0 <= j < |b.statuses| ==> mods[j] == mods0[j].(status := b.statuses[j]))
      && (forall j :: |b.statuses| <= j < |mods| ==> mods[j] == mods0[j])
    }

    /** The loop of ExecuteMods, for any `exec` that executes rows as ExecuteRow does. */
    method ExecuteModsWith(options: AppOptions, backupRunDir: Option<Path>, views: Tree -> Snapshot,
                           cancelRequested: nat -> bool, ghost exec: (Tree, ModItem) --> RowResult)
      returns (success: nat, warning: nat, failed: nat)
      requires executor.fs.Valid()
      requires SoundExec(exec) && ExecutesRows(exec, options, backupRunDir, views)
      modifies this, executor.fs
      ensures executor.fs.Valid()
      ensures var b := ExecuteBatch(old(executor.fs.tree), old(mods), exec, cancelRequested);
        && Shows(b, old(logs), old(mods))
        && success == b.success && warning == b.warning && failed == b.failed
    {
      ghost var t0 := executor.fs.tree;
      ghost var mods0 := mods;
      ghost var logs0 := logs;
      success, warning, failed := 0, 0, 0;
      var i := 0;
      // `done` holds the rows visited so far, `rest` the ones still to come
      ghost var done: seq<ModItem> := [];
      ghost var rest := mods0;
      ghost var b := ExecuteBatch(t0, done, exec, cancelRequested);
      while i < |mods|
        invariant 0 <= i <= |mods| == |mods0| && |done| == i && done + rest == mods0
        invariant executor.fs.Valid()
        invariant b == ExecuteBatch(t0, done, exec, cancelRequested) && !b.stopped
        invariant Shows(b, logs0, mods0)
        invariant success == b.success && warning == b.warning && failed == b.failed
      {
        ShiftAt(done, rest);
        BatchStep(t0, done, mods0[i], exec, cancelRequested);
        var status;
        status, success, warning, failed :=
          VisitRow(i, options, backupRunDir, views, cancelRequested(i), exec, b, logs0, mods0, success, warning, failed);
        b := VisitMod(b, mods0[i], exec, cancelRequested(i));
        done, rest := done + [mods0[i]], rest[1..];
        if cancelRequested(i) {
          CancelRest(i + 1, t0, mods0, logs0, done, rest, exec, cancelRequested);
          return;
        }
        i := i + 1;
      }
      assert done == mods0 by {
        assert rest == [];
      }
    }

    /** One turn of the loop on row i, the counters included: the batch `b` advanced by that row. */
    method VisitRow(i: nat, options: AppOptions, backupRunDir: Option<Path>, views: Tree -> Snapshot, cancel: bool,
                    ghost exec: (Tree, ModItem) --> RowResult, ghost b: Batch, ghost logs0: seq<LogLine>,
                    ghost mods0: seq<ModItem>, success: nat, warning: nat, failed: nat)
      returns (status: ModStatus, success': nat, warning': nat, failed': nat)
      requires executor.fs.Valid() && SoundExec(exec) && ExecutesRows(exec, options, backupRunDir, views)
      requires Shows(b, logs0, mods0) && |b.statuses| == i < |mods0|
      requires success == b.success && warning == b.warning && failed == b.failed
      modifies this, executor.fs
      ensures executor.fs.Valid()
      ensures var next := VisitMod(b, mods0[i], exec, cancel);
        && Shows(next, logs0, mods0)
        && success' == next.success && warning' == next.warning && failed' == next.failed
    {
      status := ProcessRow(i, options, backupRunDir, views, cancel, exec);
      success', warning', failed' := success, warning, failed;
      if status == Success {
        success' := success + 1;
      } else if status == Warning {
        warning' := warning + 1;
      } else {
        failed' := failed + 1;
      }
      assert logs == logs0 + VisitMod(b, mods0[i], exec, cancel).log by {
        Concat3(logs0, b.log, exec(b.tree, mods0[i]).log, if cancel then [CancelDetectedLine] else []);
      }
    }

    /**
     * One turn of the loop on row i: BuildPlan on the filesystem as it is now, the
     * executor with CancellationToken.None, the row's status, "Mod failed" on a
     * failure, and the cancel notice when the flag `cancel` is read as set.
     */
    method ProcessRow(i: nat, options: AppOptions, backupRunDir: Option<Path>, views: Tree -> Snapshot, cancel: bool,
                      ghost exec: (Tree, ModItem) --> RowResult)
      returns (status: ModStatus)
      requires executor.fs.Valid() && ExecutesRows(exec, options, backupRunDir, views) && i < |mods|
      modifies this, executor.fs
      ensures executor.fs.Valid()
      ensures exec.requires(old(executor.fs.tree), old(mods)[i])
      ensures var r := exec(old(executor.fs.tree), old(mods)[i]);
        && executor.fs.tree == r.tree && status == r.status
        && logs == old(logs) + r.log + (if cancel then [CancelDetectedLine] else [])
        && mods == old(mods)[i := old(mods)[i].(status := status)]
    {
      var mod := mods[i];
      var rowLog;
      rowLog, status := ExecuteRowNow(mod, options, backupRunDir, views, exec);
      mods := mods[i := mod.(status := status)];
      logs := logs + rowLog;
      if cancel {
        logs := logs + [CancelDetectedLine];
      }
    }

    /** The row itself: its plan, its execution, its status and its own log lines. */
    method ExecuteRowNow(mod: ModItem, options: AppOptions, backupRunDir: Option<Path>, views: Tree -> Snapshot,
                         ghost exec: (Tree, ModItem) --> RowResult)
      returns (rowLog: seq<LogLine>, status: ModStatus)
      requires executor.fs.Valid() && ExecutesRows(exec, options, backupRunDir, views)
      modifies executor.fs
      ensures executor.fs.Valid()
      ensures exec.requires(old(executor.fs.tree), mod)
      ensures var r := exec(old(executor.fs.tree), mod);
        executor.fs.tree == r.tree && rowLog == r.log && status == r.status
    {
      ghost var t := executor.fs.tree;
      ghost var r := ExecuteRow(t, mod, options, backupRunDir, views);
      assert exec.requires(t, mod) && exec(t, mod) == r;
      var plan := BuildPlan(views(executor.fs.tree), ScanOf(mod), options, backupRunDir);
      PlanHeader(views(executor.fs.tree), ScanOf(mod), options, backupRunDir);
      var runLog, outcome := executor.ExecuteCore(plan, options, NoCancel);
      rowLog := runLog;
      if outcome == Completed {
        if |plan.langCandidates| == 0 {
          status := Warning;
        } else {
          status := Success;
        }
      } else {
        status := Failed;
        rowLog := rowLog + [ModFailedLine(mod, outcome)];
      }
    }

    /**
     * The rows after the one whose cancel flag was read as set are marked Cancelled,
     * which gives every row the status the batch over all rows assigns it.
     */
    method CancelRest(from: nat, ghost t: Tree, ghost mods0: seq<ModItem>, ghost logs0: seq<LogLine>,
                      ghost done: seq<ModItem>, ghost rest: seq<ModItem>,
                      ghost exec: (Tree, ModItem) --> RowResult, ghost cancelRequested: nat -> bool)
      requires SoundExec(exec) && WellFormed(t) && done + rest == mods0 && from == |done|
      requires ExecuteBatch(t, done, exec, cancelRequested).stopped
      requires Shows(ExecuteBatch(t, done, exec, cancelRequested), logs0, mods0)
      modifies this
      ensures var p := ExecuteBatch(t, done, exec, cancelRequested);
        var b := ExecuteBatch(t, mods0, exec, cancelRequested);
        && b == p.(statuses := b.statuses)
        && Shows(b, logs0, mods0)
    {
      ghost var marked := mods;
      MarkCancelled(from);
      CancelledRows(t, mods0, done, rest, exec, cancelRequested, marked, mods);
    }

    method MarkCancelled(from: nat)
      modifies this
      ensures |mods| == |old(mods)| && logs == old(logs)
      ensures forall j :: 0 <= j < |mods| ==>
        mods[j] == if j < from then old(mods)[j] else old(mods)[j].(status := Cancelled)
    {
      var j := from;
      while j < |mods|
        invariant |mods| == |old(mods)| && logs == old(logs)
        invariant forall k :: 0 <= k < |mods| ==>
          mods[k] == if k < from || k >= j then old(mods)[k] else old(mods)[k].(status := Cancelled)
      {
        mods := mods[j := mods[j].(status := Cancelled)];
        j := j + 1;
      }
    }
  }
}
