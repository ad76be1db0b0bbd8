/**
 * Domain/Executor.cs: a plan's operations applied in order to the filesystem, each
 * one logged first, none applied under dry-run, and the first failure logged and
 * rethrown. `Run` is the specification of one execution; the class `Executor`
 * performs it step by step on a live `FileSystem`.
 */
module Execution {
  import opened Wrappers
  import opened Paths
  import opened FileTree
  import opened Models
  import opened Operations
  import opened Storage
  import opened Sequences

  // ---------------------------------------------------------------------------
  // CreateZip

  /** CreateZip's first two steps: the zip's parent created, a file already at `zip` deleted. */
  function ClearZipTarget(t: Tree, zip: Path): (e: Effect)
    requires WellFormed(t)
    ensures WellFormed(e.tree)
    ensures e.outcome.Pass? ==> !IsFile(e.tree, zip) && (zip != [] ==> IsDir(e.tree, Parent(zip)))
  {
    var prep := if zip != [] then EnsureDirectoryEffect(t, Parent(zip)) else Effect(t, Pass);
    EnsureDirectoryKeeps(t, if zip != [] then Parent(zip) else []);
    if prep.outcome.Fail? then prep
    else
      RemovedWellFormed(prep.tree, zip);
      assert zip != [] ==> IsDir(prep.tree, Parent(zip)) && !(zip <= Parent(zip));
      if IsFile(prep.tree, zip) then Effect(Removed(prep.tree, zip), Pass) else prep
  }

  /**
   * Clearing the zip target keeps every other entry, adds only the zip's ancestors,
   * and leaves a directory standing at `zip`.
   */
  lemma ClearZipTargetFrame(t: Tree, zip: Path)
    requires WellFormed(t)
    ensures var e := ClearZipTarget(t, zip);
            && (forall q :: q in t && q != zip ==> q in e.tree && e.tree[q] == t[q])
            && (forall q :: q in e.tree && q !in t ==> q < zip)
            && (IsDir(t, zip) ==> e.outcome.Pass? && IsDir(e.tree, zip))
  {
    var prep := if zip != [] then EnsureDirectoryEffect(t, Parent(zip)) else Effect(t, Pass);
    if zip != [] {
      var up := Parent(zip);
      EnsureDirectoryKeeps(t, up);
      forall q | q in prep.tree && q !in t ensures q < zip {
        PrefixOfParent(q, zip);
      }
      if IsDir(t, zip) {
        FileOnPathIff(t, up);
        forall q | q <= up ensures !IsFile(t, q) {
          PrefixOfParent(q, zip);
          AncestorIsDir(t, zip, q);
        }
      }
    }
    if prep.outcome.Pass? && IsFile(prep.tree, zip) {
      NothingBelow(prep.tree, zip);
      forall q | q in t && q != zip ensures !(zip <= q) {
        assert q in prep.tree;
      }
    }
  }

  /** A file written where nothing is, in a directory that exists, keeps the tree well formed. */
  lemma AddFileWellFormed(t: Tree, p: Path)
    requires WellFormed(t) && p !in t && (p != [] ==> IsDir(t, Parent(p)))
    ensures WellFormed(t[p := File])
  {
    NothingBelow(t, p);
    forall q | q in t && q != [] ensures Parent(q) != p {
      assert Parent(q) < q;
    }
  }

  /**
   * CreateZip(src, zip): create the zip's parent, delete a file already at `zip`,
   * then write the archive. The archive file is created before the source is read,
   * so a missing source fails with the (empty) archive left in place.
   */
  function CreateZipEffect(t: Tree, src: Path, zip: Path): (e: Effect)
    requires WellFormed(t)
    ensures WellFormed(e.tree)
    ensures e.outcome.Pass? ==> IsFile(e.tree, zip) && IsDir(e.tree, src)
  {
    var prep := ClearZipTarget(t, zip);
    if prep.outcome.Fail? then prep
    else if zip in prep.tree then Effect(prep.tree, Fail(TargetIsDirectory(zip)))
    else
      AddFileWellFormed(prep.tree, zip);
      var written := prep.tree[zip := File];
      if IsDir(written, src) then Effect(written, Pass) else Effect(written, Fail(DirectoryNotFound(src)))
  }

  /** CreateZip touches only the zip and its ancestors, and refuses to overwrite a directory. */
  lemma CreateZipFrame(t: Tree, src: Path, zip: Path)
    requires WellFormed(t)
    ensures var e := CreateZipEffect(t, src, zip);
            && (forall q :: q in t && q != zip ==> q in e.tree && e.tree[q] == t[q])
            && (forall q :: q in e.tree && q !in t ==> q <= zip)
            && (IsDir(t, zip) ==> e.outcome == Fail(TargetIsDirectory(zip)) && e.tree == ClearZipTarget(t, zip).tree)
  {
    ClearZipTargetFrame(t, zip);
    var prep := ClearZipTarget(t, zip);
    var e := CreateZipEffect(t, src, zip);
    assert e.tree == prep.tree || e.tree == prep.tree[zip := File];
  }

  // ---------------------------------------------------------------------------
  // One execution as a function

  /** How an execution ended: run through, OperationCanceledException, or a rethrown failure. */
  datatype RunOutcome = Completed | Canceled | Aborted(error: FsError)

  function DryRunPrefix(dryRun: bool): string
  {
    if dryRun then "[DRY-RUN] " else ""
  }

  /** What the executor hands to one of its logging callbacks, before it becomes text. */
  datatype Entry =
    | Performing(dryRun: bool, op: Operation)         // logInfo, before each operation
    | UnknownOperation(kind: OperationKind)           // logWarn, for an operation the switch has no case for
    | OperationFailed(op: Operation, error: FsError)  // logError, before the failure is rethrown
  {
    /** The callback it goes to and the exact text it is given. */
    function Line(): (l: LogLine)
      ensures l.level == Info <==> this.Performing?
      ensures this.Performing? ==> l.message == DryRunPrefix(this.dryRun) + this.op.Describe()
      ensures this.UnknownOperation? ==> l.level == Warn && l.message == "Unknown operation: " + this.kind.Name()
      ensures this.OperationFailed? ==>
                l.level == Error && l.message == "Operation failed: " + this.op.Describe() + " / " + Message(this.error)
    {
      match this
      case Performing(d, op) => LogLine(Info, DryRunPrefix(d) + op.Describe())
      case UnknownOperation(k) => LogLine(Warn, "Unknown operation: " + k.Name())
      case OperationFailed(op, e) => LogLine(Error, "Operation failed: " + op.Describe() + " / " + Message(e))
    }
  }

  /** The log lines of a sequence of entries, in order. */
  function Lines(log: seq<Entry>): (r: seq<LogLine>)
    ensures |r| == |log|
    ensures forall i :: 0 <= i < |log| ==> r[i] == log[i].Line()
  {
    if log == [] then []
    else
      var init := log[..|log| - 1];
      assert forall i :: 0 <= i < |init| ==> init[i] == log[i];
      Lines(init) + [log[|log| - 1].Line()]
  }

  /**
   * The state of an execution: the tree, what was handed to the logging callbacks,
   * whether it stopped, and how many operations it has visited (logged).
   */
  datatype Progress = Progress(tree: Tree, log: seq<Entry>, outcome: RunOutcome, visited: nat)

  /**
   * The primitive the switch sends a filesystem operation to. The switch has no
   * case for ExtractZipEntry, so `Step` never sends one here.
   */
  function Dispatch(t: Tree, op: Operation): (e: Effect)
    requires WellFormed(t)
    ensures WellFormed(e.tree)
    ensures op.DeletePathOperation? ==> e.outcome == Pass && op.path !in e.tree
    ensures op.ExtractZipEntryOperation? ==> e == Effect(t, Pass)
  {
    match op
    case EnsureDirectoryOperation(p) =>
      EnsureDirectoryKeeps(t, p);
      EnsureDirectoryEffect(t, p)
    case MoveWithOverwriteOperation(s, d) => MoveWithOverwriteEffect(t, s, d)
    case DeletePathOperation(p) =>
      DeletePathProperties(t, p);
      DeletePathEffect(t, p)
    case BackupZipOperation(s, z) => CreateZipEffect(t, s, z)
    case ExtractZipEntryOperation(_, _, _) => Effect(t, Pass)
  }

  /**
   * A semantics for the primitives that is defined on every well-formed tree and
   * keeps it well formed. The execution below is stated for any such semantics, so
   * that its control flow is proved apart from what the primitives do to the tree.
   */
  ghost predicate Sound(prim: (Tree, Operation) --> Effect)
  {
    forall t, op :: WellFormed(t) ==> prim.requires(t, op) && WellFormed(prim(t, op).tree)
  }

  lemma DispatchSound()
    ensures Sound(Dispatch)
  {
  }

  /** One filesystem turn of the loop: every operation but the ones the switch has no case for. */
  function Turn(t: Tree, op: Operation, prim: (Tree, Operation) --> Effect): (r: Effect)
    requires Sound(prim) && WellFormed(t)
    ensures WellFormed(r.tree)
    ensures op.ExtractZipEntryOperation? ==> r == Effect(t, Pass)
  {
    if op.ExtractZipEntryOperation? then Effect(t, Pass) else prim(t, op)
  }

  /** One turn of the loop for the operation at index `s.visited`, whose cancellation poll answered `cancel`. */
  function Step(s: Progress, op: Operation, options: AppOptions, cancel: bool, prim: (Tree, Operation) --> Effect): (r: Progress)
    requires Sound(prim) && WellFormed(s.tree) && s.outcome == Completed
    ensures WellFormed(r.tree)
    ensures cancel <==> r.outcome == Canceled
    ensures cancel ==> r == s.(outcome := Canceled)
    ensures !cancel ==>
              && r.visited == s.visited + 1
              && |r.log| > |s.log|
              && r.log[..|s.log| + 1] == s.log + [Performing(options.dryRun, op)]
    ensures r.outcome.Aborted? ==> r.log[|r.log| - 1] == OperationFailed(op, r.outcome.error)
    ensures options.dryRun ==> r.tree == s.tree && !r.outcome.Aborted? && |r.log| == r.visited - s.visited + |s.log|
    ensures !cancel && !options.dryRun ==> r.tree == Turn(s.tree, op, prim).tree
  {
    if cancel then s.(outcome := Canceled)
    else
      var log := s.log + [Performing(options.dryRun, op)];
      if options.dryRun then Progress(s.tree, log, Completed, s.visited + 1)
      else if op.ExtractZipEntryOperation? then
        Progress(s.tree, log + [UnknownOperation(op.Kind())], Completed, s.visited + 1)
      else
        var e := prim(s.tree, op);
        if e.outcome.Fail? then
          Progress(e.tree, log + [OperationFailed(op, e.outcome.error)], Aborted(e.outcome.error), s.visited + 1)
        else
          Progress(e.tree, log, Completed, s.visited + 1)
  }

  /**
   * ExecuteCore over `ops` from `t` with the primitives `prim`. `cancelled(i)` is
   * what the cancellation token answers when polled before the operation at index i.
   */
  function Run(t: Tree, ops: seq<Operation>, options: AppOptions, cancelled: nat -> bool, prim: (Tree, Operation) --> Effect): (r: Progress)
    requires Sound(prim) && WellFormed(t)
    ensures WellFormed(r.tree)
    ensures r.visited <= |ops|
    ensures r.outcome == Completed ==> r.visited == |ops|
    ensures r.outcome == Canceled ==> cancelled(r.visited)
    ensures r.outcome.Aborted? ==>
              && r.visited >= 1 && r.log != []
              && r.log[|r.log| - 1] == OperationFailed(ops[r.visited - 1], r.outcome.error)
    decreases |ops|
  {
    if ops == [] then Progress(t, [], Completed, 0)
    else
      var r := Run(t, ops[..|ops| - 1], options, cancelled, prim);
      if r.outcome != Completed then r
      else Step(r, ops[|ops| - 1], options, cancelled(|ops| - 1), prim)
  }

  /** One more operation after `done`: nothing more once the run has stopped, one more step otherwise. */
  lemma RunSnoc(t: Tree, done: seq<Operation>, op: Operation, options: AppOptions, cancelled: nat -> bool, prim: (Tree, Operation) --> Effect)
    requires Sound(prim) && WellFormed(t)
    ensures var p := Run(t, done, options, cancelled, prim);
            Run(t, done + [op], options, cancelled, prim)
            == if p.outcome != Completed then p else Step(p, op, options, cancelled(|done|), prim)
  {
    assert (done + [op])[..|done|] == done;
  }

  // ---------------------------------------------------------------------------
  // Properties of an execution

  /** Once an execution has stopped, later operations never run: a stopped prefix is the whole run. */
  lemma {:induction false} RunStopsFinal(t: Tree, done: seq<Operation>, rest: seq<Operation>, options: AppOptions, cancelled: nat -> bool, prim: (Tree, Operation) --> Effect)
    requires Sound(prim) && WellFormed(t)
    requires Run(t, done, options, cancelled, prim).outcome != Completed
    ensures Run(t, done + rest, options, cancelled, prim) == Run(t, done, options, cancelled, prim)
    decreases |rest|
  {
    if rest == [] {
      assert done + rest == done;
    } else {
      var init, last := rest[..|rest| - 1], rest[|rest| - 1];
      SnocSplit(done, rest);
      RunStopsFinal(t, done, init, options, cancelled, prim);
      RunSnoc(t, done + init, last, options, cancelled, prim);
    }
  }

  /** An execution that stops at the operation at index i ends as that step left it. */
  lemma RunStopsAt(t: Tree, ops: seq<Operation>, i: nat, options: AppOptions, cancelled: nat -> bool, prim: (Tree, Operation) --> Effect)
    requires Sound(prim) && WellFormed(t) && i < |ops|
    requires Run(t, ops[..i], options, cancelled, prim).outcome == Completed
    requires Step(Run(t, ops[..i], options, cancelled, prim), ops[i], options, cancelled(i), prim).outcome != Completed
    ensures Run(t, ops, options, cancelled, prim)
            == Step(Run(t, ops[..i], options, cancelled, prim), ops[i], options, cancelled(i), prim)
  {
    var done := ops[..i];
    RunSnoc(t, done, ops[i], options, cancelled, prim);
    Split(ops, i);
    RunStopsFinal(t, done + [ops[i]], ops[i + 1..], options, cancelled, prim);
  }

  /**
   * Cancellation requested before the operation at index k: nothing from k on is
   * logged or applied, and what ran before is kept.
   */
  lemma CancelledAt(t: Tree, ops: seq<Operation>, options: AppOptions, cancelled: nat -> bool, prim: (Tree, Operation) --> Effect, k: nat)
    requires Sound(prim) && WellFormed(t) && k < |ops| && cancelled(k)
    ensures var r := Run(t, ops, options, cancelled, prim);
            var p := Run(t, ops[..k], options, cancelled, prim);
            && r.visited <= k
            && r.tree == p.tree && r.log == p.log && r.visited == p.visited
            && (p.outcome == Completed ==> r.outcome == Canceled)
  {
    if Run(t, ops[..k], options, cancelled, prim).outcome == Completed {
      RunStopsAt(t, ops, k, options, cancelled, prim);
    } else {
      TakeDrop(ops, k);
      RunStopsFinal(t, ops[..k], ops[k..], options, cancelled, prim);
    }
  }

  /** The entries handed to logInfo, in order: the announcements of operations. */
  function Announced(log: seq<Entry>): (r: seq<Entry>)
    ensures |r| <= |log|
    ensures forall i :: 0 <= i < |r| ==> r[i].Performing?
  {
    if log == [] then []
    else Announced(log[..|log| - 1]) + (if log[|log| - 1].Performing? then [log[|log| - 1]] else [])
  }

  lemma {:induction false} AnnouncedAppend(a: seq<Entry>, b: seq<Entry>)
    ensures Announced(a + b) == Announced(a) + Announced(b)
    decreases |b|
  {
    if b == [] {
      assert a + b == a;
    } else {
      assert (a + b)[..|a + b| - 1] == a + b[..|b| - 1];
      AnnouncedAppend(a, b[..|b| - 1]);
    }
  }

  /** A step announces its operation once, unless it was cancelled; warnings and errors announce nothing. */
  lemma StepAnnounced(s: Progress, op: Operation, options: AppOptions, cancel: bool, prim: (Tree, Operation) --> Effect)
    requires Sound(prim) && WellFormed(s.tree) && s.outcome == Completed
    ensures Announced(Step(s, op, options, cancel, prim).log)
            == Announced(s.log) + (if cancel then [] else [Performing(options.dryRun, op)])
  {
    if !cancel {
      var line := Performing(options.dryRun, op);
      var r := Step(s, op, options, cancel, prim);
      AnnouncedAppend(s.log, [line]);
      assert Announced([line]) == [line] by {
        assert [line][..0] == [];
      }
      if options.dryRun || (!op.ExtractZipEntryOperation? && prim(s.tree, op).outcome.Pass?) {
        assert r.log == s.log + [line];
      } else {
        var extra := if op.ExtractZipEntryOperation? then [UnknownOperation(op.Kind())]
                     else [OperationFailed(op, prim(s.tree, op).outcome.error)];
        assert r.log == (s.log + [line]) + extra;
        AnnouncedAppend(s.log + [line], extra);
        assert Announced(extra) == [] by {
          assert extra[..0] == [];
        }
      }
    }
  }

  /** `a` announces the first |a| operations of `ops`, in order, with the dry-run flag `dryRun`. */
  ghost predicate AnnouncesOps(a: seq<Entry>, ops: seq<Operation>, dryRun: bool)
  {
    |a| <= |ops| && forall i :: 0 <= i < |a| ==> a[i] == Performing(dryRun, ops[i])
  }

  lemma AnnouncesSnoc(a: seq<Entry>, ops: seq<Operation>, dryRun: bool, op: Operation)
    requires AnnouncesOps(a, ops, dryRun) && |a| == |ops|
    ensures AnnouncesOps(a + [Performing(dryRun, op)], ops + [op], dryRun)
  {
  }

  lemma AnnouncesLonger(a: seq<Entry>, ops: seq<Operation>, dryRun: bool, op: Operation)
    requires AnnouncesOps(a, ops, dryRun)
    ensures AnnouncesOps(a, ops + [op], dryRun)
  {
  }

  /**
   * Every visited operation is announced once through logInfo, in plan order, with
   * the dry-run prefix exactly when dry-run is on; warnings and errors go to the
   * other callbacks.
   */
  lemma {:induction false} RunAnnounced(t: Tree, ops: seq<Operation>, options: AppOptions, cancelled: nat -> bool, prim: (Tree, Operation) --> Effect)
    requires Sound(prim) && WellFormed(t)
    ensures var r := Run(t, ops, options, cancelled, prim);
            && |Announced(r.log)| == r.visited
            && AnnouncesOps(Announced(r.log), ops, options.dryRun)
    decreases |ops|
  {
    if ops != [] {
      var n := |ops|;
      var init, last := ops[..n - 1], ops[n - 1];
      Unsnoc(ops);
      RunAnnounced(t, init, options, cancelled, prim);
      RunSnoc(t, init, last, options, cancelled, prim);
      var p := Run(t, init, options, cancelled, prim);
      if p.outcome == Completed && !cancelled(n - 1) {
        StepAnnounced(p, last, options, false, prim);
        AnnouncesSnoc(Announced(p.log), init, options.dryRun, last);
      } else {
        AnnouncesLonger(Announced(p.log), init, options.dryRun, last);
      }
    }
  }

  /** The trees an uninterrupted sequence of turns leads through, failures included. */
  function Applied(t: Tree, ops: seq<Operation>, prim: (Tree, Operation) --> Effect): (r: Tree)
    requires Sound(prim) && WellFormed(t)
    ensures WellFormed(r)
    decreases |ops|
  {
    if ops == [] then t else Turn(Applied(t, ops[..|ops| - 1], prim), ops[|ops| - 1], prim).tree
  }

  /**
   * Outside dry-run, the final tree is the visited operations applied in plan order,
   * each once, the failing one included and nothing undone.
   */
  lemma {:induction false} RunApplies(t: Tree, ops: seq<Operation>, options: AppOptions, cancelled: nat -> bool, prim: (Tree, Operation) --> Effect)
    requires Sound(prim) && WellFormed(t) && !options.dryRun
    ensures var r := Run(t, ops, options, cancelled, prim);
            r.tree == Applied(t, ops[..r.visited], prim)
    decreases |ops|
  {
    if ops != [] {
      var n := |ops|;
      var init := ops[..n - 1];
      RunApplies(t, init, options, cancelled, prim);
      var p := Run(t, init, options, cancelled, prim);
      assert ops[..p.visited] == init[..p.visited];
      if p.outcome == Completed && !cancelled(n - 1) {
        var r := Run(t, ops, options, cancelled, prim);
        assert r.tree == Turn(p.tree, ops[n - 1], prim).tree;
        assert init[..p.visited] == init;
        assert ops[..r.visited] == ops;
        assert ops[..n - 1] == init;
      }
    }
  }

  /** A dry run changes nothing, never fails, and its log is exactly the prefixed descriptions. */
  lemma {:induction false} DryRunHarmless(t: Tree, ops: seq<Operation>, options: AppOptions, cancelled: nat -> bool, prim: (Tree, Operation) --> Effect)
    requires Sound(prim) && WellFormed(t) && options.dryRun
    ensures var r := Run(t, ops, options, cancelled, prim);
            && r.tree == t
            && !r.outcome.Aborted?
            && |r.log| == r.visited
            && forall i :: 0 <= i < r.visited ==> r.log[i] == Performing(true, ops[i])
    decreases |ops|
  {
    if ops != [] {
      var n := |ops|;
      DryRunHarmless(t, ops[..n - 1], options, cancelled, prim);
    }
  }

  /** Operations the switch has no case for leave the tree as it is, outside dry-run too. */
  lemma {:induction false} ExtractEntriesInert(t: Tree, ops: seq<Operation>, prim: (Tree, Operation) --> Effect)
    requires Sound(prim) && WellFormed(t)
    requires forall i :: 0 <= i < |ops| ==> ops[i].ExtractZipEntryOperation?
    ensures Applied(t, ops, prim) == t
    decreases |ops|
  {
    if ops != [] {
      ExtractEntriesInert(t, ops[..|ops| - 1], prim);
    }
  }

  /** Without cancellation and outside dry-run, a run that stops has failed at an operation it applied. */
  lemma NoCancelRunsThrough(t: Tree, ops: seq<Operation>, options: AppOptions, prim: (Tree, Operation) --> Effect)
    requires Sound(prim) && WellFormed(t)
    ensures var r := Run(t, ops, options, _ => false, prim);
            r.outcome != Canceled && (r.outcome == Completed <==> r.visited == |ops| && !r.outcome.Aborted?)
  {
  }

  /** One more entry, whose line is appended to the lines so far. */
  function Append(log: seq<Entry>, e: Entry): (r: seq<Entry>)
    ensures r == log + [e] && Lines(r) == Lines(log) + [e.Line()]
  {
    assert (log + [e])[..|log|] == log;
    log + [e]
  }

  // ---------------------------------------------------------------------------
  // The executor

  class Executor {
    const fs: FileSystem

    constructor (fs: FileSystem)
      ensures this.fs == fs
    {
      this.fs := fs;
    }

    /**
     * ExecuteCore: the lines handed to the log callbacks become the returned `log`,
     * the rethrown exception and the cancellation exception become `outcome`.
     */
    method ExecuteCore(plan: ExecutionPlan, options: AppOptions, cancelled: nat -> bool)
      returns (log: seq<LogLine>, outcome: RunOutcome)
      requires fs.Valid()
      modifies fs
      ensures fs.Valid()
      ensures var r := Run(old(fs.tree), plan.operations, options, cancelled, Dispatch);
              fs.tree == r.tree && log == Lines(r.log) && outcome == r.outcome
    {
      var ops := plan.operations;
      ghost var t0 := fs.tree;
      DispatchSound();
      log := [];
      ghost var entries: seq<Entry> := [];
      ghost var done: seq<Operation> := [];
      var i := 0;
      while i < |ops|
        invariant 0 <= i <= |ops| && done == ops[..i]
        invariant fs.Valid()
        invariant Run(t0, done, options, cancelled, Dispatch) == Progress(fs.tree, entries, Completed, i)
        invariant log == Lines(entries)
      {
        var op := ops[i];
        if cancelled(i) {
          RunStopsAt(t0, ops, i, options, cancelled, Dispatch);
          return log, Canceled;
        }
        var stepOutcome;
        log, entries, stepOutcome := PerformLogged(op, options, log, entries, i);
        if stepOutcome != Completed {
          RunStopsAt(t0, ops, i, options, cancelled, Dispatch);
          return log, stepOutcome;
        }
        RunSnoc(t0, done, op, options, cancelled, Dispatch);
        TakeSnoc(ops, i);
        done := done + [op];
        i := i + 1;
      }
      assert done == ops;
      outcome := Completed;
    }

    /**
     * The body of ExecuteCore's loop for an operation whose cancellation poll answered
     * no: announce it, apply it unless dry-run is on, and log a warning or a failure.
     */
    method PerformLogged(op: Operation, options: AppOptions, log: seq<LogLine>, ghost entries: seq<Entry>, ghost visited: nat)
      returns (log': seq<LogLine>, ghost entries': seq<Entry>, outcome: RunOutcome)
      requires fs.Valid() && log == Lines(entries)
      modifies fs
      ensures fs.Valid()
      ensures Step(Progress(old(fs.tree), entries, Completed, visited), op, options, false, Dispatch)
              == Progress(fs.tree, entries', outcome, visited + 1)
      ensures log' == Lines(entries')
    {
      DispatchSound();
      ghost var next := Step(Progress(fs.tree, entries, Completed, visited), op, options, false, Dispatch);
      log' := log + [Performing(options.dryRun, op).Line()];
      entries' := Append(entries, Performing(options.dryRun, op));
      outcome := Completed;
      if options.dryRun {
        return;
      }
      ghost var e := Dispatch(fs.tree, op);
      var r := Perform(op, options.deleteMode);
      assert Effect(fs.tree, r) == e;
      if op.ExtractZipEntryOperation? {
        log' := log' + [UnknownOperation(op.Kind()).Line()];
        entries' := Append(entries', UnknownOperation(op.Kind()));
      }
      if r.Fail? {
        log' := log' + [OperationFailed(op, r.error).Line()];
        entries' := Append(entries', OperationFailed(op, r.error));
        outcome := Aborted(r.error);
      }
    }

    /** The switch: the primitive for the operation's kind; no case for ExtractZipEntry. */
    method Perform(op: Operation, deleteMode: DeleteMode) returns (r: Outcome<FsError>)
      requires fs.Valid()
      modifies fs
      ensures fs.Valid()
      ensures Effect(fs.tree, r) == Dispatch(old(fs.tree), op)
    {
      match op {
        case EnsureDirectoryOperation(p) =>
          r := fs.EnsureDirectory(p);
        case MoveWithOverwriteOperation(s, d) =>
          r := fs.MoveWithOverwrite(s, d, deleteMode);
        case DeletePathOperation(p) =>
          fs.DeletePath(p, deleteMode);
          r := Pass;
        case BackupZipOperation(s, z) =>
          r := CreateZip(s, z);
        case ExtractZipEntryOperation(_, _, _) =>
          r := Pass;
      }
    }

    /** CreateZip on the live filesystem; the archive's content is not modelled. */
    method CreateZip(sourceDirectory: Path, zipPath: Path) returns (r: Outcome<FsError>)
      requires fs.Valid()
      modifies fs
      ensures fs.Valid()
      ensures Effect(fs.tree, r) == CreateZipEffect(old(fs.tree), sourceDirectory, zipPath)
    {
      ghost var t0 := fs.tree;
      if zipPath != [] {
        var made := fs.EnsureDirectory(Parent(zipPath));
        if made.Fail? {
          return made;
        }
      }
      ghost var t1 := fs.tree;
      if IsFile(fs.tree, zipPath) {
        RemovedWellFormed(fs.tree, zipPath);
        fs.tree := Removed(fs.tree, zipPath);
      }
      assert ClearZipTarget(t0, zipPath) == Effect(fs.tree, Pass);
      if zipPath in fs.tree {
        return Fail(TargetIsDirectory(zipPath));
      }
      AddFileWellFormed(fs.tree, zipPath);
      fs.tree := fs.tree[zipPath := File];
      if !IsDir(fs.tree, sourceDirectory) {
        return Fail(DirectoryNotFound(sourceDirectory));
      }
      return Pass;
    }
  }
}
