/**
 * The closed set of filesystem operations a plan is made of, each with its kind and
 * the line that describes it in the log, and the plan built for one mod.
 */
module Operations {
  import opened Paths

  datatype OperationKind = EnsureDirectory | MoveWithOverwrite | DeletePath | BackupZip | ExtractZipEntry
  {
    /** The numeric value of the enumeration member. */
    function Value(): (v: int)
      ensures 0 <= v <= 4
    {
      match this
      case EnsureDirectory => 0
      case MoveWithOverwrite => 1
      case DeletePath => 2
      case BackupZip => 3
      case ExtractZipEntry => 4
    }

    /** The member's name, as string interpolation of the enumeration writes it. */
    function Name(): string
    {
      match this
      case EnsureDirectory => "EnsureDirectory"
      case MoveWithOverwrite => "MoveWithOverwrite"
      case DeletePath => "DeletePath"
      case BackupZip => "BackupZip"
      case ExtractZipEntry => "ExtractZipEntry"
    }
  }

  /** Distinct kinds have distinct numeric values. */
  lemma KindValueInjective(a: OperationKind, b: OperationKind)
    ensures a.Value() == b.Value() <==> a == b
  {
  }

  datatype Operation =
    | EnsureDirectoryOperation(path: Path)
    | MoveWithOverwriteOperation(sourcePath: Path, destinationPath: Path)
    | DeletePathOperation(path: Path)
    | BackupZipOperation(sourceDirectory: Path, zipPath: Path)
    | ExtractZipEntryOperation(archivePath: Path, entryPath: string, destinationPath: Path)
  {
    function Kind(): OperationKind
    {
      match this
      case EnsureDirectoryOperation(_) => EnsureDirectory
      case MoveWithOverwriteOperation(_, _) => MoveWithOverwrite
      case DeletePathOperation(_) => DeletePath
      case BackupZipOperation(_, _) => BackupZip
      case ExtractZipEntryOperation(_, _, _) => ExtractZipEntry
    }

    function Describe(): string
    {
      match this
      case EnsureDirectoryOperation(p) => "MKDIR  " + Render(p)
      case MoveWithOverwriteOperation(s, d) => "MOVE   " + Render(s) + " -> " + Render(d) + " (overwrite)"
      case DeletePathOperation(p) => "DELETE " + Render(p)
      case BackupZipOperation(s, z) => "ZIP    " + Render(s) + " -> " + Render(z)
      case ExtractZipEntryOperation(z, e, d) => "EXTRACT " + Render(z) + "!" + e + " -> " + Render(d)
    }
  }

  /** The kind a description's seven-character head announces, if any. */
  function KindOfTag(tag: string): (k: OperationKind)
  {
    if tag == "MKDIR  " then EnsureDirectory
    else if tag == "MOVE   " then MoveWithOverwrite
    else if tag == "DELETE " then DeletePath
    else if tag == "ZIP    " then BackupZip
    else ExtractZipEntry
  }

  /** The head of every description names the operation's kind. */
  lemma DescribeNamesKind(op: Operation)
    ensures |op.Describe()| >= 7
    ensures KindOfTag(op.Describe()[..7]) == op.Kind()
  {
    var d := op.Describe();
    match op
    case EnsureDirectoryOperation(p) =>
      assert d[..7] == "MKDIR  ";
    case MoveWithOverwriteOperation(s, t) =>
      assert d[..7] == "MOVE   ";
    case DeletePathOperation(p) =>
      assert d[..7] == "DELETE ";
    case BackupZipOperation(s, z) =>
      assert d[..7] == "ZIP    ";
    case ExtractZipEntryOperation(z, e, t) =>
      assert d[..7] == "EXTRACT";
  }

  /** Single-path descriptions give back the path after their head. */
  lemma DescribePathRoundTrip(p: Path)
    ensures EnsureDirectoryOperation(p).Describe()[7..] == Render(p)
    ensures DeletePathOperation(p).Describe()[7..] == Render(p)
  {
  }

  /** The plan built for one mod, with the counts shown in the preview. */
  datatype ExecutionPlan = ExecutionPlan(
    modName: Name,
    modPath: Path,
    langCandidates: seq<Path>,
    policyLabel: string,
    operations: seq<Operation>,
    plannedMoves: int,
    plannedDeletes: int)

  /** The number of operations of kind `k` in `ops`. */
  function CountKind(ops: seq<Operation>, k: OperationKind): (n: nat)
    ensures n <= |ops|
  {
    if ops == [] then 0
    else CountKind(ops[..|ops| - 1], k) + (if ops[|ops| - 1].Kind() == k then 1 else 0)
  }

  lemma {:induction false} CountKindAppend(a: seq<Operation>, b: seq<Operation>, k: OperationKind)
    ensures CountKind(a + b, k) == CountKind(a, k) + CountKind(b, k)
    decreases |b|
  {
    if b == [] {
      assert a + b == a;
    } else {
      assert (a + b)[..|a + b| - 1] == a + b[..|b| - 1];
      CountKindAppend(a, b[..|b| - 1], k);
    }
  }

  /** Every operation of `ops` has kind `k`. */
  lemma {:induction false} CountKindAll(ops: seq<Operation>, k: OperationKind)
    requires forall i :: 0 <= i < |ops| ==> ops[i].Kind() == k
    ensures CountKind(ops, k) == |ops|
    decreases |ops|
  {
    if ops != [] {
      CountKindAll(ops[..|ops| - 1], k);
    }
  }

  /** No operation of `ops` has kind `k`. */
  lemma {:induction false} CountKindNone(ops: seq<Operation>, k: OperationKind)
    requires forall i :: 0 <= i < |ops| ==> ops[i].Kind() != k
    ensures CountKind(ops, k) == 0
    decreases |ops|
  {
    if ops != [] {
      CountKindNone(ops[..|ops| - 1], k);
    }
  }
}
