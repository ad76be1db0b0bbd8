/**
 * The program's plain data: the enumerations, the option set the user picks, one
 * log line, and the per-mod scan result. None of them carries logic of its own.
 */
module Models {
  import opened Paths

  datatype ModSourceType = Directory | Jar

  datatype MultiLangMode = FirstOnly | MergeAll | SeparateFolders

  datatype DeleteMode = Permanent | RecycleBin

  datatype ModPlanPolicy = LangFound | LangNotFound

  datatype ModStatus = Unprocessed | Success | Warning | Failed | Cancelled

  datatype LogLevel = Info | Warn | Error

  /** One log line as handed to the logger's Info/Warn/Error callback (its time stamp is not modelled). */
  datatype LogLine = LogLine(level: LogLevel, message: string)

  /** The options that are in force for one scan-plan-execute run. */
  datatype AppOptions = AppOptions(
    dryRun: bool,
    jarMode: bool,
    multiLangMode: MultiLangMode,
    deleteMode: DeleteMode,
    backupZip: bool)

  /** What the scanner found for one mod folder. */
  datatype ModScanResult = ModScanResult(
    sourceType: ModSourceType,
    modName: Name,
    modPath: Path,
    assetsExists: bool,
    langCandidates: seq<Path>,
    plannedMoves: int,
    plannedDeletes: int,
    policyLabel: string)
}
