# Mod folder organizer — a Dafny model

The organizer tidies a directory of Minecraft mod folders so that each mod folder
keeps only its language files.

- **Scanning.** For every mod folder the scanner records whether it has an `assets`
  directory and which `assets/<id>/lang` directories it holds.
- **Planning.** The planner turns one scan result into an ordered list of filesystem
  operations.
  - Policy A applies when a `lang` directory was chosen. It creates `<mod>/lang`,
    moves the entries of the chosen directories into it with overwrite, and deletes
    every other entry of the mod folder.
  - Policy B applies when none was found. It deletes every entry of the mod folder.
  - With backups on, an optional `EnsureDirectory` of the backup folder plus a
    `BackupZip` of the mod folder come first.
- **Execution.** The executor applies a plan one operation at a time. It logs each
  operation before it runs it, skips every change under dry-run, and logs and
  rethrows the first failure.
- **The batch.** The main view model plans and executes every mod in turn. It sets
  each mod's status from the outcome and counts successes, warnings and failures. It
  carries on after a failed mod. Once the user has asked to stop, it marks the
  remaining mods `Cancelled`.

The model is in Dafny 4.11, written as these modules:

| module | file | what it holds |
|---|---|---|
| `Paths` | `paths.dfy` | Paths as segment sequences; the ordinal and ignore-case string comparisons. |
| `FileTree` | `file_tree.dfy` | The filesystem as a map from paths to files and directories, closed under parents, with the whole-subtree changes. A `Snapshot` is a tree together with the order in which its listings come back. |
| `Storage` | `storage.dfy` | `Infrastructure/FileSystem.cs`. Each primitive has an effect function (tree before → tree after plus outcome). The class `FileSystem` performs the same steps on a live tree and is proved equal to that function. |
| `Scanning` | `scanner.dfy` | `Domain/ModScanner.cs`. |
| `Planning` | `planner.dfy` | `Domain/OperationPlanner.cs`. `PlanSpec` is the plan as a function; the method `BuildPlan` builds it with the source's loops and counters. |
| `Execution` | `executor.dfy` | `Domain/Executor.cs`. `Run` is one execution as a function over any sound primitive semantics. The class `Executor` runs it on the live `FileSystem`. |
| `Tidying` | `tidying.dfy` | What a plan that runs to the end leaves in the mod folder, from what each primitive may add and which deletions the plan holds. |
| `ViewModels` | `view_model.dfy` | `ViewModels/MainViewModel.cs`. `ExecuteBatch` is the batch as a function. The class `MainViewModel` runs it on its row list and its log. |
| `Operations`, `Models`, `Wrappers`, `Sequences` | | The operation records, the enumerations and option records, `Option`/`Outcome`, and small sequence lemmas. |

How the environment is represented:
- Things the program reads from its environment are parameters:
  - the filesystem tree;
  - the order in which the operating system lists a directory (`Snapshot.entries`
    and `Snapshot.walk`, or `views` for a tree that changes during a batch);
  - the clock reading that names the backup folder (`timestamp`);
  - the cancellation poll of the executor (`cancelled`) and of the scanner
    (`isCancelled`);
  - the UI's cancel flag as the batch reads it after row i (`cancelRequested(i)`).
- An exception becomes an `Outcome`/`RunOutcome` value carrying the error.
- A string the program hands to `logInfo`/`logWarn`/`logError` becomes a `LogLine`
  with its level.

Where the code and its design description differ, the model follows the code:
- `ModScanner.Scan` takes two parameters: the target and a cancellation predicate.
  It does not scan `.jar` files, makes no second pass, and neither removes duplicate
  candidates nor sorts them. Candidates keep the order of the recursive listing.
- No planner path ever produces an `ExtractZipEntryOperation`. The executor's switch
  has no case for it and logs `Unknown operation: ExtractZipEntry`
  (`Execution.ExtractEntriesInert`).
- `MultiLangMode.SeparateFolders` chooses exactly what `FirstOnly` chooses: the
  first candidate only (`Planning.SeparateFoldersIsFirstOnly`).
- The executor is always called with `CancellationToken.None`, so within a batch no
  plan is ever cancelled part-way (`ViewModels.ModRun` ensures `outcome != Canceled`).
  Stopping takes effect only between mods.

## Model

| member | source | states |
|---|---|---|
| `Operations.KindValueInjective` | OrganizerTool/Domain/Operations.cs:3-10 | The five operation kinds have pairwise distinct numeric values 0-4. |
| `Operations.DescribeNamesKind` | OrganizerTool/Domain/Operations.cs:18-46 | Every description is at least seven characters long, and its seven-character head names the operation's own kind. |
| `Operations.DescribePathRoundTrip` | OrganizerTool/Domain/Operations.cs:18-34 | After the head, the MKDIR and DELETE descriptions give back exactly the rendered path. |
| `Storage.EnsureDirectoryEffect` | OrganizerTool/Infrastructure/FileSystem.cs:9-12 | CreateDirectory succeeds exactly when no file lies on the path. On success the path and all its ancestors are directories, and only they are added. On failure nothing changes and the error names the path. |
| `Storage.EnsureDirectoryKeeps` | OrganizerTool/Infrastructure/FileSystem.cs:9-12 | Creating a directory keeps every existing entry with its kind and keeps the tree well formed. |
| `Storage.EnsureDirectoryIdempotent` | OrganizerTool/Infrastructure/FileSystem.cs:9-12 | Creating the same directory again changes nothing and gives the same outcome. |
| `Storage.DeletePathEffect` | OrganizerTool/Infrastructure/FileSystem.cs:46-61 | DeletePath never throws. |
| `Storage.DeletePathProperties` | OrganizerTool/Infrastructure/FileSystem.cs:46-61 | DeletePath removes exactly the path and its subtree, keeps every other entry, and changes nothing when the path is absent. |
| `Storage.ClearDestination` | OrganizerTool/Infrastructure/FileSystem.cs:16-23 | After the destination's deletion, exactly the entries outside the destination's subtree remain. |
| `Storage.PrepareMove` | OrganizerTool/Infrastructure/FileSystem.cs:14-29 | Before the move itself, nothing is left at or below the destination. On success every proper ancestor of the destination is a directory. On failure of the parent's creation, the tree is the one with the destination deleted. |
| `Storage.MovePassShape` | OrganizerTool/Infrastructure/FileSystem.cs:31-41 | A move that succeeded had its source present in the prepared tree, unrelated to the destination, and relocated that subtree. |
| `Storage.MoveWithOverwriteSucceeded` | OrganizerTool/Infrastructure/FileSystem.cs:14-44 | A successful move leaves the old source subtree under the destination, entry for entry and kind for kind. Nothing is left below the source, and what was at the destination is gone. |
| `Storage.MoveWithOverwriteNewEntries` | OrganizerTool/Infrastructure/FileSystem.cs:14-44 | Whatever its outcome, a move adds entries only among the destination's ancestors or inside the destination. |
| `Storage.MoveWithOverwriteMissingSource` | OrganizerTool/Infrastructure/FileSystem.cs:31-43 | A missing source fails the move after the destination was deleted and its parent created. The error is "Source path not found." whenever that preparation succeeded. |
| `Storage.FileSystem.EnsureDirectory` | OrganizerTool/Infrastructure/FileSystem.cs:9-12 | The new tree and the outcome are `EnsureDirectoryEffect` of the old tree. |
| `Storage.FileSystem.MoveWithOverwrite` | OrganizerTool/Infrastructure/FileSystem.cs:14-44 | The new tree and the outcome are `MoveWithOverwriteEffect` of the old tree: destination deleted, parent created, then file move, directory move or not-found. |
| `Storage.FileSystem.DeletePath` | OrganizerTool/Infrastructure/FileSystem.cs:46-61 | The new tree is `DeletePathEffect` of the old tree, in either delete mode. |
| `Storage.FileSystem.DeleteFile` | OrganizerTool/Infrastructure/FileSystem.cs:63-72 | Both delete mechanisms take the file out of the tree. |
| `Storage.FileSystem.DeleteDirectory` | OrganizerTool/Infrastructure/FileSystem.cs:74-83 | Both delete mechanisms take the directory and its whole subtree out of the tree. |
| `Execution.ClearZipTarget` | OrganizerTool/Domain/Executor.cs:85-94 | After CreateZip's first two steps succeed, no file is at the zip path and the zip's parent is a directory. |
| `Execution.ClearZipTargetFrame` | OrganizerTool/Domain/Executor.cs:85-94 | Those steps keep every other entry, add only ancestors of the zip, and leave a directory at the zip path standing. |
| `Execution.CreateZipEffect` | OrganizerTool/Domain/Executor.cs:83-97 | A successful CreateZip leaves the archive as a file and the source was an existing directory. |
| `Execution.CreateZipFrame` | OrganizerTool/Domain/Executor.cs:83-97 | CreateZip touches only the zip path and its ancestors. When the zip path is a directory, it fails without overwriting it. |
| `Execution.Entry.Line` | OrganizerTool/Domain/Executor.cs:43-77 | An announcement goes to logInfo as the dry-run prefix plus the operation's description. An operation the switch has no case for goes to logWarn as `Unknown operation: <kind>`. A failure goes to logError as `Operation failed: <description> / <message>`. |
| `Execution.Dispatch` | OrganizerTool/Domain/Executor.cs:52-73 | The switch sends each kind to its primitive. A deletion always succeeds and removes its path. An ExtractZipEntry leaves the tree alone. |
| `Execution.DispatchSound` | OrganizerTool/Domain/Executor.cs:52-73 | The program's primitives are defined on every well-formed tree and keep it well formed. |
| `Execution.Step` | OrganizerTool/Domain/Executor.cs:39-80 | A turn of the loop is cancelled exactly when the poll says so, and then nothing else happens. Otherwise the operation is announced first, with the dry-run prefix exactly under dry-run. A failure is logged as the last line. Under dry-run the tree is unchanged and nothing fails. |
| `Execution.Run` | OrganizerTool/Domain/Executor.cs:29-81 | An execution visits at most all operations, and all of them when it completes. A cancelled run was cancelled at the first unvisited index. An aborted run's last log line names the failing operation and its error. |
| `Execution.RunSnoc` | OrganizerTool/Domain/Executor.cs:39-80 | One more operation adds nothing to a stopped run and one more turn to a running one. |
| `Execution.RunStopsFinal` | OrganizerTool/Domain/Executor.cs:75-79 | Once an execution has stopped, no later operation is logged or applied. |
| `Execution.RunStopsAt` | OrganizerTool/Domain/Executor.cs:39-80 | An execution that stops at index i ends exactly as that turn left it. |
| `Execution.CancelledAt` | OrganizerTool/Domain/Executor.cs:41 | A cancellation before index k keeps what ran before k and logs and applies nothing from k on. |
| `Execution.StepAnnounced` | OrganizerTool/Domain/Executor.cs:43-48 | A turn announces its operation once unless cancelled. Warnings and errors announce nothing. |
| `Execution.RunAnnounced` | OrganizerTool/Domain/Executor.cs:37-43 | The logInfo lines are exactly the visited operations, once each, in plan order, with the dry-run prefix exactly when dry-run is on. |
| `Execution.RunApplies` | OrganizerTool/Domain/Executor.cs:45-79 | Outside dry-run the final tree is the visited operations applied once each in plan order. The failing one is included and nothing is undone. |
| `Execution.DryRunHarmless` | OrganizerTool/Domain/Executor.cs:37-48 | A dry run leaves the tree unchanged and never fails. Its log is exactly the `[DRY-RUN]`-prefixed descriptions of the visited operations. |
| `Execution.ExtractEntriesInert` | OrganizerTool/Domain/Executor.cs:70-72 | Operations the switch has no case for leave the tree unchanged, outside dry-run too. |
| `Execution.NoCancelRunsThrough` | OrganizerTool/Domain/Executor.cs:39-41 | With a token that never fires, a run is never cancelled: it completes exactly when it visits every operation without failing. |
| `Execution.Executor.constructor` | OrganizerTool/Domain/Executor.cs:12-15 | The executor holds the filesystem it was given. |
| `Execution.Executor.ExecuteCore` | OrganizerTool/Domain/Executor.cs:29-81 | The live filesystem, the log lines handed to the callbacks, and the outcome (completed, cancelled or rethrown) are those of `Run` on the plan's operations. |
| `Execution.Executor.PerformLogged` | OrganizerTool/Domain/Executor.cs:43-79 | One uncancelled turn on the live filesystem is exactly `Step`: announce, apply unless dry-run, warn or log the failure. |
| `Execution.Executor.Perform` | OrganizerTool/Domain/Executor.cs:52-73 | The live switch changes the filesystem and sets the outcome as `Dispatch` does. |
| `Execution.Executor.CreateZip` | OrganizerTool/Domain/Executor.cs:83-97 | The live CreateZip changes the filesystem and sets the outcome as `CreateZipEffect` does. |
| `Scanning.KeyLeTotalPreorder` | OrganizerTool/Domain/ModScanner.cs:19-21 | Case-insensitive ordinal comparison of full paths is a total preorder. |
| `Scanning.InsertBy` | OrganizerTool/Domain/ModScanner.cs:19-21 | Inserting a path adds exactly that one element. |
| `Scanning.InsertSorted` | OrganizerTool/Domain/ModScanner.cs:19-21 | Insertion keeps a sorted sequence sorted. |
| `Scanning.OrderBy` | OrganizerTool/Domain/ModScanner.cs:19-21 | OrderBy is a permutation of its input. |
| `Scanning.OrderBySorted` | OrganizerTool/Domain/ModScanner.cs:19-21 | OrderBy's result is sorted by the comparer and holds exactly the input's elements. |
| `Scanning.DirsOnly` | OrganizerTool/Domain/ModScanner.cs:19 | The top-level directory listing holds exactly the entries that are directories. |
| `Scanning.ModDirsSpec` | OrganizerTool/Domain/ModScanner.cs:19-21 | The mod folders are exactly the child directories of the target, each once, in case-insensitive order. |
| `Scanning.NamedLang` | OrganizerTool/Domain/ModScanner.cs:57 | The pattern `lang` keeps exactly the directories whose name is `lang`, ignoring case. |
| `Scanning.KeepGrandchildren` | OrganizerTool/Domain/ModScanner.cs:64-85 | The loop keeps exactly the directories that have a grandparent equal to `assets`, ignoring case. |
| `Scanning.CandidateShape` | OrganizerTool/Domain/ModScanner.cs:50-87 | A directory is a candidate exactly when it exists and has the shape `<mod>/assets/<id>/lang`, ignoring the case of `lang`. |
| `Scanning.CandidateShapeExamples` | OrganizerTool/Domain/ModScanner.cs:52-53 | `assets/<id>/lang` is a candidate whenever it exists; `assets/lang` and `assets/a/b/lang` never are. |
| `Scanning.ScanModFacts` | OrganizerTool/Domain/ModScanner.cs:32-44 | A mod's result records its name, path and whether `assets` exists. Without `assets` there are no candidates; with it, the candidates are its `assets/<id>/lang` directories. |
| `Scanning.ScanFolders` | OrganizerTool/Domain/ModScanner.cs:25-45 | The results are those of the folders before the first one the cancel predicate fires for, one per folder, in order. |
| `Scanning.Scan` | OrganizerTool/Domain/ModScanner.cs:7-48 | A blank or missing target gives no results. Otherwise the results are the ordered mod folders' results up to the first cancelled folder. |
| `Planning.ChooseLangSources` | OrganizerTool/Domain/OperationPlanner.cs:99-111 | MergeAll chooses every candidate; any other mode chooses at most the first. The choice is empty exactly when there are no candidates. |
| `Planning.SeparateFoldersIsFirstOnly` | OrganizerTool/Domain/OperationPlanner.cs:106-110 | SeparateFolders chooses what FirstOnly chooses: the first candidate. |
| `Planning.SafeEnumerateFileSystemEntries` | OrganizerTool/Domain/OperationPlanner.cs:113-123 | The entries are exactly the paths in the tree whose parent is the directory, in the order the snapshot lists them. A path that is not a directory cannot be listed and has none. |
| `Planning.Moves` | OrganizerTool/Domain/OperationPlanner.cs:37-50 | There is one move per entry, in order, to the entry's name under `<mod>/lang`. |
| `Planning.MovesMembers` | OrganizerTool/Domain/OperationPlanner.cs:37-50 | A move from a to b is planned exactly when a is an entry and b is its name under the destination. |
| `Planning.LangMoves` | OrganizerTool/Domain/OperationPlanner.cs:34-51 | Policy A's move part holds only moves. |
| `Planning.NonLangDeletes` | OrganizerTool/Domain/OperationPlanner.cs:53-65 | Every child not named `lang` (ignoring case) is deleted, and only those. |
| `Planning.DeleteAll` | OrganizerTool/Domain/OperationPlanner.cs:79-85 | There is one deletion per child, in order. |
| `Planning.BackupOpsKinds` | OrganizerTool/Domain/OperationPlanner.cs:21-27 | The backup part neither moves nor deletes, and holds one BackupZip exactly when a backup is wanted. |
| `Planning.BuildPlan` | OrganizerTool/Domain/OperationPlanner.cs:8-97 | The loops and counters build exactly the plan `PlanSpec` describes. |
| `Planning.PlanEntryMoves` | OrganizerTool/Domain/OperationPlanner.cs:37-50 | The inner loop's moves are `Moves` of the entries. It counts one planned move per move and one planned delete per target that already exists. |
| `Planning.PlanMoves` | OrganizerTool/Domain/OperationPlanner.cs:34-51 | The outer loop's moves are the chosen directories' moves in order, with the same two counts. |
| `Planning.PlanNonLangDeletes` | OrganizerTool/Domain/OperationPlanner.cs:54-65 | The loop over the mod folder's children plans `NonLangDeletes`. |
| `Planning.PlanDeleteAll` | OrganizerTool/Domain/OperationPlanner.cs:80-85 | The policy B loop plans `DeleteAll` and counts one planned delete per child. |
| `Planning.EntryOf` | OrganizerTool/Domain/OperationPlanner.cs:113-123 | An entry listed for d is exactly a path in the tree whose parent is the directory d. |
| `Planning.LangMovesMembers` | OrganizerTool/Domain/OperationPlanner.cs:34-51 | A move from a is planned over the chosen directories exactly when a is an entry of one of them, and it targets a's name under `<mod>/lang`. |
| `Planning.PlanCounts` | OrganizerTool/Domain/OperationPlanner.cs:8-97 | plannedMoves is the number of moves. Under A, plannedDeletes is the deletions plus the moves onto existing paths. Under B it is the deletions, one per entry of the mod folder. There is one BackupZip exactly when a backup is wanted. |
| `Planning.PlanMoveSources` | OrganizerTool/Domain/OperationPlanner.cs:29-96 | A move a → b is planned exactly when a is an entry of a chosen directory and b is `<mod>/lang/<name of a>`. Under policy B nothing is moved. |
| `Planning.PlanDeletes` | OrganizerTool/Domain/OperationPlanner.cs:53-96 | Under A a path is deleted exactly when it is an entry of the mod folder not named `lang` (ignoring case). Under B, exactly when it is an entry of the mod folder. |
| `Planning.PlanShape` | OrganizerTool/Domain/OperationPlanner.cs:8-97 | The backup, when wanted, comes first: MKDIR of the backup folder, then ZIP into `<folder>/<mod>.zip`. Under A, MKDIR `<mod>/lang` follows, then moves, and every deletion comes after every move. Under B only deletions follow. |
| `Planning.PlanHeader` | OrganizerTool/Domain/OperationPlanner.cs:67-96 | The plan copies the mod's name, path and candidates. Its label is A exactly when there are candidates and B otherwise. Policy B plans no moves. |
| `Planning.PlanIgnoresRunSwitches` | OrganizerTool/Domain/OperationPlanner.cs:8-97 | The plan depends neither on dry-run nor on the delete mode. |
| `Tidying.TurnAdds` | OrganizerTool/Domain/Executor.cs:52-73 | Whether it succeeds or throws, one operation brings into the tree only ancestors of its target, plus paths inside the destination for a move. A deletion or an operation the switch does not handle brings nothing. |
| `Tidying.AppliedAdds` | OrganizerTool/Domain/Executor.cs:39-80 | Every path that running a list of operations brought into the tree is one that some operation of the list may add. |
| `Tidying.AppliedAppend` | OrganizerTool/Domain/Executor.cs:39-80 | Applying two operation lists one after the other is the same as applying their concatenation. |
| `Tidying.AppliedDeletes` | OrganizerTool/Domain/Executor.cs:62-64 | Deletions only remove. Every path left was there before, and none lies inside a deleted subtree. |
| `Tidying.CompletedApplies` | OrganizerTool/Domain/Executor.cs:39-80 | A run outside dry-run that goes through to the end leaves every operation of the plan applied, in order. |
| `Tidying.ChildListed` | OrganizerTool/Domain/OperationPlanner.cs:113-123 | Every path strictly below a folder lies inside one of the entries listed for that folder. |
| `Tidying.BackupAddsNothingBelow` | OrganizerTool/Domain/OperationPlanner.cs:22-27 | The backup operations bring nothing into a mod folder that does not contain the backup folder. |
| `Tidying.BackupOutsideMod` | OrganizerTool/ViewModels/MainViewModel.cs:442-444 | An execution's backup folder lies inside no mod folder except `<target>\_backup`. |
| `Tidying.MoveAddsUnderLang` | OrganizerTool/Domain/OperationPlanner.cs:34-51 | Below the mod folder, a policy A move brings in only paths inside `<mod>/lang`. |
| `Tidying.PreludeAddsOnlyLang` | OrganizerTool/Domain/OperationPlanner.cs:22-51 | Below the mod folder, the backup, the EnsureDirectory of `<mod>/lang` and the moves bring in only paths inside `<mod>/lang`. |
| `Tidying.SurvivorsOfPolicyA` | OrganizerTool/Domain/OperationPlanner.cs:53-65 | Delete the mod folder's entries not named `lang`, after a prelude that brings below the mod folder only paths inside `<mod>/lang`. Every path left below the mod folder then lies in an entry named `lang`, ignoring case. |
| `Tidying.SurvivorsOfPolicyB` | OrganizerTool/Domain/OperationPlanner.cs:79-85 | Deleting every entry after a prelude that adds nothing below the mod folder leaves nothing below it. |
| `Tidying.PolicyALeavesOnlyLang` | OrganizerTool/Domain/OperationPlanner.cs:29-65 | A plan A that runs to the end outside dry-run leaves, below the mod folder, only paths inside its entries named `lang` (ignoring case). |
| `Tidying.PolicyBEmptiesMod` | OrganizerTool/Domain/OperationPlanner.cs:79-85 | A plan B that runs to the end outside dry-run leaves the mod folder empty. |
| `ViewModels.BackupRunDirWanted` | OrganizerTool/ViewModels/MainViewModel.cs:442-444 | The planner plans a backup in an execution exactly when backups are on, into a folder below the target. |
| `ViewModels.PreviewMatchesExecution` | OrganizerTool/ViewModels/MainViewModel.cs:366-391 | The preview's plan, built without a backup folder, holds no BackupZip. Its label and counters equal those of the plan an execution builds with the folder. The preview changes no other field of the row. |
| `ViewModels.MainViewModel.RecalculatePlans` | OrganizerTool/ViewModels/MainViewModel.cs:366-391 | Every row shows its plan's policy and counters; the log and the number of rows stay as they were. |
| `ViewModels.ModRun` | OrganizerTool/ViewModels/MainViewModel.cs:474-480 | A row's execution with CancellationToken.None is never cancelled. |
| `ViewModels.ExecuteRow` | OrganizerTool/ViewModels/MainViewModel.cs:470-501 | A row always ends as Success, Warning or Failed. |
| `ViewModels.RowFailedIffThrew` | OrganizerTool/ViewModels/MainViewModel.cs:472-501 | A row fails exactly when its execution threw. Otherwise it is Warning without candidates and Success with some. Its log is the executor's lines, plus one "Mod failed" line only on failure. |
| `ViewModels.ExecuteBatch` | OrganizerTool/ViewModels/MainViewModel.cs:454-515 | Every row gets a status. A batch that has not stopped has visited every row. |
| `ViewModels.BatchTallied` | OrganizerTool/ViewModels/MainViewModel.cs:448-501 | Each counter is the number of rows with its status, and together they are the number of rows visited. |
| `ViewModels.BatchStatuses` | OrganizerTool/ViewModels/MainViewModel.cs:482-514 | Every visited row is Success, Warning or Failed, and every later row is Cancelled. |
| `ViewModels.BatchStops` | OrganizerTool/ViewModels/MainViewModel.cs:503-514 | The batch stops only after a row whose cancel flag was read as set. The flag was read as clear after every earlier row. Otherwise it runs through all rows. |
| `ViewModels.BatchPrefix` | OrganizerTool/ViewModels/MainViewModel.cs:454-515 | The batch over the first rows is the start of the whole batch. Once it has stopped, the whole batch is that one with only statuses added. |
| `ViewModels.BatchStep` | OrganizerTool/ViewModels/MainViewModel.cs:454-514 | One more row of a running batch is one more turn of the loop. |
| `ViewModels.StoppedStep` | OrganizerTool/ViewModels/MainViewModel.cs:507-513 | A row after the batch has stopped is only marked Cancelled. |
| `ViewModels.CancelledTail` | OrganizerTool/ViewModels/MainViewModel.cs:503-514 | After a detected cancellation, no later row is planned or executed, and every later row is Cancelled. |
| `ViewModels.RowStatus` | OrganizerTool/ViewModels/MainViewModel.cs:454-501 | Row j of a batch that reached it was preceded by rows that ran without stopping. Its status is the one its execution produced on the tree they left. Failures do not stop the batch. |
| `ViewModels.HarmlessBatch` | OrganizerTool/ViewModels/MainViewModel.cs:454-515 | If rows leave the tree alone and never fail, the batch leaves the tree alone and counts no failure. |
| `ViewModels.DryRunRow` | OrganizerTool/ViewModels/MainViewModel.cs:470-501 | Under dry-run one row leaves the tree alone and does not fail. |
| `ViewModels.DryRunBatchHarmless` | OrganizerTool/ViewModels/MainViewModel.cs:454-515 | Under dry-run the whole batch leaves the filesystem as it was, and no row fails. |
| `ViewModels.CancelledRows` | OrganizerTool/ViewModels/MainViewModel.cs:503-514 | Marking every row after a detected cancellation Cancelled gives every row the whole batch's status. |
| `ViewModels.MainViewModel.ExecuteMods` | OrganizerTool/ViewModels/MainViewModel.cs:439-515 | The live filesystem, the appended log, each row's status and the three counters are those of `ExecuteBatch` with the program's row execution. |
| `ViewModels.MainViewModel.ExecuteModsWith` | OrganizerTool/ViewModels/MainViewModel.cs:448-515 | The loop leaves the window showing `ExecuteBatch` over the rows, with its counters. |
| `ViewModels.MainViewModel.VisitRow` | OrganizerTool/ViewModels/MainViewModel.cs:456-514 | One turn, counters included, advances the shown batch by exactly `VisitMod`. |
| `ViewModels.MainViewModel.ProcessRow` | OrganizerTool/ViewModels/MainViewModel.cs:456-505 | One row on the live state sets exactly that row's status and appends its log. The cancel notice is appended when the flag is read as set. |
| `ViewModels.MainViewModel.ExecuteRowNow` | OrganizerTool/ViewModels/MainViewModel.cs:461-501 | Planning and executing the row on the live filesystem gives `ExecuteRow`'s tree, log and status. |
| `ViewModels.MainViewModel.CancelRest` | OrganizerTool/ViewModels/MainViewModel.cs:503-514 | After the cancel notice, marking the later rows gives the window the whole batch. |
| `ViewModels.MainViewModel.MarkCancelled` | OrganizerTool/ViewModels/MainViewModel.cs:507-511 | The rows from the given index on become Cancelled; the earlier rows and the log stay as they were. |

## Left out

- The WPF window, dialogs and data binding are not modelled. Neither are the
  confirmation prompt and the guards before a run (`MainViewModel.cs:401-433`), the
  progress bar and text, and the settings store. `App.xaml.cs` is not part of this
  model.
- The "Execute start", "Summary" and "Cancel requested" log lines are not modelled,
  nor the time stamps the logger adds. The model starts the batch's log at the first
  row.
- `ExecuteAsync`'s `Task.Run` and the threads it involves are not modelled. The UI
  cancel flag is a parameter read after each row, so a concurrent `RequestCancel` is
  captured only by its value at each read.
- The content of the zip archive and the recycle bin are not modelled. A backup is an
  archive file at the zip path, and both delete mechanisms remove the entry from the
  tree.
- Exceptions other than the modelled ones are not represented. That covers access
  denied, a path too long, I/O errors and a file locked by another process. Also not
  represented is a listing that fails part-way: the scanner's and planner's
  enumerations either return the snapshot's listing or, for a non-directory, nothing.
- The order in which the operating system lists a directory is a parameter of the
  snapshot. Only its content is tied to the tree (`FileTree.Consistent`). The batch
  reads listings through `views`. Its properties hold for any such function, and the
  planner's lemmas apply whenever `views(t)` is consistent with `t`.
- Filesystem lookups and directory creation compare path segments exactly, as a
  case-sensitive filesystem does. On Windows, `Directory.Exists(<mod>\assets)` and
  `CreateDirectory(<mod>\lang)` ignore case, so a mod folder holding `Assets\x\lang`
  gets policy B in the model but a candidate on Windows. Only the `lang` search
  pattern and the planner's `lang` test ignore case in the model
  (`Scanning.NamedLang`, `Planning.NonLangDeletes`).
- Paths are segment sequences without a trailing separator, and drive-letter and
  UNC roots get no special treatment. Ignore-case comparison folds ASCII letters
  only. `Path.GetDirectoryName` returning null or blank is modelled as the empty
  path.
- Jar mode, jar scanning and ZIP entry extraction are absent from the code and so
  from the model. `ModScanResult.sourceType` is always `Directory`.
- The end-to-end outcome is stated only for a plan that runs to the end, from the
  tree it was planned on (`Tidying.PolicyALeavesOnlyLang`, `Tidying.PolicyBEmptiesMod`).
  A run that throws part-way is described only by `Execution.RunApplies`. The batch
  plans each row from a listing given by `views`, which can be any function, so
  neither lemma is restated for a row of the batch. Each applies to a row whenever
  that listing is consistent with the tree.
- `Tidying.PolicyALeavesOnlyLang` and `Tidying.PolicyBEmptiesMod` require that the
  backup folder not lie inside the mod folder. In a batch this fails only for a mod
  folder `<target>\_backup` left by an earlier backup run, which the scanner lists
  like any other folder (`Tidying.BackupOutsideMod`).
- `Storage.DeletePathEffect`: its own contract states only that it never throws. What
  it does to the tree is stated by `Storage.DeletePathProperties`.
- `Planning.LangMoves`: its own contract states only that it holds moves. Which
  moves it holds is stated by `Planning.LangMovesMembers`.
