# Offline-first sync engine: a verified model

The daemon mounts a remote disk as a filesystem. File operations act on a local metadata database and
local cache files at once; a worker thread brings the remote side up to date later from a queue of
operations, and now and then reconciles the database with the whole remote tree. This project models
that engine in Dafny and proves what it keeps over all runs.

`dafny verify dfyconfig.toml` checks the project.

## How it is laid out

- **Names and paths.** `RemotePaths` (join, parent, name), `ConflictNames` (the `name (2).ext` parser,
  printer and search), `SqlLike` (what the subtree query selects).
- **Tables.** `Tables` has the three tables as one value with the schema's constraints and the table
  helpers as functions; `SubtreeRename` proves when the loop of single-row updates is prefix
  substitution. `SyncSteps` has one function for each hold of the database lock.
- **Invariants.** `TableInvariants` and `HelperSoundness` prove what each helper and step keeps.
- **The machine.** `SyncMachine` interleaves any number of filesystem threads with the one worker. A
  thread acts on rows it read in an earlier hold of the lock, so every step takes an arbitrarily stale
  row; remote answers, clock values and iteration orders are free. The results hold in every reachable
  state. `QueueBounds`, `ReconcileSafety` and `ReconcileExact` build on it.
- **Conflicts in a reconcile.** `ReconcileConflicts` (what every committed reconcile does for unsynced rows that
  conflict with the tree), `QuietSteps` (steps without a conflict) and `LoneConflict` (the exact condition for one
  conflicting row).
- **Whole jobs.** `RemoteStore` is the remote side as a map; `JobRuns`, `AtLeastOnce`, `JobInvariant` and `JobOutcomes`
  run jobs from start to end with every call allowed to fail, to lose its answer or to be cut off by a
  crash. `ConflictCopies` and `UploadConflicts` say what a conflict leaves, `FailingTables` shows tables on
  which it fails, and `Redelivery` takes jobs again in a world that has moved on. `FailedJobs` says which answers
  complete a job and what a failing one leaves, and `LocalToRemote` follows an edit, a creation, a deletion and a
  rename from the local operation to the remote side. `QueuedRenames` has renames that meet other queued work, and
  `RemoteCommands` traces each queued deletion and rename back to the local operation that asked for it.
- **The service object.** `SyncService` is the class that updates the tables, the cache directory and
  the remote side in place; each method is proved to do what the function of the same name says.
- **The filesystem.** `InodeCache` (paths, inode numbers, listings, handles as a value), `InodeSafety`,
  `InodeRename`, `InodeWalk` and `InodeRuns` (what its operations keep), `InodeOutcomes` (what they leave),
  `FsState` (the class that updates the maps in place), `WriteHandles` (a handle as a byte array) and `DiskFs` (service and cache together).
- **Enumeration.** `RemoteListing` (paging, versions) and `RemoteWalk` (the recursive walk).

## What turned out false of the code

Each of these is proved, with the exact condition under which the code does what its documentation promises.

- *A conflict preserves both copies* (the repository's README.md:84 and docs/offline-first-sync.md:135-143). It does
  exactly when the chosen name is free of hidden rows too, the query for the row's subtree selects nothing
  else, and no path below the new name is taken (`UploadConflicts.UploadConflictKeepsBothIff`). The search for
  a name sees visible siblings only, so a row waiting for deletion can hold it
  (`FailingTables.HiddenRowBlocksConflict`), and the query's pattern is not escaped
  (`FailingTables.StrayRowBlocksConflict`). Then the transaction fails and the job stays leased. A conflict on a
  directory queues an upload that never succeeds (`UploadConflicts.ConflictedDirectoryNeverUploads`).
- The same holds for a conflict that a reconcile finds, with one more condition: the remote tree has no object at
  the chosen name (`LoneConflict.CopiedInEveryOrderIff`). The search looks at the table only. If the tree has such an
  object that the table does not know yet, the copy takes it for its own and adopts its version
  (`LoneConflict.CopyAdoptsForeignVersion`), and the upload of the copy then replaces the foreign object
  (`LocalToRemote.AdoptedCopyReplacesForeign`).
- *Local renames reach the remote side.* One rename does (`LocalToRemote.RenameReachesRemote`). A second one before
  the first has run replaces it in the queue, and then neither reaches the remote side
  (`LocalToRemote.SecondRenameReplacesFirst`, with the exact condition in `QueuedRenames.EarlierRenameStaysIff`). And a
  file that is edited and then renamed before its upload has run becomes a conflict copy although nobody else has
  changed anything, since the older upload looks for the object at the new path
  (`QueuedRenames.EditThenRenameConflicts`); an upload goes through exactly when the object at the row's present path
  has the remembered version (`FailedJobs.UploadCompletesIff`).
- *Queued work is delivered again after a crash without harm.* A rename taken again deletes whatever has come to
  lie at the old path in the meantime (`AtLeastOnce.RenameAgain`), such as a new file that was created and
  uploaded there; the next reconcile then drops its row and its bytes (`Redelivery.LateRenameLosesNewFile`).
- *Reconciling makes the table equal to the remote tree.* It does on exactly the tables with nothing to protect
  (`ReconcileExact.ReconcileMirrorsRemoteIff`).
- *Renaming moves a subtree.* The query's LIKE pattern also ignores letter case
  (`SubtreeRename.RenameIsSubstitutionIff`, `FailingTables.LetterCaseBlocksRename`).
- *Open files follow a rename.* Handles are rewritten on a bare string prefix
  (`InodeRename.HandlesFollowIff`, `InodeRuns.BarePrefixMovesHandle`).
- *Inode numbers survive a rename.* Only those that listed directories lead to do, and creating an entry
  forgets its directory's listing (`DiskFs.InodesSurviveRenameIff`, `InodeRuns.CreatingDetachesSiblings`).
- *A listing is the whole directory.* Without a reported total only the first page is read
  (`RemoteListing.TotalDecides`, `RemoteWalk.PagesDecideTree`).
- The documentation (docs/offline-first-sync.md:119) lets a job end in a conflict state. No row or
  operation ever does (`SyncMachine.NothingIsParked`).
- The documentation (docs/offline-first-sync.md:133) says that a changed remote file invalidates the
  cache. The code keeps the old bytes and queues a download, and the model follows the code. A manual
  refresh of one directory (docs/offline-first-sync.md:131) always refreshes the whole tree.

## Reading the statements

- Values of `new_id` are numbers from a counter; a cache path is a function of the file id, as
  `cache_path_for` makes it. The counter stands for ids that never repeat.
- `Sound(before, after)` says that the tables stay valid, no file loses its driving operation, no row
  becomes active without one, and the queue does not grow beyond one runnable operation per file and type.
- Conditions that the code does not check are preconditions with names: `LikeExact` and `TargetsFree`
  (the query selects the subtree only, targets are free), `NoOrphans` (nothing lies below a path that is not
  there), `NoBarePrefix` (no open file outside what the listings reach begins with the directory's path),
  `RenameReady` (what the kernel and the service grant, nothing cached below the new path), `Tidy` (no path has an
  empty name in it), `Lone` (one row conflicts with the tree, no other), `NothingPrefixed` (nothing lies below the
  conflicting path, and the query does not select a longer path that begins with it).
- Service and cache methods are proved against functions of the old state; what the functions promise is
  in the lemmas.

## Model

| member | source | states |
|---|---|---|
| `RemotePaths.JoinThenSplit` | src/sync.rs:2027-2053 | Joining a slash-free name to a parent and splitting again gives both back, exactly when the parent is neither empty nor the bare scheme |
| `RemotePaths.SplitThenJoin` | src/sync.rs:2027-2053 | Splitting a path and joining the halves restores it, exactly when the part before the last slash is neither empty nor the root |
| `ConflictNames.FindConflictName` | src/sync.rs:1981-1994 | The search loop stops and returns the specified name, or reports that the 32-bit index would overflow |
| `ConflictNames.PrintThenSplit` | src/sync.rs:1985-2025 | Splitting a printed candidate gives back base, extension and index, for every name and every 32-bit index (dotfiles, compound suffixes and bare suffixes included) |
| `ConflictNames.NextNameIsLeastFree` | src/sync.rs:1981-1994 | The chosen name is free, differs from the input and has the least free index above the input's own |
| `ConflictNames.SearchIsBounded` | src/sync.rs:1981-1994 | By pigeonhole at most one more candidate than used names is tried, without 32-bit overflow when that many indices fit |
| `ConflictNames.RepeatedConflictsCountUp` | src/sync.rs:1981-2025 | Repeated conflicts count the index up by one each time and never nest suffixes |
| `SqlLike.DescendantsAreSelected` | src/sync.rs:1847-1849 | The LIKE pattern selects every true descendant, whatever characters the path has |
| `SqlLike.SelectionWithoutWildcards` | src/sync.rs:1847-1849 | Without wildcards the pattern selects exactly the paths whose first part equals the prefix up to ASCII case |
| `SubtreeRename.RenameRowsEffect` | src/sync.rs:1853-1870 | Wherever the loop of updates stops, each row is untouched or fully relocated, and paths stay unique |
| `SubtreeRename.RenameIsSubstitutionIff` | src/sync.rs:1838-1872 | For every order the query may return: to an absent path outside the subtree the loop succeeds and is prefix substitution, if and only if the pattern is exact and no outside row holds a target path |
| `SubtreeRename.StrayRowBreaksRename` | src/sync.rs:1847-1866 | A row that the pattern selects outside the subtree makes the rename fail or move that row |
| `FailingTables.LetterCaseBlocksRename` | src/sync.rs:1847-1866 | On a concrete valid table, letter case alone keeps a directory from being renamed to any path |
| `SubtreeRename.AbsentTargetIsFree` | src/sync.rs:584-611 | On a parent-closed tree an absent target path implies that no target of the subtree is taken |
| `SubtreeRename.RenameKeepsParents` | src/sync.rs:1838-1872 | Prefix substitution under an existing directory keeps the tree parent-closed |
| `SubtreeRename.RenameThenBack` | src/sync.rs:584-611 | Rename and rename back both succeed and restore every path, parent and name |
| `TableInvariants.UpsertKeepsQueue` | src/sync.rs:1631-1704 | An upsert never adds a second runnable operation of a file and type, keeps leased ones it does not supersede as they are, and ids only grow |
| `TableInvariants.UpsertKeepsDrivers` | src/sync.rs:1631-1704 | An upsert never leaves a file without the operation that drives it, even when it deletes the others |
| `TableInvariants.UpsertSucceedsIff` | src/sync.rs:1631-1704 | An upsert fails exactly for a file whose row is gone |
| `HelperSoundness.ApplyConflictSound` | src/sync.rs:1775-1836 | Making a conflict copy keeps the schema's constraints, the derived columns, every file's driver and the queue bounds, and fails if the row is gone |
| `HelperSoundness.RenameSound` | src/sync.rs:1838-1872 | A subtree rename, finished or not, keeps the tables valid and changes path columns only |
| `HelperSoundness.ReconcileSound` | src/sync.rs:1301-1394 | A committed reconcile keeps the schema's constraints, every file's driver and the queue bounds, for any remote tree and any order |
| `SyncMachine.StepKeepsInv` | src/sync.rs:389-611 | Every step of every thread, on arbitrarily stale rows, keeps the invariant of tables and worker |
| `SyncMachine.NoRowIsStuck` | src/sync.rs:997-1272 | In every reachable state a row queued, uploading, downloading or awaiting deletion has an upload, directory creation, download or deletion that is pending, to be retried or leased |
| `SyncMachine.NothingIsParked` | src/sync.rs:1416-1446 | No row and no operation is ever in the conflict state |
| `SyncMachine.ConflictsAreNeverParked` | src/sync.rs:1014-1035 | The early conflict exit is never taken, and the closing one finds its job already deleted and changes nothing |
| `SyncMachine.ColumnsAgree` | src/sync.rs:1706-1773 | In every reachable state parent, name and cache path agree with path and file id, and no two rows share a path or a cache file |
| `SyncMachine.ListingIsExact` | src/sync.rs:1569-1586 | A directory listing is exactly the visible rows whose path is the directory's joined with their name |
| `SyncMachine.EndedJobIsNotLeased` | src/sync.rs:997-1272 | A worker step that ends its job without an error does not leave it leased |
| `QueueBounds.RunnableBound` | src/sync.rs:1631-1704 | Over every run a file has at most one runnable operation of a type plus the leases that expired or were retried |
| `QueueBounds.EnqueuesCoalesce` | src/sync.rs:1631-1704 | Any number of enqueues with no lease in between leaves one operation with the first id and the last payload |
| `QueueBounds.UnlinkLeavesOnlyTheDelete` | src/sync.rs:539-582 | Deleting a remotely known file leaves exactly one unfinished operation, its pending deletion |
| `QueueBounds.RecoveredIsEligible` | src/sync.rs:907-920 | In every reachable state a lease that expires is at once eligible |
| `QueueBounds.ReEligibleWithinBound` | src/sync.rs:907-995 | Every unfinished operation can be taken no later than 32 seconds after its last update, with only smaller ids before it |
| `QueueBounds.FailuresAddUp` | src/sync.rs:1227-1256 | An operation leased whenever it can be and failing each time is eligible again exactly from its start plus the total backoff on |
| `QueueBounds.TotalBackoffIs` | src/sync.rs:1227-1256 | Total backoff after k failures is 2^k-1 up to six and 63+32(k-6) beyond |
| `QueueBounds.TakenJobIsDue` | src/sync.rs:955-995 | The operation taken is pending or to be retried, its waiting time is over, and none with a smaller id is in that position; nothing is taken exactly when nothing is due |
| `QueueBounds.LeaseIsExclusive` | src/sync.rs:907-995 | For thirty seconds a lease keeps an operation from being recovered and from being taken again |
| `ReconcileSafety.ReconcileKeepsWork` | src/sync.rs:1301-1394 | For any remote tree and order, committed or rolled back, unsynced rows keep file id, local version, size, cache path and bytes |
| `ReconcileSafety.LocalWorkSurvives` | src/sync.rs:1301-1394 | The same with the three states spelt out: a row queued, uploading or in error stays in one of the three, with its file id, version, size, content and bytes |
| `ReconcileSafety.ReconcileRemovesOnlyDropped` | src/sync.rs:1363-1388 | For every table, tree and order: a reconcile writes no cache file, and each one it removes belonged to a row without a remote object that waited neither for an upload nor for its deletion; that row is gone if the reconcile commits, and back without its bytes if it rolls back |
| `ReconcileSafety.OthersLeaveBytesAlone` | src/sync.rs:1478-1480 | In every reachable state the bytes of an unsynced file survive every step except that file's own edit, first read, deletion and download |
| `ReconcileExact.ReconcileMirrorsRemoteIff` | src/sync.rs:1301-1394 | For every table, tree and order: reconciling commits and makes the table equal to the remote tree (same paths, kept file ids, matching kinds, sizes and versions, downloading with a job if and only if a cached file changed) exactly when every row follows, that is, nothing is unsynced, nothing at a remote path waits for its deletion and no conflict copy stands elsewhere |
| `ReconcileConflicts.ConflictingRowIsCopied` | src/sync.rs:1321-1394 | For every table, tree and order: after a committed reconcile an unsynced row whose object had changed, or was gone although a version was remembered, waits for its upload with an upload unfinished and a record that names its old path, a different copy path and both versions, and it has not adopted the foreign version of its path |
| `LoneConflict.CopiedInEveryOrderIff` | src/sync.rs:1321-1394 | With one conflicting row: every pair of orders commits and leaves the row as a recorded copy beside its old path, knowing no version and with a pending upload, the foreign version on another file id at that path (or the path empty, if the object is gone) and every other row where it was, if and only if the chosen name is free in the table and in the remote tree and the query selects the row alone |
| `LoneConflict.CopyAdoptsForeignVersion` | src/sync.rs:1327-1339 | The failing family: if the remote tree has an object at the chosen name that the table does not know yet, the copy adopts that object's version when the pass reaches it |
| `QuietSteps.QuietRemoteStep` | src/sync.rs:1321-1345 | Taking in a remote object that no unsynced row conflicts with succeeds and changes nothing but the row at its path, or adds one |
| `JobRuns.CompareBeforeWrite` | src/sync.rs:1010-1071 | The remote object is written only at the row's path, with the row's bytes, and only if its version equals the remembered one |
| `ConflictCopies.CopyIsBeside` | src/sync.rs:1968-1979 | The conflict path lies in the same directory under a name no visible sibling has |
| `ConflictCopies.ConflictKeepsBothIff` | src/sync.rs:1775-1836 | For every row, file or directory: the conflict commits and keeps both versions (copy beside the original with everything below it carried along, new remote row, one pending upload) exactly when no row, hidden ones included, holds the chosen path, the query selects the subtree only, and no path below the new name is taken |
| `ConflictCopies.CopyRow` | src/sync.rs:1804-1832 | However the rest of the subtree fares, a committed conflict leaves the row itself as a recorded copy whose only unfinished operation is a pending upload |
| `ConflictCopies.ChildlessConditions` | src/sync.rs:1847-1849 | For a row with nothing below it the conditions on the subtree come down to the query selecting the row alone |
| `ConflictCopies.FilesAreChildless` | src/sync.rs:389-397 | In a parent-closed table every file is such a row |
| `ConflictCopies.VisibleTableHasFreeName` | src/sync.rs:1569-1578 | Without hidden rows the chosen name is always free |
| `FailingTables.HiddenRowBlocksConflict` | src/sync.rs:1968-1979 | On a concrete valid table a row waiting for deletion holds the chosen name and the conflict fails |
| `FailingTables.StrayRowBlocksConflict` | src/sync.rs:1847-1866 | On a concrete valid table without hidden rows the chosen name is free, but the unescaped pattern of a file named by an underscore selects a stranger and the conflict fails |
| `UploadConflicts.UploadConflictKeepsBothIff` | src/sync.rs:1010-1035 | A detected conflict leaves remote side and disk alone, and ends with both versions kept under exactly that condition; a conflict that does not commit rolls the tables back and leaves the job leased |
| `UploadConflicts.FileConflictKeepsBothIff` | src/sync.rs:1010-1035 | For a file, and any row with nothing below it, the condition is that the chosen name is free and the query selects the row alone |
| `UploadConflicts.UncachedRowNeverUploads` | src/sync.rs:1010-1018 | Over any number of worker rounds and whatever the remote side answers, the upload of a row without a cache file neither finishes nor counts a failure, and no row, cache file or remote object changes |
| `UploadConflicts.ConflictedDirectoryNeverUploads` | src/sync.rs:1775-1817 | A directory that a conflict made a copy keeps an unfinished upload and stays queued through any number of worker rounds, and never reaches the remote side |
| `JobOutcomes.UploadEndsInSync` | src/sync.rs:1036-1070 | An upload that finds the remembered version and meets no failure leaves row, cache file and remote object in agreement, its job done and everything else untouched |
| `JobOutcomes.DownloadInstalls` | src/sync.rs:1180-1225 | A download that goes through leaves the remote bytes in the row's own cache file with the matching size, its job done and everything else untouched |
| `JobOutcomes.DownloadAfterUpload` | src/sync.rs:1010-1225 | Round trip: downloading what an upload left changes neither the cache file nor any row |
| `JobOutcomes.InSyncNeedsNothing` | src/sync.rs:1321-1361 | Reconciling a file in sync with its remote object changes nothing at all |
| `JobOutcomes.ConflictEndsWithBothRemotely` | src/sync.rs:2472-2526 | The run that finds a conflict and the later upload of its copy leave the foreign version at the original path and the local bytes at the copy's |
| `LocalToRemote.EditWaitsForUpload` | src/sync.rs:440-493 | After every edit of a known file the row is queued, hydrated, of the new size and the next version, with an upload unfinished and everything else as it was |
| `LocalToRemote.EditSurvivesReconcile` | src/sync.rs:440-493 | The bytes of a committed edit survive the next reconcile, for every tree and order, committed or rolled back, and the row still waits for its upload |
| `LocalToRemote.EditReachesRemote` | src/sync.rs:440-493 | If the remote side has the version the row remembers, the upload that follows puts exactly the edited bytes there and leaves the file in sync |
| `LocalToRemote.CreationWaits` | src/sync.rs:389-438 | After a creation the new row is listed in its directory, queued with nothing known of the remote side, and its upload or directory creation is pending |
| `LocalToRemote.CreationReachesRemote` | src/sync.rs:389-438 | Running that operation makes an empty object, or the directory, and leaves the row synced with its version |
| `LocalToRemote.DeletionReachesRemote` | src/sync.rs:539-582 | A deleted row is in no listing at once, and running the one operation left for it removes its object with everything below, and the row, and nothing else remotely |
| `LocalToRemote.RenameReachesRemote` | src/sync.rs:584-611 | After an accepted rename of a remotely known row an operation is pending that, on any store with an object at the old path and nothing at or below the new one, leaves the object and all below it at the new path with their bytes and nothing below the old one |
| `LocalToRemote.SecondRenameReplacesFirst` | src/sync.rs:1677-1686 | The failing run: a second rename before the first has run takes over its operation, which then finds nothing at its old path, completes and leaves the remote side as it was |
| `QueuedRenames.EarlierRenameStaysIff` | src/sync.rs:1661-1686 | The exact condition: a further rename leaves an earlier queued one as it is if and only if that one is not the oldest of the file's renames that are pending or to be retried; the oldest is overwritten with the new paths |
| `QueuedRenames.RenamedEditConflicts` | src/sync.rs:1010-1035 | The failing family: the upload of a file renamed since its edit takes the absent object at the new path for a conflict, writes nothing, and if that commits the file becomes a copy under a third name and its queued rename is gone |
| `QueuedRenames.EditThenRenameConflicts` | src/sync.rs:955-980 | From the edit on: after an edit and a rename with nothing else of these kinds queued, no worker takes the rename before the upload, and the upload ends in that way |
| `RemoteCommands.CommandsWereAskedFor` | src/sync.rs:1631-1704 | In every reachable state, under every interleaving, each queued operation that deletes or moves remote objects was asked for by an earlier step of the run: the deletion of that row at that path, or its rename between those two paths |
| `LocalToRemote.AdoptedCopyReplacesForeign` | src/sync.rs:1010-1071 | The next upload of a copy that adopted a foreign version replaces the foreign object by the copy's bytes |
| `FailedJobs.UploadFailure` | src/sync.rs:1227-1272 | Whichever call of an upload fails, the row is in error and otherwise unchanged, and its operation is to be retried for exactly the authorization, transport and status errors and given up for all others |
| `FailedJobs.FailedUploadSurvives` | src/sync.rs:1227-1272 | The bytes of such an upload survive the next reconcile, whatever the tree and the order, and the row stays unsynced |
| `FailedJobs.FailedUploadStore` | src/sync.rs:1036-1052 | Whatever the answers, an upload leaves the remote side alone unless every call up to the transfer goes through; then exactly the row's object is there with the local bytes, even if the last look fails or the daemon dies |
| `FailedJobs.DeleteFailure` | src/sync.rs:1073-1093 | Every error of a deletion but a missing object fails it in the same way |
| `FailedJobs.MkdirFailure` | src/sync.rs:1095-1119 | Every error of a directory creation but an existing object fails it in the same way |
| `FailedJobs.RenameFailure` | src/sync.rs:1121-1165 | Every error of a move or clean-up but a missing object fails the rename in the same way |
| `FailedJobs.DownloadFailure` | src/sync.rs:1180-1225 | Every error of a download fails it in the same way and leaves the cache file alone |
| `FailedJobs.UploadCompletesIff` | src/sync.rs:1010-1071 | An upload ends with its job done, and equally with its row synced, exactly when no call fails, nothing crashes, the version is as remembered and the cache file is there; then row, cache file and object agree |
| `FailedJobs.DownloadCompletesIff` | src/sync.rs:1180-1225 | A download ends with its job done, and equally with its row synced, exactly when the bytes arrive; then the cache file holds them and the size matches |
| `FailedJobs.DeleteCompletesIff` | src/sync.rs:1073-1093 | A deletion drops its row exactly when the object is deleted or reported missing; then nothing is left at or below the path |
| `FailedJobs.MkdirCompletesIff` | src/sync.rs:1095-1119 | A directory creation completes exactly when the directory is made or reported existing and then found; then it is there and the row has its version |
| `FailedJobs.RenameCompletesIff` | src/sync.rs:1121-1165 | A rename job completes exactly when the move or clean-up is done or finds nothing, and the look at the new path is answered |
| `RemoteStore.MoveRelocates` | src/sync.rs:2231-2259 | A move between separate subtrees carries every object to its new path and touches nothing else outside the destination |
| `AtLeastOnce.DeleteAgain` | src/sync.rs:1073-1093 | A deletion taken again on any remote side ends with row and operations gone, and changes that side exactly when something has come back below the path |
| `AtLeastOnce.MkdirAgain` | src/sync.rs:1095-1119 | A directory creation taken again on any remote side makes the directory if it is gone, touches nothing else and records the version it finds; undisturbed it ends as one run does |
| `AtLeastOnce.RelocateUnchangedIff` | src/sync.rs:1132-1142 | Moving, or deleting what is left behind, changes the remote side exactly when something is at the old path |
| `AtLeastOnce.RenameAgain` | src/sync.rs:1121-1165 | A rename taken again on any remote side changes it exactly when something has come to lie at the old path since; undisturbed it ends as one run does |
| `Redelivery.UploadAgain` | src/sync.rs:1010-1071 | An upload taken again on any remote side keeps the local bytes, writes only them and only over the remembered version; it repeats itself if it finds that version and otherwise is a conflict that leaves the remote side alone |
| `Redelivery.LateRenameLosesNewFile` | src/sync.rs:1132-1142 | The failing run: a file created and uploaded at the old path before the rename is taken again is deleted remotely, and the next reconcile drops its row and its bytes |
| `JobInvariant.UploadKeepsInv` | src/sync.rs:1010-1071 | A whole upload keeps the invariant of the tables however it ends |
| `JobInvariant.RenameKeepsInv` | src/sync.rs:1121-1165 | A whole rename job keeps the invariant of the tables however it ends |
| `SyncService.Service.Reopen` | src/sync.rs:305-334 | An existing state directory gets its root row back if it is missing, its expired leases recovered and one refresh queued, and satisfies the invariant |
| `SyncService.Service.constructor` | src/sync.rs:305-334 | A new state directory holds the root row and one queued refresh, and satisfies the invariant |
| `SyncService.Service.UpsertOperation` | src/sync.rs:1631-1704 | Does the specified upsert, or changes nothing when the file is gone |
| `SyncService.Service.EnsureRemoteRow` | src/sync.rs:1706-1773 | Inserts or refreshes exactly the row at the remote path |
| `SyncService.Service.RenameSubtree` | src/sync.rs:1838-1872 | The loop of updates does what the specified fold over the ordered selection does, up to the first violation |
| `SyncService.Service.ApplyConflict` | src/sync.rs:1775-1836 | Does the specified conflict handling statement by statement |
| `SyncService.Service.HandleConflict` | src/sync.rs:1458-1476 | The transaction commits the conflict or restores every table |
| `SyncService.Service.CreateEntry` | src/sync.rs:389-438 | Exact error cases, else one new row with one pending operation and for a file an empty cache file; mkdir is the directory case |
| `SyncService.Service.ApplyLocalFile` | src/sync.rs:440-493 | Exact error cases, else the staged bytes are cached and the row is queued and hydrated with the next local version and an unfinished upload |
| `SyncService.Service.Unlink` | src/sync.rs:539-582 | Exact error cases, else the row is dropped or hidden with its deletion queued, and the cached bytes go |
| `SyncService.Service.Rename` | src/sync.rs:584-611 | Exact error cases, else the subtree is renamed and, for a remotely known row, an operation pending that moves its object from the old path to the new; a broken unique path stops it halfway |
| `SyncService.Service.EnsureHydrated` | src/sync.rs:846-891 | Cached bytes are not fetched again but may queue a refresh; fetched bytes are cached and the row updated; on success the cache file exists |
| `SyncService.Service.RequestRefresh` | src/sync.rs:365-377 | One refresh of the whole tree is queued, whatever path is asked for |
| `SyncService.Service.RecoverExpiredLeases` | src/sync.rs:907-920 | All expired leases return to pending and none is left |
| `SyncService.Service.LeaseNextOperation` | src/sync.rs:955-995 | Leases the eligible operation with the smallest id, if there is one |
| `SyncService.Service.FinishJob` | src/sync.rs:1416-1446 | Marks the job and then the file the job still names |
| `SyncService.Service.RetryOrFail` | src/sync.rs:1227-1272 | The file is in error and otherwise unchanged; after an authorization, transport or status error the operation backs off, after any other it is given up |
| `SyncService.Service.ProcessUpload` | src/sync.rs:1010-1071 | Does the specified upload on tables, disk and remote side, and keeps the invariant |
| `SyncService.Service.ProcessDelete` | src/sync.rs:1073-1093 | Does the specified deletion, with a missing object counted as deleted, and keeps the invariant |
| `SyncService.Service.ProcessMkdir` | src/sync.rs:1095-1119 | Does the specified creation, with an existing object counted as made, and keeps the invariant |
| `SyncService.Service.ProcessRename` | src/sync.rs:1121-1165 | Does the specified move or clean-up and keeps the invariant |
| `SyncService.Service.ProcessDownload` | src/sync.rs:1180-1225 | The remote bytes replace the cache file, and the invariant is kept |
| `SyncService.Service.ReconcileRemoteTree` | src/sync.rs:1301-1394 | The two loops do the specified reconcile for the orders their collections gave, and a failure rolls the tables back but not the disk |
| `SyncService.Service.ProcessRefresh` | src/sync.rs:1167-1178 | A committed reconcile closes the job; a failed one, or a tree that cannot be read, leaves it leased and the tables as they were |
| `InodeSafety.LoadKeeps` | src/fs.rs:973-987 | A listing keeps every known inode and its path, and the directory's children are exactly the listed names at their paths |
| `InodeSafety.RefreshKeepsLinksIff` | src/fs.rs:1041-1054 | A refresh keeps the two maps inverse exactly when no other inode has the row's path |
| `InodeSafety.CommitKeeps` | src/fs.rs:1105-1128 | A commit keeps the maps inverse and handles at their inodes' paths, and cleans the handle |
| `InodeSafety.RemoveKeeps` | src/fs.rs:1147-1157 | Removing any set of inodes keeps the maps inverse and reuses no number |
| `InodeSafety.MoveAllEffect` | src/fs.rs:1166-1183 | The loop over a walk moves exactly the walk's inodes and maps exactly their new paths to them |
| `InodeSafety.MoveKeepsLinksIff` | src/fs.rs:1159-1192 | Renaming a subtree keeps the maps inverse exactly when nothing else cached has one of the new paths |
| `InodeRename.MoveKeepsChildren` | src/fs.rs:1159-1192 | After a rename every remaining listing still names its children by the directory's path |
| `InodeRename.HandlesFollowIff` | src/fs.rs:1184-1191 | Handles stay at their inodes' paths exactly when no open file outside what the listings reach has a path that begins with the old one |
| `InodeRename.CacheFollowsDatabaseIff` | src/fs.rs:479-506 | Each cached inode names the same file after a rename, exactly when every cached inode below the old path that names a row is reachable and no row moves to the path of an inode left over below the new one |
| `InodeRuns.RenameEntryKeeps` | src/fs.rs:494-505 | The cache's part of a rename keeps the whole invariant and ends with the inode at the new path |
| `InodeOutcomes.RenameOutcome` | src/fs.rs:494-505 | After a rename the inode hangs in its new directory under the new name with its kind and size and is listed nowhere until a directory is listed again; what lay below is carried along by prefix, other inodes outside the new path are untouched, and handles stay with their inodes |
| `InodeOutcomes.UnlinkOutcome` | src/fs.rs:464-477 | After an unlink the inode and all that was reached through it are gone, no listing leads to it, and the rest is as it was |
| `InodeRuns.RunKeeps` | src/fs.rs:828-1204 | Over every sequential run entries and paths stay inverse, listings agree with paths and handles with their inodes |
| `InodeRuns.NumbersAreNeverReused` | src/fs.rs:848-852 | An inode number that was given up is never in use again in any continuation of the run |
| `InodeRuns.BarePrefixMovesHandle` | src/fs.rs:1184-1191 | For every directory and open file beside it whose path begins with the directory's, renaming the directory moves the handle off its file |
| `InodeRuns.CreatingDetachesSiblings` | src/fs.rs:355-365 | After an entry is created in a directory, nothing else cached below it can be reached any more |
| `InodeWalk.ReachAfterRemoval` | src/fs.rs:1147-1157 | Removing a closed set leaves every other inode's subtree minus that set |
| `InodeWalk.SiblingsReachApart` | src/fs.rs:1194-1202 | Two names in one listing lead to disjoint sets of inodes |
| `FsState.State.UpsertStoredEntry` | src/fs.rs:1024-1039 | Does the specified upsert and returns the inode of the path |
| `FsState.State.ReplaceDirectoryChildren` | src/fs.rs:973-987 | The loop does the specified listing |
| `FsState.State.RefreshEntryFromStored` | src/fs.rs:1041-1054 | Does the specified refresh; an unknown inode is an error without effect |
| `FsState.State.ApplyCommittedStored` | src/fs.rs:1105-1128 | Does the specified commit; an unknown handle and a vanished inode are errors without effect |
| `FsState.State.RemoveEntryRecursive` | src/fs.rs:1147-1157 | The recursion removes exactly the inodes that listings lead to |
| `FsState.State.CollectSubtree` | src/fs.rs:1194-1202 | The recursion terminates and lists each reachable inode once |
| `FsState.State.RenameEntrySubtree` | src/fs.rs:1159-1192 | The loops move the collected inodes and rewrite the handles as specified |
| `FsState.State.RenameEntry` | src/fs.rs:494-505 | Clears the new path, moves the subtree and forgets both listings |
| `WriteHandles.FoldedIsByteArray` | src/fs.rs:1354-1359 | Any sequence of writes and truncations gives the plain byte array: each byte is what the last edit reaching it left, holes are zero |
| `WriteHandles.HandleRefinesBytes` | src/fs.rs:368-436 | Over any sequence of edits and flushes, from any start, the staging file is the fold of the edits and the local version grows once per dirty commit; the handle agrees with the service in bytes and size exactly when it did at the start, is dirty, or has committed; no other row or cache file changes |
| `WriteHandles.NothingToWriteTo` | src/fs.rs:420-436 | Where the path has no row, or a directory, no edit and no flush of a handle reaches the service |
| `WriteHandles.FlushedFileIsByteArrayIff` | src/sync.rs:628-632 | After a final flush the locally loaded bytes are exactly that byte array with the matching size, if and only if the handle agreed at the start or something was edited |
| `DiskFs.YandexDiskFs.EnsureEntryFresh` | src/fs.rs:243-262 | An inode with an open handle keeps what the cache has, another takes over its row, with exact error cases |
| `DiskFs.YandexDiskFs.OpenFileHandle` | src/fs.rs:288-334 | Reading gets number 0 and no handle, a directory and a missing inode are refused, writing refreshes the inode and records a handle at its path |
| `DiskFs.YandexDiskFs.OpenFresh` | src/fs.rs:303-334 | The new handle's staging file holds the local bytes, or nothing for an empty or truncated file; it agrees with the service exactly when it is truncated or the row's size is the length of the cached bytes |
| `DiskFs.YandexDiskFs.ChangeHandle` | src/fs.rs:368-401 | Write and truncate change exactly the handle's staging file, its dirty mark and the inode's size |
| `DiskFs.YandexDiskFs.CommitWriteHandle` | src/fs.rs:420-436 | A dirty handle is committed as specified, a clean one changes nothing |
| `DiskFs.YandexDiskFs.RenameEntry` | src/fs.rs:479-506 | The service renames first and the cache follows; a refusal leaves the cache alone; under the stated conditions the cache's invariant is kept |
| `DiskFs.AcceptedRenameMovesRows` | src/sync.rs:584-611 | A rename the service accepts on a parent-closed tree moves the rows as the cache assumes |
| `DiskFs.InodesSurviveRenameIff` | src/fs.rs:479-506 | Service and cache together: every cached inode still names its file after an accepted rename, under exactly that condition |
| `RemoteListing.VersionTellsRevisions` | src/yadisk.rs:378-386 | A resource has a version unless five fields are missing, and equal versions mean equal revisions |
| `RemoteListing.ConvertedIff` | src/yadisk.rs:361-376 | A list converts exactly when every item is a file or a directory, and then item by item |
| `RemoteListing.ListDirectory` | src/yadisk.rs:109-141 | The paging loop stops; it succeeds exactly when no request fails and every fetched child is a file or a directory, and then returns the children up to where the totals stop it |
| `RemoteListing.ListingIsCompleteIff` | src/yadisk.rs:109-141 | The listing is complete exactly when every page before the last reports a total beyond its own end |
| `RemoteListing.FirstFaultIff` | src/yadisk.rs:109-141 | A listing meets a failed request exactly when one of the pages it asks for fails |
| `RemoteListing.TotalDecides` | src/yadisk.rs:126-137 | A correct total gives the whole directory; without a total only the first page is read |
| `RemoteWalk.CollectRemoteTree` | src/sync.rs:1274-1299 | The recursion over paged listings returns the resources in the order of the walk from the root, or fails because a request or a listing does |
| `RemoteWalk.WalkEnumeratesTreeIff` | src/sync.rs:1274-1299 | The walk meets no resource twice and each after the directory that holds it, and meets all of them exactly when every listing is complete |
| `RemoteWalk.PagesDecideTree` | src/yadisk.rs:126-137 | From pages to the tree: the walk enumerates the remote tree exactly when in every directory each page before the last reports a total beyond its own end |

## Left out

- HTTP requests, OAuth, the secret store, D-Bus, the callback server, mounting and the FUSE session: plumbing with easy claims only.
- SQLite itself, its write-ahead log and JSON payloads: tables are maps, with primary keys, unique paths, increasing ids and cascading deletes built into the steps.
- A crash between two autocommit statements of one lock hold: a step is one hold of the lock, and crashes happen between steps.
- The gap between reconcile's snapshot and its transaction: reconcile is one atomic step.
- A download over edits made meanwhile: the code overwrites them, so `OthersLeaveBytesAlone` excepts a file's own download.
- A write between commit's copy and its clean mark: a handle is used by one thread at a time.
- Parent closure after a reconcile that deletes directories: the code does not keep it, so the rename results take it as a condition.
- `last_error`, `hash`, `mtime`, `created_at`, `last_remote_check_at`, the stale-refresh timer and the status counter: only the clock values of leases and retries are kept, and whether a row was last checked long ago is an argument.
- Row order among equally long paths in the subtree query: the service takes the older row first, while `RenameIsSubstitutionIff` covers every order.
- Status summaries, projections to dictionaries and errno mapping: one-branch facts.
- The unused pre-sync members of src/fs.rs (refresh plans, download URL cache, `upsert_entry`): nothing live calls them.
- Inodes and handles as 64-bit numbers, sizes as signed 64-bit columns: they are unbounded here. The conflict index is 32 bits wide and its overflow is modelled as a missing name.
- Failures of the local file system: reading, writing and removing cache and staging files succeed; a missing cache file of an upload is an input/output error.
- DiskFs.YandexDiskFs.RenameEntry: starts from listings that are already loaded; the reload of the directory and the refresh of the child before it are not part of the method.
- LoneConflict.CopiedInEveryOrderIff: is about one conflicting row with nothing below it; for several at once, each of which may take a name that another's search or query meets, `ReconcileConflicts.ConflictingRowIsCopied` says what every committed run leaves of each.
- `read_range`: a slice of the bytes that `load_local_bytes` returns.
- Remote operations answered asynchronously: a call's effect has happened when it is answered.
- AtLeastOnce.RenameAgain: takes the old and the new path as neither below the other, which the filesystem grants for every rename it passes on.
