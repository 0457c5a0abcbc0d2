# onesync: a Dafny model of the sync engine and its protocols

onesync keeps a local directory and a OneDrive folder in step. This project models the parts
of it whose correctness is not visible from one function, and proves what they promise:

- the **sync cycle** (`crates/onesync-core/src/engine/`): a page of remote changes is filtered for
  case collisions, written to the store and merged with the stored rows; the cursor moves; the
  local tree is scanned; downloads onto scanned files become conflicts; conflicts are recorded and
  parked; the rest is planned and executed with retries;
- the **resumable upload** (`crates/onesync-graph/src/upload/session.rs`) against a server that may
  answer anything, and against one that keeps to the protocol but loses stored bytes;
- the **pause and token-bucket protocol** (`crates/onesync-graph/src/throttle.rs`) as atomic steps of
  any number of callers;
- the **QuickXorHash** and the re-blocking download loop (`crates/onesync-graph/src/download.rs`);
- the **directory scan** (`crates/onesync-fs-local/src/scan.rs`).

## How it is organised

The store is the class `Store.StateStore`. It carries a ghost log of its writes, so a crash after
any write is a prefix of a log. Each phase of the cycle comes twice: as a method over the store
(`DeltaEngine`, `LocalPhase`, `ConflictPhase`, `ResolvePhase`, `ExecutePhase`), in which every port
call may fail, and as a fold over its input (`Walk`, `LocalWalk`, `OverlapWalk`, `ResolveWalk`,
`ExecWalk`) about which the lemmas speak. The method's contract says that its writes are a prefix of
those of the fold, and all of them on success. The store counts failed calls, so the contract also says
that a method gives up only if a call has failed or a new name is not valid. `Cycle.TraceOf` chains the folds, `Cycle.CycleLog`
is the sequence of all writes of a cycle, and `CycleEngine.RunCycle` is the driver proved against
them. The statements about whole cycles are in `CycleOps` (the final list of operations),
`CycleSafety` (the store after any number of writes), `CycleRuns` (whole runs of cycles),
`CycleOutcome` (rows at the end), `FirstSight` (items without a row), `NextCycle` (what the cycle after it
does with the rows), `LocalDisk`
(file content, over the file tree of `DiskActions`) and
`Scheduler` (the second writer of the cursor). `Example` is one concrete cycle.
`LocalScan` connects the directory walk to the engine's view of it.

Inductive proofs call themselves: automatic induction is switched off wherever it would apply.

| module | models |
|---|---|
| `Collections`, `Paths`, `Decimal`, `Limits`, `Numbers`, `Types`, `Store` | values, path text, constants, rows, the store |
| `Collisions`, `CaseRename`, `LoserNames` | case collisions and the names given to losers |
| `Reconcile`, `DeltaPhase`, `DeltaEngine` | the merge decision and the delta phase |
| `LocalPhase`, `ConflictPhase`, `ResolvePhase` | scan results, promotion, conflicts |
| `Planner`, `Retry`, `ExecutePhase` | plan, backoff, execution |
| `Cycle`, `CycleEngine`, `CycleOps`, `CycleSafety`, `CycleRuns`, `CycleOutcome`, `FirstSight`, `NextCycle`, `DiskActions`, `LocalDisk`, `Scheduler`, `Example` | whole cycles |
| `Scan`, `LocalScan` | the directory walk |
| `Upload`, `Throttle`, `QuickXor`, `Download` | the protocols and the hash |

What the cycle takes from outside is a parameter: the page, the scan, all clock readings, the
answers of the ports to each attempt of an operation, the case fold, the short hash and the text
of a timestamp. `CoarserThanAscii` is the one assumption about the fold: it never tells apart what
the store's ASCII lookup identifies. Paths are byte strings that are in NFC already.

## What turned out not to hold

- Loser names are injective in the path and in the attempt, but not in both together
  (`LoserNames.LoserPathNotJointlyInjective`); `LoserNames.LoserNamesClashIff` says exactly when two
  of them clash.
- The merge is sound exactly for the rows that `Reconcile.MergeIsSound` calls trusted. An edit of
  equal length over a hashless base is not seen as an edit, and a remote change is decided to be
  downloaded over it (`Reconcile.HashlessEditIsDownloadedOver`). If the scan still lists the file, the
  cycle turns that decision into a conflict (`CycleOps.ScannedDownloadIsAConflict`), and content is lost
  only as `LocalDisk.ContentSurvivesIff` says.
- When one path occurs more than once in a page, which item gets the collision rename depends on
  arrival order, exactly if the items there are not all the same (`DeltaEngine.RenameIgnoresOrderIff`).
  Everything else in the phase does not depend on it.
- `LocalDisk.ContentSurvivesIff`: a failed rename of a conflict loser does not stop the download
  behind it, and a download that replaces the file may still report an error afterwards. So content can be
  lost in a cycle that counts both operations as failed (`Example.ContentIsLost`).
- `CycleOps.DeletedIff`: a tombstone for a tracked path deletes the local file whatever the row
  says, also when the path is parked.
- `CycleSafety.RemoteMkdirSpoilsTheRun`: planned remote directories have no parent id and always
  fail, so a cycle that asks for one never counts as a success.
- `CycleSafety.NamelessTransferSpoilsTheRun`: planned uploads and downloads do not name their item either;
  they ask for the one with the empty id, and fail unless the drive answers to that.
- `NextCycle.AfterFirstDownload`: a first download leaves the row without a local side. If the drive lists the
  file again, the next cycle plans an upload of it when it has not changed. When it has changed, the cycle records a
  conflict of the file with itself, or, if the file is not there, reports a conflict and does nothing.
- `NextCycle.QuietIff`, `CycleOps.ScannedFileIsUploadedIff`: the scan carries no hashes, so a cycle without news
  from the drive does nothing only if every scanned file is blocked or empty like its base. A file that was
  uploaded is uploaded again (`NextCycle.UploadIsRepeatedIff`).
- `Scheduler.StampedIff`: `docs/spec/01-domain-model.md` calls `last_sync_at` the time of the most
  recent successful run; the code stamps it when the token is new or ends initialisation, however
  the run fared.
- `CycleOutcome.WinnerByObservation`: `docs/spec/03-sync-engine.md` lets the side with the higher modification time
  win a conflict. In the code the remote side carries the time at which the page was read, so the local file
  wins only if its time is more than a second after that.
- `LoserNames.LocalWinsIff`: a local win takes 1001 whole milliseconds, because the difference is
  truncated before it is compared with the tolerance of 1000.

Where the code and its comments disagree, the code is modelled: the scheduler's comment calls it
the single writer of the pair's row, although the cycle moves the cursor itself; the retry comment
gives a ceiling of `BASE * 2^attempt`, the code uses one power less.

## Model

| member | source | states |
|---|---|---|
| CycleEngine.RunCycle | crates/onesync-core/src/engine/cycle.rs:81-210 | One cycle, any port call failing: the writes made are the first `k` of those of its trace, and the store is their result. A summary is returned, with the five counts of the trace and all writes made, exactly if no call failed that the cycle cannot go on without and no new name is invalid |
| CycleEngine.FinishCycle | crates/onesync-core/src/engine/cycle.rs:119-210 | From the scan on: the same for the middle and the ending of the trace |
| CycleEngine.ResolveAndExecute | crates/onesync-core/src/engine/cycle.rs:141-196 | From the promoted decisions on: planned operations, then conflict operations, then collision renames are executed, and the run is recorded last; it succeeds exactly if no call failed and every conflict loser has a valid name |
| CycleEngine.AdvanceCursor | crates/onesync-core/src/engine/cycle.rs:105-117 | The pair's row is written only if it exists and its cursor differs, and then with the page's token |
| CycleEngine.BuildRemoteRenameOps | crates/onesync-core/src/engine/cycle.rs:448-480 | One remote rename per collision rename, in order, flagged as coming from a conflict |
| Cycle.CycleIsLinked | crates/onesync-core/src/engine/cycle.rs:81-210 | Each part of a cycle's writes leads from the store its predecessor left to the one its successor meets, by its own rule: remote sides only, cursor only, base, parking and remote side kept, existing rows with both sides kept |
| Cycle.AfterCut | crates/onesync-core/src/engine/cycle.rs:81-210 | The store after any number of a cycle's writes, as the store at the start of the phase cut into plus a prefix of that phase's writes |
| CycleSafety.CursorCrashSafety | crates/onesync-core/src/engine/cycle.rs:89-117 | After any number of writes the pair's row is untouched or has the page's token; from the end of the delta phase on, and whenever the row has changed, every kept item that is live or tracked is recorded in the remote side of its row |
| CycleSafety.RemoteStays | crates/onesync-core/src/engine/cycle.rs:119-196 | No write after the cursor's changes a remote side or the pair's row |
| CycleSafety.ParkedStaysParked | crates/onesync-core/src/engine/reconcile.rs:63-66 | After any number of a cycle's writes, a path that was parked before and has no surviving tombstone in the page is parked |
| CycleSafety.ParkedGetsNoAction | crates/onesync-core/src/engine/cycle.rs:400-406 | Such a path gets no planned operation and no conflict operation, at most a remote rename of a collision loser |
| CycleSafety.ParkedDecidesNothing | crates/onesync-core/src/engine/reconcile.rs:63-66 | Every decision about such a path is to do nothing |
| CycleRuns.ParkedForever | crates/onesync-core/src/engine/cycle.rs:544-551 | It stays parked over every run of cycles, each cut anywhere, and of pair updates between them, as long as no page has such a tombstone |
| CycleRuns.CursorIsBacked | crates/onesync-core/src/engine/cycle.rs:89-117 | Over every run of cycles, each cut anywhere, the stored cursor is the one the run began with or the token of a page that a cycle of the run read and whose items it recorded |
| CycleRuns.RemoteChangesByPage | crates/onesync-core/src/engine/cycle.rs:268-307 | After any number of a cycle's writes, the remote side of a tracked path has changed only if a kept item of the page lies there |
| CycleRuns.RemoteForever | crates/onesync-core/src/engine/cycle.rs:268-307 | A recorded remote side stays over every run whose pages do not speak of the path |
| CycleSafety.BaseMovesOnlyOnSuccess | crates/onesync-core/src/engine/cycle.rs:1318-1372 | After any number of writes the merge base of a path is the one of before, or an operation there, not a conflict rename, succeeded and made it the local side (upload), the remote side (download), a directory or nothing |
| CycleSafety.BaseAtTheEnd | crates/onesync-core/src/engine/cycle.rs:1251-1255 | With distinct scan paths, the exact merge base at the end for the path of each operation: the new one if it succeeded and its row was updated, the old one otherwise |
| CycleSafety.OutcomeIsHonest | crates/onesync-core/src/engine/cycle.rs:1185-1196 | Applied and failed add up to the number of operations, the last write records the run, and it is a success exactly when every operation succeeded |
| CycleSafety.RemoteMkdirSpoilsTheRun | crates/onesync-core/src/engine/executor.rs:180-189 | A cycle that plans a remote directory ends as a partial failure |
| CycleSafety.NamelessTransferSpoilsTheRun | crates/onesync-core/src/engine/executor.rs:117-178 | A planned transfer asks for the item with the empty id, and if the drive turns that down the cycle ends as a partial failure |
| CycleOps.PlannedNamesNoItem | crates/onesync-core/src/engine/planner.rs:66-90 | Among the operations of a cycle exactly the downloads of conflict winners and the renames of collision losers name their item |
| CycleOps.ScanPlansIff | crates/onesync-core/src/engine/cycle.rs:386-427 | At a path that the page decided nothing about, an upload or a remote directory is planned exactly if a scanned entry there calls for it, going by the row from before the cycle |
| CycleOps.ScannedEntryIff | crates/onesync-core/src/engine/cycle.rs:386-427 | A scanned file or directory that the page is silent about is planned for upload, or to be made on the drive, exactly if its path has no rival and is not blocked and nothing proves that it is its base |
| CycleOps.CaseLoserIsMovedIff | crates/onesync-core/src/engine/cycle.rs:388-393 | A scanned file is renamed away exactly if the page decided nothing about its path and has a live item at another path that folds alike |
| CycleOps.ReachesIff | crates/onesync-core/src/engine/cycle.rs:731-763 | A cycle gets to its execution unless a file that must be renamed away, for its case or as a conflict loser, has no valid new name |
| CycleOps.ScannedFileIsUploadedIff | crates/onesync-core/src/engine/cycle.rs:394-426 | A scanned file without a hash that the page is silent about is planned for upload exactly if it has no rival, is not blocked, and it and its base are not both empty |
| CycleOps.UndecidedIff | crates/onesync-core/src/engine/cycle.rs:371-427 | The decisions at such a path, after promotion, are exactly those the scan calls for |
| CycleOps.NoOverwriteWithoutRename | crates/onesync-core/src/engine/cycle.rs:664-717 | In the final list, a download onto a scanned path is not planner-made and comes right behind the rename of that path to its loser name |
| CycleOps.NoDownloadOntoScanned | crates/onesync-core/src/engine/cycle.rs:485-515 | After promotion no download decision at a scanned path is left |
| CycleOps.ScannedDownloadIsAConflict | crates/onesync-core/src/engine/cycle.rs:371-383 | Whatever made the page decide to download over a file that the scan still lists, the decision ends up as a conflict |
| CycleOps.OneActionPerPath | crates/onesync-core/src/engine/cycle.rs:120-152 | With distinct scan paths, two planned or conflict operations at one path are a conflict rename and the download right behind it |
| CycleOps.ConflictsAreConserved | crates/onesync-core/src/engine/cycle.rs:309-315 | The reported conflicts are the conflict rows inserted plus the conflict decisions whose row lacks a side |
| CycleOps.CountsFollow | crates/onesync-core/src/engine/cycle.rs:120-142 | The conflict table grows by the case conflicts recorded plus the content conflicts inserted |
| CycleOps.DirectoriesComeFirst | crates/onesync-core/src/engine/planner.rs:28-64 | If the scan lists level by level, a remote directory it asks for is planned before every operation it asks for beneath it |
| CycleOps.DeletedIff | crates/onesync-core/src/engine/reconcile.rs:56 | A local delete is among the operations at a path exactly if the path is tracked and has a surviving tombstone in the page |
| CycleOps.PlannedSource | crates/onesync-core/src/engine/planner.rs:39-58 | Every planned operation carries out a decision that is not a conflict |
| CycleOps.DecidedIsPlanned | crates/onesync-core/src/engine/planner.rs:39-58 | Every actionable decision that is not a conflict is planned |
| CycleOps.DownloadsAreLive | crates/onesync-core/src/engine/cycle.rs:287-307 | The page decides to download only where it has a live file |
| CycleOps.ScanDecides | crates/onesync-core/src/engine/cycle.rs:371-427 | The scan decides only on uploads and directories, at scanned paths the page did not decide about and that are not parked |
| CycleOutcome.UploadSettles | crates/onesync-core/src/engine/cycle.rs:408-424 | After an upload the scan asked for succeeded, its row is clean and its base and local side are what the scan saw |
| CycleOutcome.DownloadSettles | crates/onesync-core/src/engine/cycle.rs:1342-1366 | After a download succeeded, its row is clean and its base and remote side are what the page said of a live item there |
| CycleOutcome.TakenIsSettled | crates/onesync-core/src/engine/cycle.rs:1318-1372 | The whole row at the end for an operation that succeeded and was written back |
| CycleOutcome.TakenMovesBase | crates/onesync-core/src/engine/cycle.rs:1342-1366 | After an operation that took, the base is the local side for an upload, the remote side for a download, a directory for a directory made and nothing for a delete |
| CycleOutcome.NextPageAfterFirstDownload | crates/onesync-core/src/engine/reconcile.rs:63-110 | After a settled first download a page that lists the file again yields a conflict if it changed and an upload otherwise |
| CycleOutcome.ConflictIsOnRecord | crates/onesync-core/src/engine/cycle.rs:562-656 | Every conflict decision whose row has both sides gets a conflict row with these sides and a parked path, and a remote winner its operations |
| CycleOutcome.RenameIsOnRecord | crates/onesync-core/src/engine/cycle.rs:664-717 | Every rename of a conflict loser belongs to a conflict row won by the remote side, with the same new name |
| CycleOutcome.WinnerIsTheItem | crates/onesync-core/src/engine/cycle.rs:692-716 | The download of a conflict winner asks for the item that the page lists at its path |
| CycleOutcome.WinnerByObservation | crates/onesync-core/src/engine/cycle.rs:1077-1097 | In a content conflict the local side wins exactly if it is at least 1001 ms newer than the moment the page was read |
| FirstSight.NewItemIff | crates/onesync-core/src/engine/reconcile.rs:41-56 | About an item without a row that is neither dropped nor skipped for its case: a local directory is made exactly for a folder, a download is planned exactly for a file that is not scanned, and a scanned file gets a conflict on record |
| FirstSight.RemoteRenameIff | crates/onesync-core/src/engine/cycle.rs:945-999 | A path is renamed on the drive exactly if the page drops it, or skips an item there, for its case, and its target is a valid path |
| FirstSight.RemoteRenameLeadsTo | crates/onesync-core/src/engine/cycle.rs:926-940 | Such a rename asks for an item that the page lists at the path, and leads, within its directory, to the valid target of the path, which no longer collides with it under a character-wise fold |
| FirstSight.RemoteRenamesPart | crates/onesync-core/src/engine/cycle.rs:945-999 | Two such renames lead to different paths, so in one directory they have different new names |
| NextCycle.QuietIff | crates/onesync-core/src/engine/cycle.rs:81-210 | With an empty page, a cycle has no operation exactly if no scanned entry needs an upload over its row |
| NextCycle.UploadIsRepeatedIff | crates/onesync-core/src/engine/cycle.rs:1148-1170 | After a file was uploaded, the next cycle that scans it, with no word from the drive, plans the upload again exactly if it has no rival and is not empty both times |
| NextCycle.FirstDownloadLeaves | crates/onesync-core/src/engine/cycle.rs:1342-1366 | After a first download to a path that was not scanned, the row has no local side and the downloaded side for its base |
| NextCycle.ListedAgain | crates/onesync-core/src/engine/reconcile.rs:63-110 | A cycle over such a row whose page lists the file: unchanged, the file is uploaded; changed, there is a conflict, on record if the file is scanned and without any operation otherwise |
| NextCycle.AfterFirstDownload | crates/onesync-core/src/engine/cycle.rs:81-210 | The two cycles together: what any cycle after a first download does when the drive lists the file again |
| LocalDisk.PeacefulFileStays | crates/onesync-core/src/engine/cycle.rs:731-831 | At every moment of a cycle, a scanned file without a conflict group and without a tombstone is intact where renames have taken it; this includes the losers of case collisions |
| LocalDisk.GroupOutcome | crates/onesync-core/src/engine/cycle.rs:1206-1307 | At every moment of a cycle, the file of a conflict group is intact, unless an attempt of the download behind the rename has replaced it while it was still at its path; then what was downloaded is there |
| LocalDisk.ContentSurvivesIff | crates/onesync-fs-local/src/write.rs:26-67 | At every moment, that file is intact exactly if its rename took place or left a whole copy, or a renamed directory had taken it along, or no attempt of the download has replaced it, or what it brought is the same content; whether the operations count as successes does not matter |
| LocalDisk.LoserIsAt | crates/onesync-core/src/engine/cycle.rs:731-831 | A loser of either kind, in directories that stay, is at its path until its rename and at its new name from then on |
| LocalDisk.NamesAreUnrelated | crates/onesync-core/src/engine/conflict.rs:71-99 | The new names of one cycle neither equal nor contain each other, given that they are free |
| LocalDisk.HitIsOverwrite | crates/onesync-core/src/engine/cycle.rs:664-717 | Whatever writes to or removes a scanned file, wherever it is by then, is the download of the conflict group at its path |
| LocalDisk.SuccessTakesEffect | crates/onesync-fs-local/src/ops.rs:15-43 | A download, rename or delete that counts as a success has taken place, where a delete may find nothing |
| LocalDisk.ActionEffect | crates/onesync-fs-local/src/ops.rs:15-43 | What an operation that took place leaves on the disk: the new content, nothing, or the file at its new name; everything else is as it was |
| DiskActions.Follow | crates/onesync-fs-local/src/ops.rs:15-43 | What is at a place stays there, through renames of files and of directories above it, until something writes to or removes the place |
| Example.ConflictsOccur | crates/onesync-core/src/engine/cycle.rs:81-210 | A concrete cycle, with one remote file over one scanned file, that meets the settings of the statements about conflict groups |
| Example.ContentIsLost | crates/onesync-fs-local/src/write.rs:53-66 | In that cycle, with the rename refused and the download reporting an error after it has replaced the file, both operations count as failed and the local content is nowhere any more |
| Scheduler.PersistPostCycle | crates/onesync-daemon/src/scheduler.rs:460-495 | The bookkeeping write, made from the row as read before the cycle; a failing write changes nothing |
| Scheduler.BookkeepingKeepsCursor | crates/onesync-daemon/src/scheduler.rs:467-492 | That write leaves the cursor the cycle stored, the page's token, also when it is none |
| Scheduler.StampedIff | crates/onesync-daemon/src/scheduler.rs:470-492 | The sync time is stamped exactly when the token is new or ends initialisation; initialisation turns into active and every other status stays |
| Scheduler.RunTurn | crates/onesync-daemon/src/scheduler.rs:397-431 | A whole turn, failing anywhere: a cursor that moved is the page's token and all that the page must record is recorded. It succeeds exactly if the pair's row was read and the cycle returned a summary, and then the store is that after all writes of the cycle with the books kept, unless that write failed |
| DeltaEngine.PhaseDeltaReconcile | crates/onesync-core/src/engine/cycle.rs:228-326 | The delta phase refines its fold: writes are a prefix of the fold's, and a success returns its decisions, counts, renames and live items |
| DeltaEngine.ReconcileItem | crates/onesync-core/src/engine/cycle.rs:255-318 | One item of the page refines one step of the fold |
| DeltaEngine.StoreAndDecide | crates/onesync-core/src/engine/cycle.rs:279-318 | An item that is neither dropped nor skipped: observation stored, decision appended |
| DeltaEngine.SkipForCaseCollision | crates/onesync-core/src/engine/cycle.rs:887-939 | A live untracked item is skipped exactly if a stored path differs from it only in ASCII case, and then asks for a rename |
| DeltaEngine.ProcessRemoteCaseCollisions | crates/onesync-core/src/engine/cycle.rs:945-991 | One rename per dropped path that has a valid new name, of the first item there, whatever order the map is walked in |
| DeltaEngine.FindFirst | crates/onesync-core/src/engine/cycle.rs:982-985 | The first item of the page at a path |
| DeltaEngine.RenameIgnoresOrderIff | crates/onesync-core/src/engine/cycle.rs:945-991 | Every order of a page makes a given rename exactly if all items at its path are the renamed drive item |
| DeltaEngine.RenameIgnoresOrder | crates/onesync-core/src/engine/cycle.rs:945-991 | If they all are, the rename is made whatever the order |
| DeltaEngine.RenameDependsOnOrder | crates/onesync-core/src/engine/cycle.rs:982-988 | If another item lies there, the page with that item in front has renames, and none of its lists of renames has this one |
| DeltaPhase.DeltaIgnoresOrder | crates/onesync-core/src/engine/cycle.rs:255-326 | At one moment, permuting a page changes neither the stored rows, nor the collision map, nor the live items, nor the conflict count, and only permutes decisions and renames |
| DeltaPhase.WalkSummary | crates/onesync-core/src/engine/cycle.rs:255-318 | Although rows are written on the way, every item is treated as if the store were the one before the page |
| DeltaPhase.WalkIsLegal | crates/onesync-core/src/engine/cycle.rs:848-879 | The page's writes change only the remote side of tracked rows, or add rows that know nothing but a remote side |
| DeltaPhase.WalkTouches | crates/onesync-core/src/engine/cycle.rs:255-307 | The page writes only rows of paths that its kept items lie at |
| Types.ItemPathNests | crates/onesync-core/src/engine/cycle.rs:1057-1075 | An item in a folder of the drive lies at the folder's path plus its name, an item in the root at its name |
| Types.ItemPathElse | crates/onesync-core/src/engine/cycle.rs:1057-1075 | An item without a parent path lies in the root, and a parent path without a colon is the folder itself |
| DeltaPhase.NextSeesOriginal | crates/onesync-core/src/engine/cycle.rs:268-285 | The next item finds its path, and its case twins, as they were before the page |
| DeltaPhase.SurvivorsAreDistinct | crates/onesync-core/src/engine/cycle.rs:255-266 | Surviving items differ under the fold |
| Collisions.DetectRemoteCaseCollisions | crates/onesync-core/src/engine/cycle.rs:1005-1035 | The bucket-and-sort algorithm computes the collision map |
| Collisions.FillBuckets | crates/onesync-core/src/engine/cycle.rs:1008-1020 | Each bucket holds the page's paths of one fold class, in order |
| Collisions.DropLosers | crates/onesync-core/src/engine/cycle.rs:1021-1034 | All but the first of a sorted bucket are mapped to the first |
| Collisions.KeptIff | crates/onesync-core/src/engine/cycle.rs:1005-1035 | A path is kept exactly if it is the byte-wise least of its fold class and occurs once |
| Paths.BeforeIff | crates/onesync-core/src/engine/cycle.rs:1028 | The order of paths is that of the first byte in which they differ, shorter prefixes first |
| Paths.SameLowerIff | crates/onesync-core/src/engine/cycle.rs:887-912 | Two texts agree for the store's lookup exactly if they differ at most in the case of ASCII letters |
| Paths.HasParentIff | crates/onesync-protocol/src/path.rs:74-93 | The validity check refuses exactly the paths with a component `..` among those it would take otherwise |
| Paths.ValidRelIff | crates/onesync-protocol/src/path.rs:74-107 | A relative path is valid exactly if it has 1 to 1024 bytes, no leading slash, no NUL and no component `..` |
| Paths.JoinsIff | crates/onesync-core/src/engine/executor.rs:241-248 | When a relative path can be used below a root |
| Collisions.KeptAreDistinct | crates/onesync-core/src/engine/cycle.rs:1005-1035 | Kept paths are pairwise distinct under the fold |
| Collisions.CollisionMapIgnoresOrder | crates/onesync-core/src/engine/cycle.rs:1005-1035 | The collision map does not depend on arrival order |
| Reconcile.MergeIsSound | crates/onesync-core/src/engine/reconcile.rs:63-226 | For every row that is not blocked, the merge is right in every plausible assignment of contents exactly if the row is trusted: a local side that passes for the base is the base or there is evidence that it equals it. Right means that doing nothing needs both sides to agree, downloads and local directories need the local side to be the base, uploads and remote directories the remote side |
| Reconcile.BlockedIsLeftAlone | crates/onesync-core/src/engine/reconcile.rs:63-66 | A row whose operation is under way, or that is parked, is left alone |
| Reconcile.SameItemIsNews | crates/onesync-core/src/engine/reconcile.rs:184-217 | An item that is listed again unchanged passes for its recorded side, unless it lacks an etag and is not empty |
| Reconcile.ChangedItemIsNews | crates/onesync-core/src/engine/reconcile.rs:184-217 | Exactly when a later item at a path does not pass for the recorded side of an earlier one |
| Reconcile.ScannedPassesForDownloaded | crates/onesync-core/src/engine/reconcile.rs:219-237 | A file scanned without a hash passes for a downloaded one exactly if it has its length |
| Reconcile.SameContentIffEvidence | crates/onesync-protocol/src/file_side.rs:33-44 | Two different records called the same have the same content in every plausible assignment exactly if there is evidence |
| Reconcile.HashlessEditIsDownloadedOver | crates/onesync-protocol/src/file_side.rs:33-44 | The concrete row that is not trusted: an edit of equal length over a hashless base, which the merge decides to download over |
| LocalPhase.PhaseLocalUploads | crates/onesync-core/src/engine/cycle.rs:351-434 | The local phase refines its fold |
| LocalPhase.VisitPath | crates/onesync-core/src/engine/cycle.rs:367-427 | One scanned path: overlap, case rival or upload offer |
| LocalPhase.HandleCaseCollision | crates/onesync-core/src/engine/cycle.rs:731-831 | The local loser gets a conflict row and, if it has a row, is parked without a local side; an invalid name stops the phase before any write |
| LocalPhase.MoveAwayFrom | crates/onesync-core/src/engine/cycle.rs:388-392 | The collision with the one live rival |
| LocalPhase.OfferUploadFor | crates/onesync-core/src/engine/cycle.rs:394-426 | An upload row and decision for an untracked path, or for an unblocked path that diverges from its base |
| LocalPhase.LocalWalkIsGentle | crates/onesync-core/src/engine/cycle.rs:351-434 | The phase moves no merge base, releases no parked path, changes no remote side of a row and not the pair's row; the conflict table grows by the collisions recorded |
| LocalPhase.LocalWalkFacts | crates/onesync-core/src/engine/cycle.rs:367-427 | What is decided and which overlaps are collected, with distinctness and depth order inherited from the scan |
| LocalPhase.LocalWalkStores | crates/onesync-core/src/engine/cycle.rs:408-418 | Rows of decided uploads show what the scan saw; each file renamed away has its conflict row, against the live rival, and a parked row |
| LocalPhase.UndivergedMeansSame | crates/onesync-core/src/engine/cycle.rs:1148-1170 | No local edit is missed: a side that does not diverge has the content of its base in every plausible assignment |
| LocalPhase.HashlessDivergesIff | crates/onesync-core/src/engine/cycle.rs:1148-1170 | A file scanned without a hash diverges from every base, unless both are empty files |
| LocalPhase.DivergesIff | crates/onesync-core/src/engine/cycle.rs:1148-1170 | A side passes for a base exactly if the kinds agree and there is evidence other than an etag that it is the base |
| LocalPhase.LocalWalkAnswers | crates/onesync-core/src/engine/cycle.rs:367-427 | Whatever it has stored on the way, the walk decides at undecided paths exactly what the scan and the rows before it call for |
| LocalPhase.LocalWalkMovesThose | crates/onesync-core/src/engine/cycle.rs:386-393 | The files renamed away are those scanned at undecided paths that have a rival |
| LocalPhase.LocalWalkFailsIff | crates/onesync-core/src/engine/cycle.rs:731-758 | The walk fails exactly when such a file has no valid new name or absolute path |
| LocalPhase.LocalWalkSees | crates/onesync-core/src/engine/cycle.rs:367-385 | The local events counted are the entries at valid paths that the page decided nothing about |
| LocalPhase.LocalWalkMoves | crates/onesync-core/src/engine/cycle.rs:388-392 | Files renamed away lie where the page decided nothing, and none is renamed twice |
| ConflictPhase.ApplyInitialSyncCollisions | crates/onesync-core/src/engine/cycle.rs:485-515 | Promotion refines its fold |
| ConflictPhase.AttachOverlap | crates/onesync-core/src/engine/cycle.rs:491-513 | One overlap: the first download decision there becomes a conflict, and the row gets the local side |
| ConflictPhase.OverlapWalkFacts | crates/onesync-core/src/engine/cycle.rs:485-515 | Only downloads are promoted, each counted, and none is left at an overlap |
| ConflictPhase.OverlapWalkAttaches | crates/onesync-core/src/engine/cycle.rs:498-513 | Tracked rows get the scanned local side and nothing else changes |
| ConflictPhase.OverlapWalkIsGentle | crates/onesync-core/src/engine/cycle.rs:485-515 | No merge base, parked path, remote side or pair row is changed |
| ResolvePhase.PhaseResolveConflicts | crates/onesync-core/src/engine/cycle.rs:534-551 | Draining the list in place refines the fold over it |
| ResolvePhase.RecordContentConflict | crates/onesync-core/src/engine/cycle.rs:562-656 | One conflict: nothing without both sides, otherwise a row, a parked path and the winner's operations |
| ResolvePhase.PushRemoteWinnerOps | crates/onesync-core/src/engine/cycle.rs:664-717 | The rename of the loser, and the download of the winner if its id is known |
| ResolvePhase.ResolveWalkFacts | crates/onesync-core/src/engine/cycle.rs:534-551 | The kept decisions are those that are no conflicts, in order; operations come in groups of a rename and at most one download behind it |
| ResolvePhase.ResolveRecords | crates/onesync-core/src/engine/cycle.rs:580-656 | Conflict rows show the stored sides and the winner by time; operations and rows correspond one to another; exactly the conflict paths with both sides are parked |
| ResolvePhase.ResolveFailsIff | crates/onesync-core/src/engine/cycle.rs:562-610 | Resolving fails exactly when a conflict with both sides at hand has no valid name for its loser |
| ResolvePhase.DroppedLackASide | crates/onesync-core/src/engine/cycle.rs:571-586 | What is dropped are the conflict decisions whose row lacks a side |
| ResolvePhase.ResolveWalkIsGentle | crates/onesync-core/src/engine/cycle.rs:534-656 | No merge base, remote side or pair row is changed and no parked path released |
| LoserNames.LocalWinsIff | crates/onesync-core/src/engine/conflict.rs:30-51 | The local side wins exactly if it is newer by at least 1001 whole milliseconds |
| LoserNames.WithMarkerInserts | crates/onesync-core/src/engine/conflict.rs:71-99 | The loser's name is the original with the marker put before the extension |
| LoserNames.LoserTextIs | crates/onesync-core/src/engine/conflict.rs:71-99 | The loser's name spelled out: time, host and retry number go before the extension |
| LoserNames.LoserPathInjective | crates/onesync-core/src/engine/conflict.rs:71-99 | For one host and attempt, loser names are as distinct as the paths, also across times whose texts have one length and the same separators |
| LoserNames.LoserKeepsDirectory | crates/onesync-core/src/engine/conflict.rs:78-97 | The loser lies in the directory of the original |
| LoserNames.LoserPathInjectiveInAttempt | crates/onesync-core/src/engine/conflict.rs:71-99 | For one path, different attempts give different names |
| LoserNames.LoserNamesClashIff | crates/onesync-core/src/engine/conflict.rs:71-99 | Exactly when two loser names of one host and time are the same: same path and attempt, or one path has no extension, the other is that path with the retry suffix for an extension, and the latter is at its first attempt |
| LoserNames.LoserPathNotJointlyInjective | crates/onesync-core/src/engine/conflict.rs:71-99 | The concrete clash: a retry for `a` takes the name of the first attempt for `a.1` |
| CaseRename.TargetInjective | crates/onesync-core/src/engine/case_collision.rs:36-48 | Rename targets of different paths differ, for hash texts of one length without dots |
| CaseRename.TargetIs | crates/onesync-core/src/engine/case_collision.rs:36-48 | The target spelled out: the reason and the short hash go before the extension |
| CaseRename.TargetKeepsDirectory | crates/onesync-core/src/engine/case_collision.rs:36-48 | The target lies in the directory of the original |
| CaseRename.TargetLeavesClass | crates/onesync-core/src/engine/case_collision.rs:36-48 | Under a character-wise fold the target leaves its collision class |
| Planner.Plan | crates/onesync-core/src/engine/planner.rs:28-64 | The three-list loop computes the stable sort of the actionable decisions by directory, other, delete |
| Planner.StableSortIsUnique | crates/onesync-core/src/engine/planner.rs:28-64 | There is only one such sort |
| Planner.PlannedIsPermutation | crates/onesync-core/src/engine/planner.rs:28-64 | The plan holds an operation for each actionable decision and no other |
| Planner.MkdirsKeepOrder | crates/onesync-core/src/engine/planner.rs:50-63 | Planned directories keep the order of their decisions |
| Planner.PlanOrder | crates/onesync-core/src/engine/planner.rs:28-64 | Directories are made before all other operations, and deletions come last |
| Retry.DelayIsBelow | crates/onesync-core/src/engine/retry.rs:43-52 | Full jitter stays below the ceiling, whatever the random source returns |
| Retry.WaitIsAtMost | crates/onesync-core/src/engine/retry.rs:30-52 | The wait before an attempt is at most its worst case |
| Retry.WaitIsReached | crates/onesync-core/src/engine/retry.rs:30-52 | The worst wait is reached when the random source returns its most |
| Retry.WaitIs | crates/onesync-core/src/engine/retry.rs:30-52 | Each wait is the share of 1, 2, 4 or 8 seconds that the random source names, in whole milliseconds |
| ExecutePhase.RunOp | crates/onesync-core/src/engine/cycle.rs:1221-1307 | The retry loop executes and sleeps as the recursion over attempts says |
| ExecutePhase.OperationIsBounded | crates/onesync-core/src/engine/retry.rs:30-52 | An operation is executed at most five times and backs off for at most 14,996 ms in all |
| ExecutePhase.BoundsAreReached | crates/onesync-core/src/engine/retry.rs:30-52 | Both bounds are reached when every attempt fails retriably and the jitter is at its most |
| ExecutePhase.SucceedsIff | crates/onesync-core/src/engine/executor.rs:42-53 | An operation succeeds exactly if some attempt in the budget does, after retriable errors only |
| ExecutePhase.RetriesIff | crates/onesync-core/src/engine/cycle.rs:1221-1307 | An operation is tried again exactly after races, I/O errors, throttling and transient or network errors; how often it is executed, whether it succeeds and how long it waits in all follow |
| ExecutePhase.SecondChanceIff | crates/onesync-core/src/engine/executor.rs:42-53 | If the first attempt fails and the second would succeed, the operation succeeds with two executions if the first error is one of these, and fails with one execution otherwise |
| ExecutePhase.ExecutionErrorIs | crates/onesync-core/src/engine/executor.rs:91-248 | Which error an execution reports: that of incomplete metadata, of an invalid path or of the first failing call, in the order of the calls |
| ExecutePhase.LastDecides | crates/onesync-core/src/engine/cycle.rs:1221-1307 | An operation succeeds exactly if its last attempt does, and that is the attempt its count of executions ends with |
| ExecutePhase.ExecutionSucceedsIff | crates/onesync-core/src/engine/executor.rs:74-248 | One execution succeeds exactly if its local paths are valid, its metadata are complete and the sides it works on answer well, where a delete may find nothing |
| ExecutePhase.TurnedDownFails | crates/onesync-core/src/engine/executor.rs:117-178 | A transfer that the drive turns down in every attempt does not succeed |
| ExecutePhase.PlannedRemoteMkdirFails | crates/onesync-core/src/engine/executor.rs:180-189 | A planned remote directory fails in its first execution |
| ExecutePhase.PhaseExecute | crates/onesync-core/src/engine/cycle.rs:1199-1310 | Every operation is tried in order, whatever fails; applied and failed add up to their number |
| ExecutePhase.UpdateFileEntryPostOp | crates/onesync-core/src/engine/cycle.rs:1318-1372 | What a success does to the row: nothing for conflict renames, missing rows and store errors |
| ExecutePhase.ExecWalkFacts | crates/onesync-core/src/engine/cycle.rs:1199-1310 | Applied and failed add up; execution adds no row and keeps both sides of all rows, the pair's row and the conflict table |
| ExecutePhase.ExecBase | crates/onesync-core/src/engine/cycle.rs:1318-1372 | A merge base that execution changed was made by some successful operation there |
| ExecutePhase.UntouchedRow | crates/onesync-core/src/engine/cycle.rs:1328-1336 | Rows change only at paths of operations that are not conflict renames |
| ExecutePhase.SettledRow | crates/onesync-core/src/engine/cycle.rs:1318-1372 | The row at the end of a path with one operation that can settle it |
| ExecutePhase.NothingFailedIff | crates/onesync-core/src/engine/cycle.rs:1185-1196 | Nothing failed exactly if every operation succeeded |
| Scan.ScanWithSkips | crates/onesync-fs-local/src/scan.rs:72-126 | The breadth-first walk lists exactly what depth-first enumeration reaches, level by level with directories before their content; it fails with an I/O error exactly if a read failed, and otherwise only if there are more directories than the queue holds |
| Scan.SkippedIff | crates/onesync-fs-local/src/scan.rs:40-56 | Links are passed over, and so are names that are no text, begin with `._` or are one of the three reserved ones; nothing else is |
| Scan.ListDirectory | crates/onesync-fs-local/src/scan.rs:82-122 | One directory: nothing reachable is lost or listed twice |
| Scan.ReachIsDistinct | crates/onesync-fs-local/src/scan.rs:72-126 | In a tree with distinct sibling names no path is enumerated twice |
| Scan.ParentIsListed | crates/onesync-fs-local/src/scan.rs:100-111 | The directory around every listed node below the first level is listed |
| Scan.AccountForEntry | crates/onesync-fs-local/src/scan.rs:84-122 | Handling an entry moves its own find over and leaves what is below it to the queue |
| Scan.OverflowMeansManyDirectories | crates/onesync-fs-local/src/scan.rs:101-109 | A full queue shows that the tree has more directories than the bound |
| LocalScan.ScanRoot | crates/onesync-fs-local/src/adapter.rs:36-65 | The engine gets each path once, level by level, and exactly the listed nodes with a valid path, with their kind, size and time and without a hash; it fails with an I/O error exactly if a read failed |
| LocalScan.EngineSeesOrder | crates/onesync-core/src/engine/cycle.rs:1118-1125 | Distinct and level-ordered paths stay so as relative path text |
| LocalScan.RelOfAbs | crates/onesync-core/src/engine/cycle.rs:1118-1125 | Stripping the root gives back the names joined by slashes |
| LocalScan.JoinIsInjective | crates/onesync-fs-local/src/adapter.rs:44-59 | Different paths have different texts |
| Upload.UploadSession | crates/onesync-graph/src/upload/session.rs:72-227 | Against any server: every request carries the bytes its header names and begins where the last acknowledgement ended or where the server said to resume, at most (retries + 1) * n are sent, and the result is the one that the last answer stands for. Against an honest one: a success means that it holds the announced bytes, and at most as many lost suffixes as there are retries cannot prevent it |
| Upload.FindChunkIndex | crates/onesync-graph/src/upload/session.rs:243-253 | The chunk that contains an offset and where it begins |
| Upload.RangeRoundTrip | crates/onesync-graph/src/upload/session.rs:229-233 | Parsing the range an honest server announces gives its length back |
| Upload.BareRangeRoundTrip | crates/onesync-graph/src/upload/session.rs:229-232 | So is an offset without a dash behind it |
| Upload.NextPut | crates/onesync-graph/src/upload/session.rs:123-160 | The next request frames its body, and where its acknowledgement leaves the client |
| Upload.HonestExchange | crates/onesync-graph/src/upload/session.rs:161-221 | What each answer of an honest server says about what it holds |
| Upload.SendPut | crates/onesync-graph/src/upload/session.rs:140-160 | One request, against any server |
| Upload.ResumePoint | crates/onesync-graph/src/upload/session.rs:165-205 | Where a re-query says to resume, or the error that its answer stands for |
| Upload.AfterPut | crates/onesync-graph/src/upload/session.rs:140-221 | What each answer to an upload makes of a session: where it goes on, or what its result is |
| Upload.AfterGet | crates/onesync-graph/src/upload/session.rs:176-205 | The same for the answers to a re-query |
| Decimal.ParseIsGuarded | crates/onesync-graph/src/upload/session.rs:229-232 | A printed offset is read back if it fits 64 bits, also behind a plus sign, and is refused otherwise |
| Decimal.ParsedIsDigits | crates/onesync-graph/src/upload/session.rs:229-232 | Only digits are read, but for a leading plus sign |
| Throttle.PauseRefinesAtomicMax | crates/onesync-graph/src/throttle.rs:81-100 | Every interleaving of pauses and clears is a run of an atomic maximum that only clears expired deadlines |
| Throttle.StepRefines | crates/onesync-graph/src/throttle.rs:81-126 | Each atomic step is one step of that specification or none |
| Throttle.DeadlineDropsOnlyWhenExpired | crates/onesync-graph/src/throttle.rs:104-126 | The deadline drops only to zero, and only after it has expired |
| Throttle.PauseIsRespected | crates/onesync-graph/src/throttle.rs:81-126 | Once a pause until t has returned, no acquire that starts later leaves the pause loop before t |
| Throttle.GrantFollowsPauseLoop | crates/onesync-graph/src/throttle.rs:127-133 | A permit is taken only after the pause loop was left |
| Throttle.PermitsAreConserved | crates/onesync-graph/src/throttle.rs:42-61 | Permits and grants add up to burst and refills, and permits never exceed the burst |
| Throttle.EveryShortTickRefills | crates/onesync-graph/src/throttle.rs:50-60 | Over every run, refills, with one under way, are exactly the ticks that met fewer permits than the burst |
| Throttle.RefillServes | crates/onesync-graph/src/throttle.rs:50-60 | From every reachable state without a refill under way, one tick gets a waiting call its permit |
| Throttle.PauseEnds | crates/onesync-graph/src/throttle.rs:104-126 | From every reachable state in which the clock has reached the deadline, a call in the pause loop, run by itself, leaves it |
| Throttle.NewCallPasses | crates/onesync-graph/src/throttle.rs:104-126 | From every such state a new call gets past the pause loop |
| Throttle.SleepsUntilDeadline | crates/onesync-graph/src/throttle.rs:110-125 | A call that reads the clock before the deadline it has loaded makes no step until the clock shows that deadline, whatever other calls do |
| Throttle.PauseReturns | crates/onesync-graph/src/throttle.rs:81-100 | From every state, a new pause call, run by itself, returns, and the deadline is the later of the two |
| Throttle.PauseFinishes | crates/onesync-graph/src/throttle.rs:88-100 | A pause call on its way, run by itself, returns as well, with its deadline in force |
| Throttle.GrantsInIntervalAreBounded | crates/onesync-graph/src/throttle.rs:42-61 | In every interval of every run grants are at most the burst plus the refills in it |
| QuickXor.QuickXorHasher.Update | crates/onesync-graph/src/download.rs:171-189 | After any updates, state bit j is the exclusive or of the input bits k of bytes i with (11 i + k) mod 160 = j |
| QuickXor.QuickXorHasher.AbsorbByte | crates/onesync-graph/src/download.rs:173-186 | One byte, spread in place over two neighbouring state bytes |
| QuickXor.QuickXorHasher.Finalize | crates/onesync-graph/src/download.rs:192-199 | The digest of all that was fed |
| QuickXor.LengthBytesAreLength | crates/onesync-graph/src/download.rs:192-199 | The bytes mixed in at the end are the length, little-endian |
| QuickXor.AbsorbFlips | crates/onesync-graph/src/download.rs:173-186 | The in-place step flips exactly the state bits that the byte's bits land on |
| QuickXor.AbsorbExtends | crates/onesync-graph/src/download.rs:171-189 | It takes the state of an input to the state of the input with one more byte |
| QuickXor.DigestIsUnique | crates/onesync-graph/src/download.rs:171-199 | One input has one digest, however it was cut into updates |
| Download.DownloadFromUrl | crates/onesync-graph/src/download.rs:40-111 | Re-blocking changes neither the bytes, which are the received chunks in order, nor the digest that is checked |

## Left out

- Transport, authentication, the SQL of the store, IPC, the command line, logging and audit events: no
  behaviour the engine's decisions depend on.
- Operation rows and their status updates: only whether inserting one fails matters, and that is a
  parameter.
- Ids of pairs, runs, operations and conflicts: one pair is modelled and ids are never compared.
- Unicode: paths are taken to be in NFC, the case fold and the short hash are parameters.
- BLAKE3 and SHA-1 inside the download check: abstract streaming hashes.
- Floating point in the jitter: a real number, rounded down.
- Concurrency inside one cycle: the engine awaits its calls one after another. Two cycles of one pair
  at a time, or another writer of the pair's row, are not modelled.
- Following `next_link`: the engine reads one page per cycle, and a page without a token resets the
  stored cursor to none.
- Uploading the content of files above the small-file limit: the executor opens a session and sends
  no bytes, so nothing is said about remote content after an upload operation.
- Creating an upload session: the loop starts from its address.
- Upload.UploadSession: liveness asks for non-empty chunks, because an empty one breaks the arithmetic
  of the range header.
- Weak memory order in the throttle: its steps are atomic and interleave.
- LocalDisk.ContentSurvivesIff: asks for new names that are free on the disk and among the paths of the
  cycle, for no name given both to a conflict loser and to a case-collision loser, and for times and
  hashes printed at one length without separators, as the code prints them.
- LocalDisk.GroupOutcome: a copy across volumes that is cut short, which leaves something at the free
  new name and the file where it was, is modelled as leaving nothing.
- LocalDisk.PeacefulFileStays: different paths are taken to be different files. On a volume that ignores case,
  or below a symbolic link, a deletion or a download at another spelling of a path can hit the file.
- CycleOps.OneActionPerPath: asks for distinct scan paths, which `LocalScan.ScanRoot` guarantees.
- DeltaPhase.DeltaIgnoresOrder: compares walks at one fixed moment, with the same renames from
  collision losers; `DeltaEngine.RenameIgnoresOrderIff` says when those agree.
- Pausing, resuming and removing pairs, retention and the scheduler's loop: single updates.
