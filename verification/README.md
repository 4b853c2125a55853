# Verification of ast-mcp

This project models the parts of ast-mcp that are hardest to get right and proves what they promise. ast-mcp is a guarded file-mutation server: it patches, renames, deletes and installs files in batches, undoes a batch that fails, and must not lose content or overwrite somebody else's edit on the way. Around that core stand a reference-counted lock guard, a bounded worker scheduler, path rules, and the selection of the CI work a change still needs.

`dafny verify dfyconfig.toml` checks everything.

## How the model is built

- **Protocols over steps.** Every call that the source awaits may reject. For renames, patch batches, the installer transaction, the lock guard and the scheduler, a run is a function of the start state and of a record of which awaits reject (or of the order of the callbacks), so a theorem about the run function is a theorem about every run. The `...Steps` module of such a component has the class of the source, with its fields and loops, and proves each method equal to the run function.
- **Deletion and snapshots** are modelled directly on a class: each system call fails, is short, or succeeds by an arbitrary choice, and in `SnapshotCopy` outside writers act at every await. A ghost trace records every state, so what is said of the moments in between cannot be bypassed. `FileDelete` counts the calls that reject, and these counts say exactly when a deletion succeeds and what its error names; on a `calm` disk of `SnapshotCopy` nothing fails, and there the operations are proved to succeed.
- **Exactness.** Beside the invariants, the operations have theorems that say what they do by their input alone, in both directions: which awaits reject (`BatchExactly`, `RenameExactly`), which callbacks arrive in which order (`DeliveriesMean`), which events came before (`ValidatesExactly`), which files changed (`SelectionExactly`), or how the text reads (`MatchesExactly`, `ParsedExactly`, the lemmas of `WindowsTexts`).
- **Loops** of the source are methods with invariants, proved against a specification function or against an outright property.
- **Hashes** are injective, so comparing digests is comparing contents. Locks are exclusive access to the batch's paths. Numbers are unbounded; durations are exact reals.

| file | component |
|---|---|
| `FileRename.dfy`, `FileRenameSteps.dfy` | batch rename by link and unlink, with rollback |
| `PatchBatch.dfy`, `PatchBatchSteps.dfy` | patch and write batches |
| `FileDelete.dfy` | batch deletion |
| `InstallerTransaction.dfy`, `InstallerTransactionSteps.dfy`, `InstallerRollback.dfy` | the installer's file journal |
| `SnapshotCopy.dfy`, `SnapshotActs.dfy` | capture and restoration of recovery copies |
| `PreviewReceipts.dfy`, `PreviewReceiptSteps.dfy`, `PreviewValidation.dfy`, `ReceiptBatches.dfy` | previews that a later batch commits |
| `TransactionLock.dfy`, `TransactionLockSteps.dfy` | descriptor ownership of the lock guard |
| `SqlScheduler.dfy`, `SqlSchedulerSteps.dfy`, `SqlDeliveries.dfy` | the single-worker scheduler |
| `TestShard.dfy`, `TestDurations.dfy`, `ListScheduling.dfy`, `Sorting.dfy` | test sharding and its load bounds |
| `GlobPatterns.dfy`, `GlobMeaning.dfy`, `BraceSelectors.dfy`, `BraceLimits.dfy`, `PathPolicy.dfy`, `PathReports.dfy`, `AllowRules.dfy` | which path rules reach into or cover a tree |
| `CiSelection.dfy`, `CiExactness.dfy` | the fold over earlier CI runs |
| `ImporterIndex.dfy` | who imports a file that is to be deleted |
| `LineRange.dfy` | reading a range of lines from a stream |
| `LaunchReceipts.dfy`, `ToolReceipts.dfy`, `LaunchForms.dfy` | giving a launch entry back on uninstall |
| `ConfigMerge.dfy` | layered configuration and its provenance |
| `WindowsCommands.dfy`, `WindowsTexts.dfy` | analysis of Windows command lines |
| `Versions.dfy`, `VersionTexts.dfy` | version order and the latest-version report |

## Where the code does less than it promises

Each of these is stated by a lemma with a concrete run or input, and the exact condition is proved beside it.

- *Rename.* If the fence in front of the cleanup of a half-moved entry rejects, the new link stays and the error names nothing (`FenceLossLeavesTheDestination`). Which rejections lead there is `FenceLostExactly`, and `RenameOutcome` is exact in those terms.
- *Patch batch.* `commit` can reject after its rename, when removing the temporary rejects; the file keeps its new content, is not rolled back and not named (`SweepRejectionLeavesTheTarget`). Which rejections lead there is `SlippedExactly`, and `RestoredOrNamedExactly` is exact in those terms.
- *Snapshots.* The removal of a failed exclusive copy looks and then unlinks, with an await in between, so it can remove the name of a file that somebody put there meanwhile (`RacingRemovalTakesAnothersFile`). `RestorationTakesExactly` says that this race, and nothing else, takes another's name; no name is ever replaced.
- *Lock guard.* If the path is swapped between the exclusive create and the lstat, the created descriptor is deferred under another inode and its close can drop live locks (`SwappedPathDropsLocks`). `LocksAreKeptExactly`: an acquisition is harmless in every future if and only if it does not take that branch, which needs a swap (`DeferringMeansSwapped`).
- *Path rules.* An exclusion with a recursive alternative, such as `{a/**/*,b}`, covers the tree at `a` although it does not exclude `a` itself (`BranchedRecursionMisses`; exact condition in `MissesExactly`, a condition on the text in `WrittenRecursionIsEnough`).
- *Allow rules.* The text comparison of an exclusion such as `a*` with the root `abc` finds nothing in common, so an allow rule covers a tree that it excludes (`CoveredTreeIsExcluded`; the exact condition on any exclusions, under all includes, in `CoversRightlyExactly`, on a single one also in `CoversExactlyAtBoundaries`).
- *CI selection.* Two jobs of the same area in one accepted run, a failure and then a success, drop the failure (`SelectionDropsAFailure` for a whole history; exact condition for a run in `FailuresStayPending`).
- *Launch receipts.* If there was no valid launch before and the entry has other settings by now, uninstalling keeps the entry whole, with the installed launch (`AddedSettingKeepsTheLaunch`; exact condition in `UninstallGivesBack`).
- *Launch receipts with tools.* Where entries own their tools, tools that the user adds to an installed entry are taken for installed ones by the next refresh, and uninstalling loses them (`RefreshTakesAddedTools`, at the input of `SearchIsLost`; exact condition in `ToolUninstallGivesBack`).

## Model

| member | source | states |
|---|---|---|
| `FileRename.RenameNeverLosesAFile` | src/runtime/file-rename.ts:80-235 | in every state of every run, whatever rejects, each source's inode is named by its source or its destination, and no path outside the batch changes |
| `FileRename.RenameOutcome` | src/runtime/file-rename.ts:356-455 | success is exactly the renamed names; a failure leaves exactly the original names if and only if the error mentions nothing to clean up and the rejections are not those that lose a cleanup fence |
| `FileRename.RenameExactly` | src/runtime/file-rename.ts:80-235 | in terms of the rejections alone: a rename succeeds exactly when nothing rejects on the way; otherwise each entry stands where the awaits of its own undo let it (an undo without rejections puts it back, and it is not reported), the stopped one where its cleanup left it; the error mentions exactly the stranded probe, the destination of a failed cleanup and the entries not back; and the rollback is recorded exactly when all are back and neither inspection nor recording rejects |
| `FileRename.FenceLostExactly` | src/runtime/file-rename.ts:160-216 | the run stops at entry k with a lost cleanup fence if and only if nothing rejects before it, entry k is linked, a later await of it rejects, and so does the fence of its cleanup |
| `FileRename.FenceLossLeavesTheDestination` | src/runtime/file-rename.ts:194-216 | a run that ends with source and destination both named although the error mentions nothing |
| `FileRename.BlobsDisposable` | src/runtime/file-rename.ts:356-455 | recovery copies are given up exactly after an abort before the begin, a success, or a recorded rollback, and a recorded rollback has every file back at its source |
| `FileRename.MoveFromLayout` | src/runtime/file-rename.ts:170-222 | after the move loop stops at an entry, the entries before it are at their destinations, those after it at their sources, and every state on the way loses no file |
| `FileRename.UndoFromLayout` | src/runtime/file-rename.ts:129-152 | the reverse loop brings back exactly the entries it does not report, and touches nothing else; which these are is told by `RenameExactly` |
| `FileRename.ProbeFromSafe` | src/runtime/file-rename.ts:80-120 | link probes lose no file, and without a residual probe leave the names as they were |
| `FileRenameSteps.Volume.VerifyLinkCapability` | src/runtime/file-rename.ts:80-120 | the probing loop, state by state, is the probing run |
| `FileRenameSteps.Volume.Move` | src/runtime/file-rename.ts:171-216 | one entry's link, verification, unlink and cleanup pass through the states of the model's move |
| `FileRenameSteps.Volume.RollbackMovedFiles` | src/runtime/file-rename.ts:122-158 | the rollback loop passes through the states of the undo run and reports its failed entries |
| `FileRenameSteps.Volume.MoveFilesWithRollback` | src/runtime/file-rename.ts:160-235 | the move loop with its rollback passes through the states of the model and ends with its report |
| `FileRenameSteps.Volume.RenameFiles` | src/runtime/file-rename.ts:356-455 | the whole operation has the trace, outcome, disposability and record of the modelled run |
| `PatchBatch.BatchSettles` | src/patch/engine.ts:1076-1215 | over every run: each state shows every batch path whole; success has every planned file at its target; a failure restores or names every path but one that slipped; the journal entry and the recovery copies match what happened. When it succeeds and which paths it restores is `BatchExactly` |
| `PatchBatch.BatchExactly` | src/patch/engine.ts:1020-1215 | in terms of the rejections alone: a batch completes exactly when nothing rejects on the way; otherwise exactly those files stay at their targets that slipped or whose undo was kept from taking effect by a rejection; it names nothing if no undo of a committed file and no recording rejects, and all committed files if one does; and it is recorded as rolled back in the first case once the journal knows of it |
| `PatchBatch.QuietRollbackRestores` | src/patch/engine.ts:1031-1074 | a failed batch whose rollback and record meet no rejection ends with every path that did not slip as it was, names nothing, and is recorded exactly if it began |
| `PatchBatch.NoTemporaryIsLeft` | src/patch/engine.ts:141-230 | unless removing a temporary rejects, no batch leaves one behind, however else it ends |
| `PatchBatch.RestoredOrNamedExactly` | src/patch/engine.ts:1166-1214 | a failed batch restores or names every path unless some entry replaces a file that differs from its target, removing its temporary then rejects, and nothing before rejects; and only then it does not |
| `PatchBatch.SlippedExactly` | src/patch/engine.ts:141-230 | the run stops at entry k after its rename, uncommitted, if and only if nothing rejects before, its file is as expected, and only removing its temporary rejects |
| `PatchBatch.ReceiptsFollowTheOutcome` | src/patch/engine.ts:1117-1212 | receipts are spent exactly by a completed batch, and a failed one leaves them reusable exactly if its rollback was recorded or it never began to mutate |
| `ReceiptBatches.ReceiptOutlivesOnlyAFailedBatch` | src/patch/engine.ts:337-382 | a receipt that outlives a batch naming it belongs to a failed batch that left every path but a slipped one as it was, and its file had the previewed hash at the release |
| `PatchBatch.SweepRejectionLeavesTheTarget` | src/patch/engine.ts:194-229 | a run whose file keeps the new content while the error names nothing and the recovery copy is given up |
| `PatchBatch.RunFromStanding` | src/patch/engine.ts:1127-1156 | the batch loop leaves exactly the entries before its stopping point at their targets |
| `PatchBatch.UndoFromStanding` | src/patch/engine.ts:1031-1066 | the rollback loop restores exactly the committed entries it does not report; by the rejections of its own undo, an entry is put back exactly if none keeps the restoring call from taking effect, and not reported exactly if none rejects at all |
| `PatchBatchSteps.Tree.CommitFile` | src/patch/engine.ts:141-230 | staging, rename and sweep of one file pass through the states of the model's commit |
| `PatchBatchSteps.Tree.RollbackFileBatch` | src/patch/engine.ts:1024-1074 | the reverse loop passes through the states of the undo run, of which `UndoFromStanding` says by the rejections what it restores, and reports its failed entries |
| `PatchBatchSteps.Tree.RunEntries` | src/patch/engine.ts:1127-1156 | the loop over the entries passes through the states of the model |
| `PatchBatchSteps.Tree.ExecuteBatch` | src/patch/engine.ts:1076-1215 | the whole batch has the trace, outcome, disposability, record and receipt state of the modelled run, of which `BatchExactly` says by the rejections what they are |
| `FileDelete.Volume.DeleteFiles` | src/runtime/file-delete.ts:404-532 | all files are deleted, or every path that the error does not name is as it was; it succeeds exactly if every file is as expected and no call rejects; otherwise the error names one file for each rejection in the rollback, and a rollback without rejections is recorded unless recording rejects; in every state on the way a path is as it was, or it is one of the batch and either gone or named, except that without links one path at a time may be half restored; recovery copies are given up only before the begin, after success, or after a recorded complete rollback |
| `FileDelete.Volume.RemoveAll` | src/runtime/file-delete.ts:454-487 | when the removal loop stops, exactly the files it got past are gone; it stops early exactly if a call rejects |
| `FileDelete.Volume.RestoreAll` | src/runtime/file-delete.ts:499-530 | the reverse loop restores or names every removed file and touches nothing else, and names one file for each rejection; with links a file appears at once, without them one at a time is being written |
| `InstallerTransaction.JournalRemembers` | src/installer/transaction.ts:110-146 | after any operations and outside edits, the journal holds for every touched file the first and the last state the transaction knew, and it never acted on any other state |
| `InstallerTransaction.ObservationExactly` | src/installer/transaction.ts:110-119 | after any run, told by the log of actions: an observation goes through exactly when nobody else has changed the file since the last action on it |
| `InstallerTransaction.ReplacementExactly` | src/installer/transaction.ts:121-186 | after any run, told by the log of actions: a replacement goes through exactly when the file shows what is expected, unedited and, if exclusive, absent, and then needs no change or is swapped with nothing rejecting; only the swap acts, on this file alone, and everything else on the disk is what others wrote |
| `InstallerTransaction.NeverActsOnUnknownState` | src/installer/transaction.ts:148-217 | also the rollback acts on a file only in its last known state, and every file it does not report is known to be back in its first state |
| `InstallerTransaction.RollbackSparesEdits` | src/installer/transaction.ts:196-217 | with arbitrary outside edits before it, an undisturbed rollback restores exactly the touched files still in their last known state and reports exactly the changed ones that were edited since |
| `InstallerRollback.RollbackExactly` | src/installer/transaction.ts:148-217 | for a rollback in which anything rejects and anybody edits at every await, before the swap of a file and after it while its temporary is removed, file by file: it is put back exactly if it is in its last known state before and after the awaits that precede its swap and they let it through, it is reported exactly if it was changed and not put back cleanly, and in the end it shows what was put back or the last outside edit |
| `InstallerTransaction.RollbackRestoresEverything` | src/installer/transaction.ts:196-217 | alone on the disk, a transaction rolls back to exactly the disk it began with |
| `InstallerTransactionSteps.FileTransaction.Observe` | src/installer/transaction.ts:110-119 | observing a file updates the journal as modelled or refuses |
| `InstallerTransactionSteps.FileTransaction.Commit` | src/installer/transaction.ts:148-186 | the guarded write of one file, with the awaits before and after its swap, is the modelled commit |
| `InstallerTransactionSteps.FileTransaction.Replace` | src/installer/transaction.ts:121-146 | replacing a file is the modelled replacement |
| `InstallerTransactionSteps.FileTransaction.RollBack` | src/installer/transaction.ts:196-217 | the reverse loop is the modelled rollback and reports its failures |
| `SnapshotCopy.Disk.WriteAll` | src/runtime/snapshot-blob.ts:181-197 | for every pattern of short writes, success has written exactly the bytes at the position, and a failure a prefix of them; only this file changes by it |
| `SnapshotCopy.Disk.CopyVerifiedBytes` | src/runtime/snapshot-blob.ts:387-408 | for every pattern of short reads and writes, success means that the source has the expected content, and an undisturbed output holds exactly that; only the output changes by it |
| `SnapshotCopy.Disk.StageFileSnapshot` | src/runtime/snapshot-blob.ts:200-299 | on success there is a moment of the call, the final check, at which the snapshot describes the file that the path names; the private blob holds its bytes; only private names change, and on a calm disk a failed capture leaves none of them |
| `SnapshotCopy.Disk.CopyCaptured` | src/runtime/snapshot-blob.ts:229-260 | if the stamp has not changed up to the final check, the copy is byte for byte what the path names at that moment |
| `SnapshotCopy.Disk.RemoveTemporary` | src/runtime/snapshot-blob.ts:367-385 | the name is removed exactly if it names the created file at the lstat and still names something at the unlink, whatever that is |
| `SnapshotCopy.Disk.PublishNoReplace` | src/runtime/snapshot-blob.ts:459-554 | the changes of names are those of the modelled publication; on success the destination names, at a moment of the call, a file with the bytes, mode and owner of the temporary; on a calm disk it succeeds on a free destination and leaves an occupied one alone |
| `SnapshotCopy.Disk.RestoreSnapshotBlob` | src/runtime/snapshot-blob.ts:557-636 | the changes of names are those of the modelled restoration, none of which replaces a name; on success the destination names, at a moment of the call, a file with exactly the captured bytes, mode and owner, and the temporary is gone; on a calm disk it succeeds exactly for a free destination |
| `SnapshotCopy.Disk.CaptureThenRestore` | src/runtime/file-delete.ts:404-505 | a capture and a later restoration, with others acting in between: the restored file has the bytes, mode and owner that the path showed at the capture |
| `SnapshotActs.RestorationReplacesNothing` | src/runtime/snapshot-blob.ts:459-554 | over every run, whatever rejects and whatever others do: no name is given another file, and the destination is bound, by link or by exclusive copy, only while it is free |
| `SnapshotActs.TakenDestinationStays` | src/runtime/snapshot-blob.ts:459-513 | a destination in use at the link and at the exclusive create is never touched, and the restoration fails |
| `SnapshotActs.RestorationTakesExactly` | src/runtime/snapshot-blob.ts:362-385 | another's name is removed if and only if the removal of a failed exclusive copy still saw that copy and the destination was given to another file before the unlink; the private temporary is never affected |
| `SnapshotActs.RacingRemovalTakesAnothersFile` | src/runtime/snapshot-blob.ts:362-385 | such a run, with a free destination at both attempts |
| `PreviewReceipts.ReceiptsStayBoundedAndExclusive` | src/patch/engine.ts:337-428 | over every interleaving a session has at most 32 receipts and 16 MiB of payload, and two batches never hold the same token |
| `PreviewReceipts.SpentIsNeverValidated` | src/patch/engine.ts:337-382 | a token released by a completed batch is never found nor validated again, whatever happens later, also by no validation that was under way |
| `PreviewReceipts.OnlyTheHolderValidates` | src/patch/engine.ts:430-438 | while a batch holds a token, only that batch can find its receipt, and every successful validation of it was begun by that batch |
| `PreviewValidation.ValidatesExactly` | src/patch/engine.ts:430-503 | over every feasible run with a preview, a look and a read: the validation succeeds with a receipt if and only if a preview stored it and nothing removed it before the look, it had not expired at the look, path, session and workspace of the request are those of the preview, and so are the configuration and the hash of the file at the read |
| `PreviewValidation.StoredExactly` | src/patch/engine.ts:337-428 | a receipt is in the store if and only if some preview stored it and no event has removed it since |
| `PreviewValidation.ReservesExactly` | src/patch/engine.ts:342-358 | a batch gets its receipts if and only if it names no token twice and no other batch holds one of them |
| `PreviewValidation.ExpiredIsRemembered` | src/patch/engine.ts:384-391 | a token that expires is remembered, and of the earlier ones only the oldest is forgotten, when there are too many |
| `PreviewReceipts.SurvivesExactly` | src/patch/engine.ts:337-391 | over a whole run a stored receipt survives if and only if no event drops it: expiry, a discard, or a release that is not reusable |
| `PreviewReceipts.SurvivesItsBatch` | src/patch/engine.ts:342-381 | over the whole run of a batch that names a receipt the batch lets go of it once, and then drops it if and only if it did not fail safely or the file no longer has the previewed hash |
| `PreviewReceipts.EveryRunKeeps` | src/patch/engine.ts:327-428 | every event keeps the receipts, reservations, limits and expired tokens consistent |
| `PreviewReceiptSteps.PreviewReceiptStore.PreviewPayloadBytes` | src/patch/engine.ts:401-428 | the counting loops decide exactly whether the session's limits allow one more receipt |
| `PreviewReceiptSteps.PreviewReceiptStore.PatchPreview` | src/patch/engine.ts:603-655 | a preview is stored exactly when it fits |
| `PreviewReceiptSteps.PreviewReceiptStore.ExpirePreviewReceipt` | src/patch/engine.ts:384-391 | an expired token leaves the receipts, and at most 1024 expired tokens are remembered |
| `PreviewReceiptSteps.PreviewReceiptStore.ReserveReceipts` | src/patch/engine.ts:342-358 | a batch reserves all its tokens or none |
| `PreviewReceiptSteps.PreviewReceiptStore.ReleaseReceipt` | src/patch/engine.ts:361-381 | releasing one token is the modelled release |
| `PreviewReceiptSteps.PreviewReceiptStore.LookUpPreviewReceipt` | src/patch/engine.ts:430-479 | the part before the first await finds the receipt or refuses as modelled, and drops an expired one |
| `PreviewReceiptSteps.PreviewReceiptStore.ValidatePreviewReceipt` | src/patch/engine.ts:480-503 | the check of the configuration and of the file after the awaits is the modelled one, of which `ValidatesExactly` says over whole runs when it succeeds |
| `PreviewReceiptSteps.PreviewReceiptStore.DiscardPreparedPreviews` | src/patch/engine.ts:999-1007 | exactly the receipts of the given tokens are gone |
| `TransactionLock.GuardsKeepTheirLocks` | src/runtime/transaction-lock.ts:89-195 | in every run of acquisitions, failing anywhere, and releases, in which no created descriptor is misplaced: no close drops the locks of an unreleased guard, each count equals the unreleased guards of its inode, and the quarantine stays within 64 and is empty while no guard is live |
| `TransactionLock.AcquiresExactly` | src/runtime/transaction-lock.ts:103-242 | over the outcomes of the system calls: a guard is handed out, on the inode that the path names, if and only if the quarantine is not full, the path can be created or is there, it looks safe, a live guard has its inode already or the descriptor created or opened for it looks safe too and is on that inode, the fence holds, and the database can be locked; otherwise the guards stay as they were |
| `TransactionLock.OnlyUnknownIsQuarantined` | src/runtime/transaction-lock.ts:96-102 | an acquisition quarantines a descriptor only if its inode could not be told |
| `TransactionLock.LocksAreKeptExactly` | src/runtime/transaction-lock.ts:127-144 | an action in a sound state keeps all locks in every future without further misplacing if and only if it does not defer a created descriptor under the entry of another inode |
| `TransactionLock.SteadyIsCareful` | src/runtime/transaction-lock.ts:120-137 | if the path is never swapped between the exclusive create and the lstat, no descriptor is misplaced |
| `TransactionLock.NothingLeaksAfterTheLastRelease` | src/runtime/transaction-lock.ts:91-121 | once every guard is released, every descriptor ever opened is closed |
| `TransactionLock.DeferringMeansSwapped` | src/runtime/transaction-lock.ts:138-144 | a freshly created descriptor is deferred only if the path was swapped |
| `TransactionLock.SwappedPathDropsLocks` | src/runtime/transaction-lock.ts:127-144 | a feasible run with a swapped path in which a release drops the locks of a live guard |
| `TransactionLockSteps.GuardTable.CloseQuarantinedDescriptors` | src/runtime/transaction-lock.ts:91-95 | the closing loop is the modelled sweep |
| `TransactionLockSteps.GuardTable.RetireDescriptor` | src/runtime/transaction-lock.ts:96-102 | retiring a descriptor defers, closes or quarantines it as modelled |
| `TransactionLockSteps.GuardTable.ReleaseGuard` | src/runtime/transaction-lock.ts:112-121 | a release is the modelled release |
| `TransactionLockSteps.GuardTable.OpenDatabaseGuard` | src/runtime/transaction-lock.ts:103-195 | opening a guard, with every outcome of every system call, is the modelled acquisition |
| `TransactionLockSteps.GuardTable.AcquireDatabaseNow` | src/runtime/transaction-lock.ts:196-242 | a guard is held exactly when it was opened and the database was locked, and released otherwise |
| `SqlScheduler.EveryInterleavingKeeps` | src/runtime/sql-postgres.ts:108-238 | every interleaving of submissions, aborts, timeouts, messages, errors, exits and terminations keeps the scheduler's invariant |
| `SqlScheduler.SchedulerGuarantees` | src/runtime/sql-postgres.ts:108-238 | in every reachable state: count and bytes are those of the unreleased tasks and within limits, at most one worker runs, a waiting queue has an active task, every promise is settled at most once, a verdict only after the worker is confirmed dead, and no unsettled task is lost. What each delivery means in terms of the callbacks is `DeliveriesMean` |
| `SqlDeliveries.DeliveriesMean` | src/runtime/sql-postgres.ts:124-202 | over every run, by its callbacks: the caller hears the verdict v if and only if the request was settled by its worker's message v and the retirement was confirmed before the timer or a rejection decided the race; a cancellation if and only if an abort settled it; and otherwise, if anything, that validation is unavailable |
| `SqlDeliveries.SettledByExactly` | src/runtime/sql-postgres.ts:129-134 | a request with a worker is settled by exactly these callbacks: its abort, its timer, and the message, error or exit of that worker |
| `SqlDeliveries.HeardExactly` | src/runtime/sql-postgres.ts:163-202 | the caller hears at the settlement if there is no worker, and otherwise exactly when the settlement goes on after the race is decided or the termination threw |
| `SqlDeliveries.ReservationEndsExactly` | src/runtime/sql-postgres.ts:154-202 | a settled request gives up its reservation exactly when it has no worker, its worker has exited, or the termination asked for at the settlement is confirmed |
| `SqlDeliveries.WorkersStartInOrder` | src/runtime/sql-postgres.ts:204-218 | no request gets a worker while an earlier one still waits |
| `SqlDeliveries.RefusedExactly` | src/runtime/sql-postgres.ts:108-126 | in every reachable state a request is refused exactly if it is unsupported, too large, or too much beside the requests whose reservations are held, counted afresh |
| `SqlScheduler.IdleReservesNothing` | src/runtime/sql-postgres.ts:154-161 | without an outstanding worker nothing is reserved |
| `SqlScheduler.OutcomesAreFinal` | src/runtime/sql-postgres.ts:163-202 | a delivered outcome is never changed or delivered again |
| `SqlSchedulerSteps.PostgresSqlAdapter.Validate` | src/runtime/sql-postgres.ts:108-152 | a submission is refused or queued as the modelled step |
| `SqlSchedulerSteps.PostgresSqlAdapter.ReleaseTask` | src/runtime/sql-postgres.ts:154-161 | releasing a task frees its reservation once and dispatches the next |
| `SqlSchedulerSteps.PostgresSqlAdapter.SettleTask` | src/runtime/sql-postgres.ts:163-202 | settling a task up to its await is the modelled settlement |
| `SqlSchedulerSteps.PostgresSqlAdapter.DispatchNext` | src/runtime/sql-postgres.ts:204-238 | dispatching is the modelled dispatch, for every way in which a worker starts or does not |
| `SqlSchedulerSteps.PostgresSqlAdapter.Handle` | src/runtime/sql-postgres.ts:129-238 | every callback up to its next await is the step of the model, whose runs `DeliveriesMean`, `HeardExactly` and `ReservationEndsExactly` describe |
| `TestShard.SelectTestShard` | scripts/testing/test-shard.ts:21-65 | the shard, or the error, that the specification gives for these files, weights and counts |
| `TestDurations.SelectsExactly` | scripts/testing/test-shard.ts:27-53 | a job gets its shard if and only if the index and the count are integers in range, the inventory has no duplicates, and every recorded duration of a file in it is finite and positive |
| `TestDurations.BaselineIsMedian` | scripts/testing/test-shard.ts:44-47 | a file without a record counts as the middle one of the usable durations in order, or 1 if there are none |
| `TestDurations.WeightExactly` | scripts/testing/test-shard.ts:48-53 | a recorded duration counts as it is if it is usable, and a file without a record never fails |
| `TestDurations.ShardIsInOrder` | scripts/testing/test-shard.ts:65 | the files of a shard are in the order of their code units |
| `TestShard.ShardsPartition` | scripts/testing/test-shard.ts:40-64 | the shards of separate calls are together exactly the inventory |
| `TestShard.ExactlyOneShard` | scripts/testing/test-shard.ts:57-64 | every file is in exactly one shard, once |
| `TestShard.ShardNearAverage` | scripts/testing/test-shard.ts:57-64 | m times a shard's load is at most the total plus (m - 1) times the longest duration |
| `TestShard.ShardNearOptimal` | scripts/testing/test-shard.ts:44-64 | no assignment of the files to m machines has a heaviest load below a shard's load divided by 4/3 - 1/(3m) |
| `ListScheduling.GreedyBound` | scripts/testing/test-shard.ts:57-63 | the average bound for any jobs placed one by one on a least loaded machine |
| `ListScheduling.BigJobsOptimal` | scripts/testing/test-shard.ts:54-63 | jobs of more than a third of some achievable load are placed within that load |
| `ListScheduling.LongestFirstBound` | scripts/testing/test-shard.ts:54-63 | the 4/3 bound for jobs in descending order |
| `Sorting.SortKeepsElements` | scripts/testing/test-shard.ts:54-56 | the sort is a permutation |
| `Sorting.SortSorts` | scripts/testing/test-shard.ts:54-56 | the sort orders by any total preorder |
| `GlobPatterns.SearchIsExact` | src/runtime/path-policy.ts:535-560 | the search reaches a root exactly when the pattern matches some path at or below it |
| `GlobMeaning.SegmentMatchesExactly` | src/runtime/path-policy.ts:81 | a segment pattern matches a text if and only if the text can be cut into one piece per character: any piece for `*`, one character for `?`, and otherwise that character |
| `GlobMeaning.MatchesExactly` | src/runtime/path-policy.ts:81 | a pattern matches a path if and only if the path can be cut into one run of segments per segment of the pattern: any run for `**` (a final one may need a segment), and otherwise one segment that it matches |
| `GlobPatterns.TreeSearch.Intersects` | src/runtime/path-policy.ts:542-558 | the search that skips visited states gives the answer of the search that does not |
| `GlobPatterns.AlternativeIntersectsTree` | src/runtime/path-policy.ts:535-560 | the memoised search is exact and visits at most segments times segments states |
| `GlobPatterns.CoveredIsSelected` | src/runtime/path-policy.ts:509-527 | a selector covered by an exclusion selects nothing that the exclusion does not select |
| `GlobPatterns.CoveredTreeIsSelected` | src/runtime/path-policy.ts:562-570 | an exclusion that covers the requested tree selects every path in it |
| `BraceSelectors.StepKeepsWords` | src/runtime/path-policy.ts:425-438 | replacing the leftmost innermost group by its alternatives keeps the set of words |
| `BraceSelectors.ExpansionKeepsWords` | src/runtime/path-policy.ts:425-438 | a successful expansion has exactly the words of the selector, at most 256 results, and nothing left to expand |
| `BraceSelectors.ExpansionIsPlain` | src/runtime/path-policy.ts:425-438 | if every group has a comma, no group is left |
| `BraceSelectors.ExpandBraceAlternatives` | src/runtime/path-policy.ts:425-438 | the recursive loop computes the expansion, or gives up at the limit |
| `BraceLimits.ExpandsExactly` | src/runtime/path-policy.ts:425-438 | if every group has a comma, the expansion has as many results as the product of the numbers of alternatives of all groups, nested ones included, and gives up if and only if that is more than 256 |
| `BraceLimits.MoreResultsThanWords` | src/runtime/path-policy.ts:425-438 | `{a{b,c},d}` has three words and four results |
| `PathPolicy.SelectedByAWord` | src/runtime/path-policy.ts:80-87 | a selector matches a path, by its glob or its recursive root as written, only if one of its words does |
| `PathPolicy.NoRuleIsMissed` | src/runtime/path-policy.ts:607-618 | if a rule selects any path at or below a root, the search reports that it reaches into the tree, provided its exclusions exclude the roots of their recursive alternatives |
| `PathReports.ReportedExactly` | src/runtime/path-policy.ts:572-618 | below its anchor a rule without exclusions is reported if and only if it selects some path at or below the root, or one of its selectors has too many alternatives |
| `PathReports.RecursiveExclusionSilences` | src/runtime/path-policy.ts:562-595 | where a recursive exclusion without braces matches the root, a rule is reported only if one of its selectors has too many alternatives |
| `PathPolicy.MissesExactly` | src/runtime/path-policy.ts:572-595 | no selector can be missed below a root if and only if the exclusions exclude the roots of their recursive alternatives there |
| `PathPolicy.WrittenRecursionIsEnough` | src/runtime/path-policy.ts:501-507 | that holds for exclusions that are recursive as written whenever one of their alternatives is |
| `PathPolicy.BranchedRecursionMisses` | src/runtime/path-policy.ts:572-595 | the rule `a` with the exclusion `{a/**/*,b}` selects the root `a` and is not reported there, whether or not a trailing `**` matches the bare parent |
| `AllowRules.CoveredTreeIsAllowed` | src/runtime/path-policy.ts:373-413 | an allow rule that covers a tree selects every path in it, provided the literal text of each exclusion ends where a segment ends |
| `AllowRules.CoversExactlyAtBoundaries` | src/runtime/path-policy.ts:398-412 | with one exclusion the comparison of texts is right for every tree under every list of includes if and only if its literal text ends where a segment ends; under the include `**` alone the same condition is exact too |
| `AllowRules.CoversRightlyExactly` | src/runtime/path-policy.ts:398-412 | for any exclusions the comparison is right for every tree under every list of includes if and only if the rule for everything but these exclusions covers no word of any of them, taken as a tree; under the include `**` alone the same condition is exact too; so one exclusion can block the trees on which another compares wrongly |
| `AllowRules.CoveredWhenBlocked` | src/runtime/path-policy.ts:373-413 | whatever a rule includes: if its exclusions block each other's words, it selects every path of a tree that it covers |
| `AllowRules.BlockedEverywhere` | src/runtime/path-policy.ts:398-412 | an exclusion that blocks a word as a tree blocks every tree in which that word selects something |
| `AllowRules.CoveredTreeIsExcluded` | src/runtime/path-policy.ts:398-412 | the rule for everything but `a*` covers the tree `abc` and does not select it |
| `CiSelection.SelectionOmitsOnlySettledWork` | scripts/testing/ci-selection.ts:211-400 | an incremental selection omits an area only if it succeeded in the newest full attempt or in a later run that advanced the checkpoint and has since neither failed nor been required without success; tests left unproven since the last checkpoint are selected again |
| `CiSelection.UniqueNamesOmitOnlySettledWork` | scripts/testing/ci-selection.ts:211-400 | the same for every history in which no run has two jobs of one name |
| `CiSelection.PendingIsUnproven` | scripts/testing/ci-selection.ts:294-380 | after the fold exactly the unproven areas are pending |
| `CiSelection.TestsAreOutstanding` | scripts/testing/ci-selection.ts:328-379 | after the fold exactly the tests left unproven since the last checkpoint are kept |
| `CiSelection.PendingAfterRun` | scripts/testing/ci-selection.ts:326-375 | what one run leaves pending: unless it advances the checkpoint with a last success, what was pending, missed or failed |
| `CiSelection.FailuresStayPending` | scripts/testing/ci-selection.ts:336-374 | a run never drops work that failed in it if and only if it does not advance the checkpoint with a success after a failure of the same area |
| `CiSelection.RepeatedNameDropsFailure` | scripts/testing/ci-selection.ts:336-352 | a run after which failed work is no longer pending |
| `CiSelection.SelectionDropsAFailure` | scripts/testing/ci-selection.ts:211-400 | a whole history after which the incremental selection omits an area that failed in the newest run |
| `CiExactness.SelectsExactly` | scripts/testing/ci-selection.ts:211-400 | which kind of selection there is, exactly: none of the package if the history is believable and only documentation changed in it; an incremental one if it is believable, something else changed, there is a full attempt in which nothing of unknown meaning failed, every newer run can be folded in, and the files changed since the checkpoint have a scope; and full qualification otherwise |
| `CiExactness.SelectionExactly` | scripts/testing/ci-selection.ts:373-400 | an incremental selection, over the files changed since the checkpoint: each of them is an available test or an ordinary source file; a test is selected if and only if it changed or was left unproven since then; and an area is scheduled if and only if it is not proven, or a source file changed and the area runs all tests (coverage and every shard of both platforms) |
| `CiExactness.ScopeExactly` | scripts/testing/ci-selection.ts:166-210 | a change has a scope if and only if there are tests, something changed, and every changed file is an available test or an ordinary source file, so no pinned, deleted or other one; the scope is the changed tests, and all tests if a source file changed |
| `CiExactness.FullAttemptExactly` | scripts/testing/ci-selection.ts:144-165 | a full attempt is a finished run with every area in exactly one job, or with one finished summary of a full run under this configuration |
| `CiExactness.BaselineLeaves` | scripts/testing/ci-selection.ts:261-278 | a baseline leaves to be done exactly the areas without their one success, and the website only if it was asked for |
| `CiExactness.StepContinuesExactly` | scripts/testing/ci-selection.ts:294-367 | a run can be folded in if and only if the checkpoint is an ancestor of its head, no job of unknown meaning failed in it, and the scope of its change is known in case its test jobs are unproven |
| `CiExactness.RequiredExactly` | scripts/testing/ci-selection.ts:296-317 | the work that is required of a run is exactly what its change needs and what is pending |
| `CiExactness.NothingToBuildOn` | scripts/testing/ci-selection.ts:253-260 | without a full attempt everything is qualified, and the website too unless the history is known to be empty |
| `CiExactness.EverythingAgain` | scripts/testing/ci-selection.ts:279-378 | after a fold without a scope everything is qualified, the website if and only if it is not proven; after a baseline with a failure of unknown meaning always |
| `CiSelection.BaselineIsNewest` | scripts/testing/ci-selection.ts:255-258 | the baseline is a full attempt and no newer run is one |
| `CiSelection.FindScope` | scripts/testing/ci-selection.ts:166-210 | the loop over the changed files computes the scope, or that full qualification is needed |
| `CiSelection.FoldRun` | scripts/testing/ci-selection.ts:294-380 | one pass of the loop over the runs is the modelled step |
| `CiSelection.SelectCi` | scripts/testing/ci-selection.ts:211-400 | the selection is the modelled one for every history; what it is, by the files and the history alone, is `SelectsExactly` and `SelectionExactly` |
| `ImporterIndex.CreateReferenceTargetIndex` | src/runtime/reference-target-index.ts:4-20 | the index lists a target under exactly its aliases |
| `ImporterIndex.ReferencedTargets` | src/runtime/reference-target-index.ts:23-35 | exactly the targets that one of the imports names, by full path, without extension, or as a directory index |
| `ImporterIndex.AliasesExactly` | src/runtime/reference-target-index.ts:8-13 | a file is known by exactly its path and, if its name has one after a first character, the path without its extension |
| `ImporterIndex.ReferenceVerification.ReferenceCandidates` | src/runtime/file-delete.ts:75-106 | the walk over cached directories finds every file under the root, each once |
| `ImporterIndex.ReferenceVerification.ImportersFor` | src/runtime/file-delete.ts:108-196 | in any order of queries over any roots, the cached answer lists exactly the importers of the definition, each once; there is none if a directory or source file under the root cannot be read or is too large, and otherwise only past the inventory or source limit |
| `ImporterIndex.WalkIsComplete` | src/runtime/file-delete.ts:79-105 | a walk with nothing pending has found exactly the files under its root |
| `LineRange.KeptIsRange` | src/runtime/file-read.ts:198-200 | the bytes on lines [start, end), picked one by one, are the stretch of the file between the two line starts |
| `LineRange.LineRangeCollector.Append` | src/runtime/file-read.ts:202-218 | appends what fits and reports whether something did not |
| `LineRange.LineRangeCollector.Consume` | src/runtime/file-read.ts:164-182 | after each chunk the collector holds exactly the bytes of the range seen so far, or is finished with the right content and flags |
| `LineRange.BufferLineCount` | src/runtime/file-read.ts:221-231 | the number of lines, a last one without newline included |
| `LineRange.LastLine` | src/runtime/file-read.ts:184-196 | the line count of the content agrees with the line of its last byte in the file |
| `LineRange.ReadLineRange` | src/runtime/file-read.ts:233-262 | for every way of cutting a file into chunks: the first maxBytes bytes of the lines, truncated exactly when they are more, hasMore exactly when bytes follow, and matching line numbers |
| `LaunchReceipts.LaunchReceipt` | src/installer/ownership.ts:14-60 | the receipt of an installation is the modelled one |
| `LaunchReceipts.RemoveManagedEntry` | src/installer/ownership.ts:61-94 | the entry kept on uninstall is the modelled one |
| `LaunchReceipts.EveryRunRemembers` | src/installer/index.ts:366-399 | after any edits, installs and refreshes the receipt remembers the launch the user last chose, if valid, and the installed one |
| `LaunchReceipts.UninstallGivesBack` | src/installer/ownership.ts:61-94 | uninstalling gives back the chosen launch with the current other settings if and only if that launch was valid or nothing is owed |
| `LaunchReceipts.RoundTripRestoresLaunch` | src/installer/index.ts:366-399 | with edits of other settings only, the chosen launch is the original one, so that is what comes back |
| `LaunchReceipts.ChangedLaunchIsKept` | src/installer/ownership.ts:66-73 | an entry whose launch the user changed is returned untouched |
| `LaunchReceipts.AddedSettingKeepsTheLaunch` | src/installer/ownership.ts:80-93 | an absent entry is installed, gets a setting, and is kept whole with the installed launch on uninstall |
| `LaunchReceipts.ToolsAreGivenBack` | src/installer/index.ts:366-399 | for hosts whose entries own their tools: installing into an entry with a valid launch and uninstalling gives back that launch with the current other settings, the current tools among them |
| `LaunchForms.ValidLaunchExactly` | src/installer/ownership.ts:96-138 | a launch is accepted if and only if it is one written from a command, with any arguments, directory and local type, or from an http or https URL with any remote type, nothing of it blank, and any tools |
| `LaunchForms.InstallsKeepSettings` | src/installer/index.ts:366-399 | an installation and refreshes leave exactly the last definition beside the other settings that were there |
| `LaunchForms.InstallsSettleTools` | src/installer/ownership.ts:156-165 | for entries that own their tools: also the tools that were there, or all tools if nothing was there and no receipt is readable, and otherwise none |
| `LaunchReceipts.DefaultToolsAreTaken` | src/installer/ownership.ts:156-164 | installed where nothing was, the default tools count as launch settings: the entry goes if nothing else is in it |
| `ToolReceipts.EveryToolRunRemembers` | src/installer/index.ts:366-399 | after any edits, installs and refreshes of an entry that owns its tools, a readable receipt remembers the launch the user last chose, if valid, and its tools are the installed ones or none |
| `ToolReceipts.ToolUninstallGivesBack` | src/installer/ownership.ts:61-94 | over the same runs uninstalling gives back a valid chosen launch with all current other settings if and only if the receipt does not count the current tools as installed without remembering them |
| `ToolReceipts.ToolUninstallWithoutChoice` | src/installer/ownership.ts:61-94 | what it gives back when the user chose no valid launch |
| `ToolReceipts.RefreshTakesAddedTools` | src/installer/ownership.ts:26-47 | a run, for every own launch, definition and added tools, after which uninstalling loses the tools |
| `ToolReceipts.SearchIsLost` | src/installer/ownership.ts:26-47 | the command `mine` and the added tool `search` are such an input |
| `ConfigMerge.MergeOverrides` | src/config/index.ts:783-835 | a layer that defines a setting overrides it, and any other layer leaves it alone, through all nested sections |
| `ConfigMerge.MergeSetting` | src/runtime/sql-assistance.ts:124-169 | the same for the SQL options, which are normalised, and whose version and variant are dropped when the dialect changes |
| `ConfigMerge.MergesExactly` | src/runtime/sql-assistance.ts:124-169 | a merge of layers fails if and only if some layer sets, in its files section, a policy, dialect, variant or version that cannot be kept; what earlier layers set is never rejected later |
| `ConfigMerge.SelectorExactly` | src/runtime/sql-assistance.ts:110-122 | a selector between any blanks is accepted if and only if the text between them is, and that is kept: a version as it is, any other in lower case |
| `ConfigMerge.ChangesDialectExactly` | src/runtime/sql-assistance.ts:131-133 | a layer changes the dialect if and only if it names one that differs from the stored one in more than blanks and case |
| `ConfigMerge.RemergeIsIdentity` | src/config/index.ts:828-835 | merging an effective configuration into an empty one changes nothing |
| `ConfigMerge.RunningMerge` | src/config/index.ts:981-988 | merging the running value with one more layer is merging all layers at once |
| `ConfigMerge.ProvenanceNamesTheDefiner` | src/config/index.ts:981-993 | for every setting that is set, the provenance is the last layer defining it and the value is that layer's; a setting that is not set has none |
| `ConfigMerge.Merge` | src/config/index.ts:828-835 | the loops over layers and sections compute the merge, or fail on an invalid SQL option |
| `ConfigMerge.ConfigProvenance` | src/config/index.ts:981-993 | the running loop records the provenance of every listed setting |
| `WindowsCommands.WindowsSegments` | src/hooks/shell-policy.ts:245-286 | the index loop computes the segments |
| `WindowsCommands.WindowsTokens` | src/hooks/shell-policy.ts:288-318 | the index loop computes the tokens |
| `WindowsCommands.SegmentsFit` | src/hooks/shell-policy.ts:245-286 | no segment is longer than its text |
| `WindowsCommands.TokensFit` | src/hooks/shell-policy.ts:288-318 | the tokens joined with spaces are never longer than the text, and none is empty |
| `WindowsCommands.Command` | src/hooks/shell-policy.ts:320-328 | every list of later tokens, joined, is strictly shorter than the segment |
| `WindowsCommands.Payload` | src/hooks/shell-policy.ts:334-349 | the payload of a nested shell is strictly shorter than the segment |
| `WindowsCommands.CommandListMutates` | src/hooks/shell-policy.ts:362-376 | a list of commands separated outside quotes by a semicolon or a bar, or by an ampersand or brace where the first has no redirection, changes files if and only if one of the commands does; which commands do is told by the lemmas of `WindowsTexts` |
| `WindowsCommands.CommandLinesMutate` | src/hooks/shell-policy.ts:276-281 | the same for commands on lines of their own, but for a .NET call that goes on over the end of a line |
| `WindowsTexts.LineTokens` | src/hooks/shell-policy.ts:288-318 | a line written from bare and quoted words is read back as those words |
| `WindowsTexts.MutatorsMutate` | src/hooks/shell-policy.ts:177-243 | a bare or quoted command whose name is in the list of the dialect changes files, whatever follows it |
| `WindowsTexts.CommandNames` | src/hooks/shell-policy.ts:82-90 | a program is named by its file, without directory, executable extension and case |
| `WindowsTexts.MarkersAreSkipped` | src/hooks/shell-policy.ts:325 | a leading `@` or `(` changes nothing |
| `WindowsTexts.CallAnswersAs` | src/hooks/shell-policy.ts:330-331 | `call` answers as the command after it does in the dialect of cmd |
| `WindowsTexts.EvaluationAnswersAs` | src/hooks/shell-policy.ts:332-333 | `iex` and `invoke-expression` answer as the words after them do in PowerShell |
| `WindowsTexts.QuotedEvaluationAnswersAs` | src/hooks/shell-policy.ts:332-333 | and with one quoted text as that text does |
| `WindowsTexts.NestedShellAnswersAs` | src/hooks/shell-policy.ts:334-349 | `cmd /c p` and `powershell -Command p` answer as p does in the dialect of that shell, whatever the outer dialect is |
| `WindowsTexts.PayloadDecides` | src/hooks/shell-policy.ts:334-349 | the same with other options before the command and anything after it |
| `WindowsTexts.EncodedMutates` | src/hooks/shell-policy.ts:335-342 | a PowerShell that is given an encoded command changes files |
| `WindowsTexts.BranchMutatesExactly` | src/hooks/shell-policy.ts:350-358 | `if` and `for` change files if and only if one of their words names a command of the list, or is `do` or `else` with such a command after it |
| `WindowsTexts.OrdinaryDoesNothing` | src/hooks/shell-policy.ts:320-360 | any other command of words changes nothing, unless a .NET call stands in the line |
| `WindowsTexts.QuietlyDoesNothing` | src/hooks/shell-policy.ts:268-274 | nor does it with its output sent to the null device |
| `WindowsTexts.RedirectionMutates` | src/hooks/shell-policy.ts:268-274 | output to anything but the null device or another descriptor changes files |
| `WindowsTexts.IoCallMutates` | src/hooks/shell-policy.ts:366-371 | a call of one of the listed methods of the .NET file classes changes files wherever it stands |
| `Versions.CompareVersions` | src/runtime/release.ts:19-46 | the loops compute the precedence of section 11 of Semantic Versioning 2.0.0, stated by the first difference, and nothing for invalid versions |
| `VersionTexts.ParsedExactly` | src/runtime/release.ts:2-17 | a text is read as a version if and only if it has at most 128 characters and is that version written out: three numbers without leading zeros, any pre-release identifiers, and any build |
| `VersionTexts.CoreDecides` | src/runtime/release.ts:26-29 | the smaller number at the first place where two cores differ decides |
| `VersionTexts.PreReleaseComesFirst` | src/runtime/release.ts:30-32 | a pre-release comes before its release |
| `VersionTexts.LongerComesLater` | src/runtime/release.ts:33-37 | a pre-release comes before every longer one that begins with it |
| `VersionTexts.IdentifierDecides` | src/runtime/release.ts:38-44 | at the first place where two pre-releases differ, numbers are compared by value, texts by their characters, and a number comes before a text |
| `Versions.ComparisonIsPreorder` | src/runtime/release.ts:19-46 | the comparison is antisymmetric and transitive, and 0 exactly when core and pre-release agree |
| `Versions.PrecedenceIsTotal` | src/runtime/release.ts:28-45 | precedence is a strict total order of core and pre-release |
| `Versions.ValueIsInjective` | src/runtime/release.ts:10-16 | different numbers without leading zeros have different values |
| `Versions.CheckLatestVersion` | src/runtime/release.ts:158-215 | whatever the registry answers, the report is one that its validator accepts; it is available exactly when both versions are valid, and otherwise the reason tells a timeout, an unreachable registry, a bad answer and a bad running version apart |

## Left out

- The random temporary names of a restoration in the deletion model; `SnapshotCopy` has them. Whether links are supported is a property of the volume there.
- Real I/O, fsync, SQLite, worker threads, HTTP and process handling: they are steps that succeed or fail.
- Directories: created parents and their removal in renames, patches and deletions, emptied parents after a deletion, and the directory bookkeeping and compensations of the installer transaction.
- The write-ahead journal and the fenced file locks (src/intelligence/mutation): begin, record, complete and fail are fallible steps, locks are exclusive access.
- Requests that carry both `preview` and `previewReceipt`, and batches that name one resolved path twice.
- Two operations of one installer transaction that run at the same time on the same file.
- A failing `closeSync` in the lock guard, and the waiting and deadlines of lock acquisition.
- Character classes, negation and escapes in globs, brace groups without a comma, and selectors with empty segments or a leading `./`: a glob is read by its segments, and what Bun.Glob does with those is outside this model.
- Symbolic links, canonical paths and the choice of the anchors of a rule.
- Half-written destinations during an exclusive copy are visible to others; `SnapshotCopy` states what the destination shows at one moment of a successful call, since others may change a published file at once. Reading a whole file for its hash is one step; the stamp comparison around it makes that the same.
- Sweeping of old captures, and the ownership and mode checks of the private snapshot directory.
- Unicode case mapping and spaces beyond ASCII in Windows commands and selectors; string order is by character code, and the locale collation of the shard order is any total preorder.
- Answers of the worker that are neither valid nor invalid: a malformed, unsupported or unavailable one settles a request like an error of the worker.
- The path patterns that tell documentation, tests, source and pinned files apart in a change: the kinds of the changed files are given.
- The POSIX shell analysis, which rests on an external parser.
- `mapConcurrently`, `previewDiff`, formatters, SQL evidence, and the parsing of configuration and version responses from text.
- `PathPolicy.NoRuleIsMissed`: the root "." that stands for the anchor itself is only used for exclusions, as in the code; trees at or above the anchor are always reported.
- `AllowRules.CoversRightlyExactly`: for particular includes other than `**` its condition is sufficient but not necessary, since they may cover no tree that the exclusion reaches.
- `WindowsCommands.CommandListMutates`: with a redirection in the first command, an ampersand or a brace is not covered, since it may belong to the target of the redirection (`2>&1`).
- `PathReports.ReportedExactly`: for rules without exclusions; with them a report may be of a tree in which everything is excluded, since exclusions are compared one by one.
- `ConfigMerge.ProvenanceNamesTheDefiner`: covers settings with a single value; the embedding object as a whole and the path rules have no single defining layer.
- `LaunchReceipts.UninstallGivesBack`: for hosts whose entries do not own their tools; for those that do, see `ToolUninstallGivesBack`.
- `CiSelection.SelectCi`: the texts of reasons are a datatype, and fetching the history from the API is not part of it.
- `ImporterIndex.ReferenceVerification.ImportersFor`: the order of the list, which the code sorts, is not stated.
- `Versions.CheckLatestVersion`: timestamps and the reading of the response are left out; the registry's answer is a text or a kind of failure.
