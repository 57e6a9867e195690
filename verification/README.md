# Drive server: verified models

Dafny models of the parts of the drive server where storage accounting, synchronisation, clean-up and
migration are decided, with proofs about every run or every input. Tables are maps or sequences of rows;
each SQL statement is one atomic step; what a database may choose (the rows a LIMIT lets through, the order
of equal ranks, which calls fail) is left arbitrary and quantified over. `dafny verify dfyconfig.toml` checks
everything.

| file | models |
|---|---|
| `UsageLedger.dfy` | storage usage as a ledger of period deltas against the plain sum of live files |
| `KeysetSync.dfy` | a client paging by (updated_at, uuid) while others write |
| `VersionRetention.dfy` | deleting file versions in re-ranked batches against the one-shot policy |
| `RenameDuplicates.dfy` | the migration that renames duplicate file names |
| `FolderCascade.dfy` | removal spreading down the tree: the recursive trigger, and the batched clean-up job whose updates fire it |
| `FolderSize.dfy` | the recursive size query and the capped statistics |
| `FolderPath.dfy`, `FolderAncestors.dfy` | path resolution and the upward closure |
| `FileLifecycle.dfy` | the file's state machine, its name checks and the outbox of deleted files |
| `BatchedMigration.dfy` | the retrying batch loop shared by three migrations |
| `BinaryConverter.dfy`, `HybridCipher.dfy` | UTF-16 to bytes and back; the hybrid message format |
| `FileDomain.dfy`, `Sums.dfy`, `FiniteSets.dfy`, `Strings.dfy` | shared types; sums over tables; counting sets; splitting strings |

## Where the code does not do what it is for

Each of these is proved, with a condition on the state beforehand under which the code is right; where the lemma
is named `…Iff`, exactly then.

- Deleting an already deleted file through the unfiltered update, or removing the folder it lies in, counts it
  twice in the usage answer (`UsageLedger.DeletingTwiceCountsTwice`, `UsageLedger.MarkedUsageAt`).
- A replacement that goes through versioning, and the restoring of a version, change the size and write no ledger
  row (`UsageLedger.UnrecordedReplacementDrift`, `UsageLedger.RestoredVersionDrift`).
- A deletion the database stamps in the last fraction of a day is lost when that day is closed, because the
  period ends at the day's last millisecond (`UsageLedger.DeletionBeforeMidnightIsLost`,
  `UsageLedger.QueryMovesAnswer`, `UsageLedger.GapIsDeletions`).
- A purge inside the open period changes the usage answer (`UsageLedger.PurgeIsInvisibleIff`).
- A file that leaves a status filter stays in the client's replica (`KeysetSync.EscapedRowStaysStale`,
  `KeysetSync.EventKeepsInvIff`), and a bulk update stamped by the database clock, finer than the cursor's
  millisecond, can make a client read the same page forever (`KeysetSync.BulkFinishesIff`,
  `KeysetSync.DenseNeverFinishes`).
- The exactness flags of the folder statistics do not see folders below level 50
  (`FolderSize.ExactFlagIsHonestIff`).
- Duplicates with a null folder or user are listed but never renamed, because SQL `=` is not true of nulls
  (`RenameDuplicates.CleanUnlessNull`).
- A type of blanks escapes the application's duplicate check; the unique index catches it
  (`FileLifecycle.CheckMissesIff`, `FileLifecycle.CollisionIsRefused`).
- Restoring a version onto a deleted file leaves the outbox without the restored object
  (`FileLifecycle.RestoreKeepsInvIff`).
- The populate loops go on for ever when a whole batch of rows has a null source uuid and no ten calls in a row fail
  (`BatchedMigration.StallsIff`).
- Hybrid encryption throws on every message with a multi-byte character
  (`HybridCipher.EncryptsIffSingleByte`).

A comment at src/modules/usage/usage.service.ts:50 speaks of the next monthly usage; no code in the repository
writes monthly or yearly rows, and the model follows the code.

## Model

| member | source | states |
|---|---|---|
| `UsageLedger.UsageConservation` | src/modules/file/file.usecase.ts:135-192 | after any run of creates, trashes, restores, deletes of every kind, folder removals, replacements, version restores, purges, clock ticks and usage queries that is safe for the user, the incremental answer equals the plain sum of the sizes of the user's files that are not DELETED, and that sum has moved by exactly the sum of what each step adds or takes |
| `UsageLedger.StepMovesLiveUsage` | src/modules/file/file.repository.ts:1095-1246 | what each step does to any user's live usage: trashing, restoring, purging, querying and time leave it as it was, a creation adds its size, a delete takes the live files among the named, a replacement or a restored version the growth of the row found |
| `UsageLedger.StepHasEffect` | src/modules/file/file.repository.ts:1095-1246 | each step written out row by row: which rows of whom change, by owner, uuid and old status, which columns they take, and that every other row and every ledger row is as it was; a replacement's ledger row and the rows of a query with their day, kind and delta |
| `UsageLedger.DayHas24Hours` | src/lib/time.ts:58-71 | a day starts at its midnight, spans 24 hours of microseconds, and its last date is a millisecond before the next |
| `UsageLedger.StepKeepsDrift` | src/modules/file/file.usecase.ts:135-192 | over any ledger, sound or not, a step leaves how far it is off unchanged if and only if the step is `Safe`, a condition on the state before it: apart from recorded replacements it changes no usage at the start of the open period, and a query closes that period only when nothing the database stamped lies in the last fraction of yesterday |
| `UsageLedger.StepConserves` | src/modules/file/file.usecase.ts:135-192 | a sound ledger stays sound under a step if and only if the step is safe |
| `UsageLedger.StepKeepsUsageAt` | src/modules/file/file.repository.ts:1306-1411 | a step leaves usage at an earlier instant, read off the stamps, unchanged if and only if it restamps no sized deletion before it, resizes no row created before it, and destroys no sized deletion after it of a file created before it |
| `UsageLedger.MarkedUsageAt` | migrations/20230511130130-update-mark-deleted-files-v3.js:7 | the same for the status updates; the folder trigger, with neither status filter nor owner, restamps like the unfiltered delete |
| `UsageLedger.RunKeepsDrift` | src/modules/file/file.usecase.ts:135-192 | a safe run leaves every state's ledger as far off as the first: sound if it was sound |
| `UsageLedger.ReportedIsLive` | src/modules/file/file.usecase.ts:135-180 | in both branches the answer is the plain sum plus the drift of the ledger, which is 0 before there is one |
| `UsageLedger.QueryMovesAnswer` | src/modules/file/file.usecase.ts:135-192 | a query changes nobody else's answer, and its own user's by exactly what the gap between the last date of yesterday and midnight holds, when it closes the period; so it changes none if and only if it is safe |
| `UsageLedger.QueryDrifts` | src/modules/file/file.usecase.ts:135-192 | the first row moves no drift, and the backfill row moves its user's by exactly what that gap holds |
| `UsageLedger.GapIsDeletions` | src/modules/file/file.repository.ts:1139-1166 | files being created at application dates, the gap holds nothing if and only if no sized file was deleted by a database stamp in the last fraction of yesterday |
| `UsageLedger.DeletionBeforeMidnightIsLost` | src/modules/file/file.usecase.ts:183-191 | a file the database deleted half a millisecond before midnight: the answer is right before the backfill and too high by its size after it |
| `UsageLedger.BetweenIsDifference` | src/modules/file/file.repository.ts:1306-1362 | the closed-period delta is usage just after the period minus usage at its start, both read off the stamps |
| `UsageLedger.FromIsDifference` | src/modules/file/file.repository.ts:1364-1411 | the open-period delta is the live sum minus usage at its start |
| `UsageLedger.PeriodsTelescope` | src/modules/file/file.repository.ts:1306-1411 | two closed periods and what lies between them add up to one, a closed period and an open one likewise; between adjacent instants lies nothing |
| `UsageLedger.FirstIsUsageAt` | src/modules/usage/usage.repository.ts:38-99 | the first cumulative row is the usage at the start of today |
| `UsageLedger.UsageAtIsHistory` | src/modules/file/file.repository.ts:1306-1411 | usage at any instant no later than now, read from the stamps of any later table, is what the live files really summed to then, if each step since met the condition of `StepKeepsUsageAt` |
| `UsageLedger.DeletingTwiceCountsTwice` | src/modules/file/file.repository.ts:1120-1137 | a concrete table on which deleting an already deleted file, by its user or by removing its folder, makes the answer -5 while the live sum is 0 |
| `UsageLedger.PurgeIsInvisibleIff` | src/modules/file/file.repository.ts:1269-1273 | destroying DELETED rows leaves the answer unchanged if and only if none with a size was created before and deleted inside the open period |
| `UsageLedger.JobPurgeSafety` | src/modules/jobs/tasks/hard-delete-old-files/hard-delete-old-files.processor.ts:49-76 | destroying deletions stamped before a cutoff no later than the open period changes the answer neither now nor in any later state of the run |
| `UsageLedger.PurgeSafety` | src/modules/file/file.repository.ts:1269-1273 | the same for every safe purge, whatever the ledger is off by; the later run need only be safe in the history without the purge |
| `UsageLedger.SafeWhenPurged` | src/modules/file/file.repository.ts:1248-1273 | a step that is safe with the destroyed rows still there is safe without them |
| `UsageLedger.StepKeepsPurged` | src/modules/file/file.repository.ts:1248-1273 | each step, made on both tables, keeps them equal up to DELETED rows left out and their ledgers equal up to deltas |
| `UsageLedger.ReplaceKeepsDrift` | src/modules/usage/usage.service.ts:43-72 | a replacement leaves the ledger as far off as it was exactly when its row is written or not needed |
| `UsageLedger.UnrecordedReplacementDrift` | src/modules/file/actions/create-file-version.action.ts:18-43 | a replacement that writes no ledger row, as a versioned one does, moves the drift by exactly the growth of a file older than the open period, and by nothing for a newer file |
| `UsageLedger.RestoredVersionDrift` | src/modules/file/actions/restore-file-version.action.ts:62-69 | restoring a version, which writes no ledger row and ignores the status, moves the drift by exactly the change of what counted at the start of the open period |
| `UsageLedger.UsageStore.GetUserUsedStorageIncrementally` | src/modules/file/file.usecase.ts:135-180 | returns the live sum plus the drift of the ledger, appends nothing or one daily row for yesterday, with the day, owner and sum written out, and changes somebody's answer if and only if the query was not safe for them |
| `UsageLedger.UsageStore.BackfillUsageUntilYesterday` | src/modules/file/file.usecase.ts:182-192 | closing the open period moves its start to today, its user's answer by exactly what the gap before today holds, and nobody else's |
| `UsageLedger.UsageStore.CreateDailyUsage` | src/modules/usage/usage.service.ts:20-34 | a row for a later day leaves the ledger off by exactly what its delta misses of the usage when that day ends, and other users' ledgers alone |
| `UsageLedger.UsageStore.UpdateFilesStatusToTrashedByUuid` | src/modules/file/file.repository.ts:1095-1118 | exactly the user's named EXISTS files become TRASHED, every other row is as it was, and nobody's live usage or drift moves |
| `UsageLedger.UsageStore.MoveFile` | src/modules/file/file.usecase.ts:1127-1205 | exactly the user's file of that uuid, unless DELETED, becomes EXISTS again, and nobody's live usage or drift moves |
| `UsageLedger.UsageStore.DeleteFilesByUser` | src/modules/file/file.repository.ts:1120-1137 | takes exactly the live files among the named out of the user's usage, and throws off exactly the ledgers for which it is not safe; which rows end up how is written out |
| `UsageLedger.UsageStore.DeleteLiveFiles` | src/modules/file/file.repository.ts:1139-1246 | stamped by the application or by the database, the filtered deletes take exactly the live files among the named out of each owner's usage, and throw off no ledger; which rows end up how is written out |
| `UsageLedger.UsageStore.MarkFilesOfRemovedFolder` | migrations/20230511130130-update-mark-deleted-files-v3.js:7 | takes exactly the folder's live files out of each owner's usage, and throws off exactly the ledgers that had recorded a deletion it stamps again; which rows end up how is written out |
| `UsageLedger.UsageStore.DestroyDeletedFilesByUuids` | src/modules/file/file.repository.ts:1269-1273 | changes nobody's live usage, and throws off exactly the ledgers for which it is not safe; which rows end up how is written out |
| `UsageLedger.UsageStore.CreateFile` | src/modules/file/file.usecase.ts:299-403 | adds its size to its owner's live usage and to nobody else's, and throws off no ledger; which rows end up how is written out |
| `UsageLedger.UsageStore.ReplaceFile` | src/modules/file/file.usecase.ts:984-1075 | resizes only an existing file of the user, writes its row only where one is needed and not skipped, and throws off the ledger exactly when it is not safe; which rows end up how is written out |
| `UsageLedger.UsageStore.RestoreFileVersion` | src/modules/file/actions/restore-file-version.action.ts:62-69 | is refused exactly when the user has no such file, and throws off the ledger exactly when it is not safe; which rows end up how is written out |
| `KeysetSync.SyncProtocol` | src/modules/file/file.usecase.ts:607-655 | in any interleaving of page reads with harmless writes, the client is current at or below its cursor at every step, and the read that answers hasMore = false leaves it owing nothing and holding nothing foreign; written out on the replica: it only ever holds rows of the asking user with the asked status as the table has them, holds all of these up to its cursor, and after the last page all stamped after the asked date |
| `KeysetSync.GetFilesIsLiteral` | src/modules/file/file.usecase.ts:607-655 | in the request's own terms: refused exactly on a garbled token or one of another status; else served are the least, in (updated_at, uuid) order, of the rows of that user and status beyond the position, a page of them or all, hasMore exactly when there are more than a page, and the next position is the last row's, cut to the millisecond |
| `KeysetSync.EventKeepsInvIff` | src/modules/file/file.usecase.ts:607-655 | each event keeps that promise if and only if it is harmless, a condition on the state before it: a held row still matches and a matching row is stamped above the cursor, unless the client has that very row |
| `KeysetSync.RunKeepsInvIff` | src/modules/file/file.usecase.ts:607-655 | the promise holds in every state of a run if and only if every write of the run is harmless |
| `KeysetSync.SyncUnderRisingStamps` | src/modules/file/file.usecase.ts:607-655 | so it does when every write stamps above all earlier ones and moves no row across the filter |
| `KeysetSync.StatementIsHarmlessIff` | src/modules/file/file.repository.ts:1095-1211 | a statement that stamps several rows is harmless exactly when each of its writes is |
| `KeysetSync.SharedStampIsHarmless` | src/modules/file/file.repository.ts:1095-1211 | a statement may stamp any number of rows with one date that lies above every earlier stamp |
| `KeysetSync.UnheldRowIsHarmless` | src/modules/file/file.usecase.ts:626-638 | a row the client does not hold may enter or leave the filter |
| `KeysetSync.SyncedIsEqual` | src/modules/file/file.repository.ts:395-437 | when nothing was destroyed and no row bears the request's own date, a synced replica equals the matching files, as a map |
| `KeysetSync.WriteIsSeenIffAboveCursor` | src/modules/file/file.repository.ts:408-419 | a write leaves the client current up to its cursor if and only if the new key lies above the cursor |
| `KeysetSync.EscapedRowStaysStale` | src/modules/file/file.usecase.ts:626-638 | under a status filter a write that moves a held row out of the filter leaves the client's old copy in place for the rest of the run |
| `KeysetSync.EscapeIsReachable` | src/modules/file/file.usecase.ts:626-638 | that happens from the start: a client of a status filter reads a row, a later write takes it out of the filter, and the replica holds a foreign row |
| `KeysetSync.UnmatchedIsNeverCorrected` | src/modules/file/file.usecase.ts:626-638 | a held row that no longer matches the filter is never corrected by further events on other rows |
| `KeysetSync.PageIsInitialSegment` | src/modules/file/file.repository.ts:395-437 | a page holds the smallest selected keys in order; hasMore means more keys than the page size; everything left over is above the page's last key |
| `KeysetSync.BeyondLast` | src/modules/file/file.repository.ts:408-419 | selecting above a page's last key, without the date test, selects exactly what the page left over |
| `KeysetSync.PagesAreTheOrderedRows` | src/modules/file/file.repository.ts:953-991 | on a fixed table of whole-millisecond stamps, for every page size of at least one, the pages concatenate to exactly the matching keys in (updated_at, uuid) order, each once, and reading stops |
| `KeysetSync.ReadingFinishes` | src/modules/file/file.usecase.ts:632-654 | on a table that stands still a client finishes if every millisecond holding a finer stamp has fewer matching rows than a page; with whole-millisecond stamps, always |
| `KeysetSync.PageAdvances` | src/modules/file/file.usecase.ts:640-648 | under that condition each full page moves the rounded cursor up past at least one row, and selects no row again that lies below it |
| `KeysetSync.BulkFinishesIff` | src/modules/file/file.repository.ts:1139-1166 | over rows stamped together by one reading of the database clock, a client finishes if and only if the stamp is a whole millisecond or the rows fit in one page |
| `KeysetSync.DenseNeverFinishes` | src/modules/file/file.usecase.ts:640-648 | on any table that stands still, a millisecond with a page of finer stamps in it and more than a page of rows from there on is never passed: the client reads for ever |
| `KeysetSync.ReadReads` | src/modules/file/file.usecase.ts:614-654 | a read whose token decodes and carries the request's status stores the page and takes its last key, rounded to the millisecond, as the next cursor; hasMore decides whether there is one |
| `KeysetSync.ReadHasEffect` | src/modules/file/file.usecase.ts:614-654 | a read stores exactly the served rows, leaves all else the client holds, and moves its cursor to the last row served |
| `KeysetSync.WriterHasEffect` | src/modules/file/file.repository.ts:1095-1246 | a writer's event changes the one row it names and nothing of the client's |
| `VersionRetention.VersionStore.ProcessBatchesWithRetry` | src/modules/file/actions/undo-file-versioning.action.ts:65-105 | drains batch after batch with up to three tries each: the count is the number deleted, every deletion is justified, a completed drain leaves every file within the limits and, with distinct times, keeps exactly what the one-shot policy keeps; only existing versions of this user are touched, each becoming DELETED and, if sized, queued once with its own id and size; completed under `All`, the user has no existing version left; a failure means three failing calls in a row |
| `VersionRetention.VersionStore.BatchWithRetries` | src/modules/file/actions/undo-file-versioning.action.ts:75-101 | one batch with its retries: success adds at most a batch of justified deletions of this user's existing versions and nothing else, a short batch means the limits hold, failure deletes nothing and took exactly three failing calls |
| `VersionRetention.VersionStore.DeleteBatch` | src/modules/file/file-version.repository.ts:133-210 | deletes as many as the limit allows of the user's own existing versions that are too old by the days written out or have maxVersions newer ranked before them, or under the unordered query any existing ones; every other row is as it was, and each deleted one with a size is queued once with its network id and size |
| `VersionRetention.VersionStore.SelectBatch` | src/modules/file/file-version.repository.ts:133-210 | the two queries: at most a batch of the versions called for, the lowest ids under the limits |
| `VersionRetention.BatchLaws` | src/modules/file/file-version.repository.ts:133-210 | a batch in terms of the rows alone: whose versions, for what reason, what the outbox gains |
| `VersionRetention.DrainLaws` | src/modules/file/actions/undo-file-versioning.action.ts:65-105 | the same for a whole drain, and that a completed one leaves nothing that was called for |
| `VersionRetention.DrainIsOneShot` | src/modules/file/file-version.repository.ts:163-210 | justified deletions that stop within the limits keep exactly the newest maxVersions non-expired versions of each file, a zero bound being off |
| `VersionRetention.BatchLeavesDoomed` | src/modules/file/file-version.repository.ts:170-194 | with distinct times, after any batch and under any fresh ranking of the rest, the query selects what it selected before less the batch |
| `VersionRetention.DoomedIsOneShot` | src/modules/file/file-version.repository.ts:170-194 | with distinct times the query selects, under any ranking, exactly what the one-shot policy would not keep |
| `VersionRetention.OneShotIsLiteral` | src/modules/file/file-version.repository.ts:163-210 | what the one-shot policy keeps, in terms of the rows: the user's existing versions that are not too old and have fewer than maxVersions newer ones of their file that are not too old |
| `VersionRetention.DrainTakesTheDoomed` | src/modules/file/actions/undo-file-versioning.action.ts:65-105 | a finished drain has deleted exactly what the first query selected before its LIMIT |
| `VersionRetention.BatchLeavesVerdict` | src/modules/file/file-version.repository.ts:186-191 | taking away versions that the one-shot policy would not keep leaves its verdict on the others unchanged |
| `VersionRetention.BatchKeepsJustified` | src/modules/file/file-version.repository.ts:175-193 | a batch keeps every deletion justified, however the database breaks ties in ROW_NUMBER and however late the clock |
| `VersionRetention.TopOutlasts` | src/modules/file/file-version.repository.ts:175-189 | after removing doomed versions, one that was ranked over the cap still has maxVersions at least as new before it |
| `VersionRetention.UndoomedIsWithinLimits` | src/modules/file/file-version.repository.ts:186-191 | when every doomed version is gone, what is left satisfies the limits |
| `VersionRetention.BytesMoveToOutbox` | migrations/20260116154629-deleted-file-versions-function.js:12-36 | the bytes a user's existing versions lose in a deletion are exactly the bytes the outbox gains |
| `VersionRetention.RankingExists` | src/modules/file/file-version.repository.ts:175-178 | every set of versions can be ranked newest first, ties included, so the drain is never vacuous |
| `RenameDuplicates.FilesTable.Up` | migrations/20241001115355-script-to-remove-plain-name-duplicates-files.js:18-93 | terminates; of the keyed groups each later member is renamed to its name followed by a space and a number of 2 or more in parentheses, nothing else changes, and the renamed are unique in their folder; the count is the number of rows to rename; duplicates are left exactly when there were some with a null folder or user |
| `RenameDuplicates.FilesTable.RenameAll` | migrations/20241001115355-script-to-remove-plain-name-duplicates-files.js:18-91 | handles the groups in any order, each once, and renames the sum of (group size - 1) rows, each to its own name with a number of 2 or more |
| `RenameDuplicates.FilesTable.RenameGroup` | migrations/20241001115355-script-to-remove-plain-name-duplicates-files.js:42-87 | renames all members of a group but the lowest id, and no other row: each gets the first number, after its predecessor's and from 2 on, whose name is not in use then |
| `RenameDuplicates.FilesTable.RenameMember` | migrations/20241001115355-script-to-remove-plain-name-duplicates-files.js:53-86 | renames one member to its name with the first free number from the given one on, and returns that number |
| `RenameDuplicates.FilesTable.FreeSuffix` | migrations/20241001115355-script-to-remove-plain-name-duplicates-files.js:59-74 | the unbounded suffix search ends, at the first free suffix |
| `RenameDuplicates.PassesNumber` | migrations/20241001115355-script-to-remove-plain-name-duplicates-files.js:53-86 | the passes over a group give its members these numbers |
| `RenameDuplicates.RenamedIsLiteral` | migrations/20241001115355-script-to-remove-plain-name-duplicates-files.js:18-93 | the whole migration on the rows: which are renamed, to what, and that two rows of one name, type, folder and user are left only where folder or user is null |
| `RenameDuplicates.TakenUsesUpABlocker` | migrations/20241001115355-script-to-remove-plain-name-duplicates-files.js:59-74 | each taken suffix uses up one of the finitely many rows whose name could block |
| `RenameDuplicates.SuffixesDiffer` | migrations/20241001115355-script-to-remove-plain-name-duplicates-files.js:60 | different suffixes give different names |
| `RenameDuplicates.DigitsAreDecimal` | migrations/20241001115355-script-to-remove-plain-name-duplicates-files.js:60 | a number is written in decimal digits without leading zeros |
| `RenameDuplicates.RenameStep` | migrations/20241001115355-script-to-remove-plain-name-duplicates-files.js:76-79 | renaming to a free name makes no new duplicate and preserves all that has been settled |
| `RenameDuplicates.MembersStay` | migrations/20241001115355-script-to-remove-plain-name-duplicates-files.js:43-51 | renaming earlier groups leaves the members of a later group unchanged, so the outer query need not be asked again |
| `RenameDuplicates.DueInGroup` | migrations/20241001115355-script-to-remove-plain-name-duplicates-files.js:54-57 | in a keyed group the rows to rename are all members but the one of lowest id |
| `RenameDuplicates.DuplicateKeys` | migrations/20241001115355-script-to-remove-plain-name-duplicates-files.js:18-25 | lists each repeated (name, normalised type, folder, user) once |
| `RenameDuplicates.PairsLeft` | migrations/20241001115355-script-to-remove-plain-name-duplicates-files.js:45-50 | a pair still collides afterwards exactly when it did before with a null folder or user |
| `RenameDuplicates.CleanUnlessNull` | migrations/20241001115355-script-to-remove-plain-name-duplicates-files.js:18-93 | the table is free of duplicates afterwards exactly when none had a null folder or user |
| `FolderCascade.CascadeIsClosure` | src/modules/folder/folder.repository.ts:1121-1221 | any run of select-and-mark batches, whatever was selected and whether or not the trigger fires, is no longer than the number of live folders, and once nothing is selected the removed folders are exactly those at or below an initially removed one |
| `FolderCascade.BatchKeepsClosure` | src/modules/folder/folder.repository.ts:1200-1221 | marking the children of selected folders, with or without the trigger, moves no folder into or out of the closure |
| `FolderCascade.BatchShrinksLive` | src/modules/folder/folder.repository.ts:1200-1221 | a non-empty batch strictly shrinks the live folders |
| `FolderCascade.RunBound` | src/modules/folder/folder.repository.ts:1121-1221 | after k batches at least k folders fewer are live, and the closure is the same |
| `FolderCascade.PlainBatchesAreRun` | src/modules/folder/folder.repository.ts:1121-1221 | the select and the update alone, whatever is selected, make such a run |
| `FolderCascade.PlainBatchSpreads` | src/modules/folder/folder.repository.ts:1200-1221 | the update alone removes, deletes and stamps exactly the live children of the batch and leaves every other row |
| `FolderCascade.FolderStore.Remove` | migrations/20230511130130-update-mark-deleted-files-v3.js:4-12 | the recursive trigger ends on an acyclic tree, removes the folder and what lies below it along live folders, leaving none of these a live child, and marks exactly the files of the newly removed folders |
| `FolderCascade.FolderStore.MarkChildFoldersAsRemoved` | src/modules/folder/folder.repository.ts:1200-1221 | one statement with the trigger firing for each row, in any order: its rows take its columns, all below them along live folders only the trigger's, and the files of all of these are deleted |
| `FolderCascade.FolderStore.FoldersPhase` | src/modules/jobs/tasks/deleted-items-cleanup/deleted-items-cleanup.processor.ts:117-176 | handles each folder selected at its start once, never trips the repeated-folder check, and sweeps away everything below the folders in the window, files included |
| `FolderCascade.FolderStore.FilesPhase` | src/modules/jobs/tasks/deleted-items-cleanup/deleted-items-cleanup.processor.ts:117-159 | handles each folder with live files once, never trips the check, deletes exactly those files and leaves none directly in a removed folder of the window |
| `FolderCascade.FolderStore.ProcessFiles` | src/modules/file/file.repository.ts:1168-1191 | one batch of the files phase marks the files of its folders and is not stuck |
| `FolderCascade.FolderStore.CleanUp` | src/modules/jobs/tasks/deleted-items-cleanup/deleted-items-cleanup.processor.ts:41-88 | a whole run never gets stuck; of the removed folders with a live child, and of those with a live file, exactly the ones outside the window are left. Row by row: exactly the live children of removed folders updated in the window, start inclusive and end exclusive, and the folders below them along live ones, have been removed, the children with all columns of the statement, the others with `removed` alone; exactly the files of the folders just removed and the live files of the folders in the window have been deleted |
| `FolderCascade.CleanUpIsLiteral` | src/modules/folder/folder.repository.ts:1121-1221 | what the two phases leave, written out row by row in this way |
| `FolderCascade.SweptSelection` | src/modules/folder/folder.repository.ts:1121-1158 | what a batch and the trigger remove takes exactly the handled folders out of every selection and puts none in |
| `FolderCascade.SweepsCompose` | migrations/20230511130130-update-mark-deleted-files-v3.js:6-9 | sweeping from some folders and then from others is sweeping from all of them |
| `FolderCascade.OneRunSettlesIff` | src/modules/jobs/tasks/deleted-items-cleanup/deleted-items-cleanup.processor.ts:41-71 | one run leaves no removed folder with a live child if and only if every such folder lay in its window |
| `FolderCascade.OneRunIsClosure` | src/modules/jobs/tasks/deleted-items-cleanup/deleted-items-cleanup.processor.ts:41-71 | such a run has removed exactly what lies at or below a removed folder |
| `FolderCascade.OneRunReaches` | src/modules/jobs/tasks/deleted-items-cleanup/deleted-items-cleanup.processor.ts:41-71 | any run removes exactly what live folders connect to a child of a folder in the window |
| `FolderCascade.RunsSettleTheirWindows` | src/modules/jobs/tasks/deleted-items-cleanup/deleted-items-cleanup.processor.ts:41-71 | after any number of runs the folders still unsettled are exactly the initial ones that no window held |
| `FolderCascade.ChildCascades` | migrations/20230511130130-update-mark-deleted-files-v3.js:6-9 | the cascades of the children, one after another, compose to the cascade of the parent |
| `FolderCascade.TriggerIsClosure` | migrations/20230508161549-mark-deleted-files-v3.js:14-19 | where no live folder sits under a removed one, one update removes exactly the subtree |
| `FolderCascade.TriggerAgreesWithBatches` | src/modules/folder/folder.repository.ts:1121-1221 | the trigger and the drained batches remove the same folders |
| `FolderSize.FolderSizeIsStructural` | src/modules/folder/folder.repository.ts:985-1045 | on a forest of fewer levels than the guard allows the level-by-level query equals own files plus the sum over live children of the same owner |
| `FolderSize.ChildrenAreLive` | src/modules/folder/folder.repository.ts:1008-1018 | the recursive term joins a folder with the owner's folders under it that are neither removed nor deleted, each as often as it occurs |
| `FolderSize.StartIsLive` | src/modules/folder/folder.repository.ts:996-1004 | the walk starts at a folder of that uuid that is neither removed nor deleted, and nowhere when there is none |
| `FolderSize.OwnSizeIsLiteral` | src/modules/folder/folder.repository.ts:985-1045 | a folder's own size is that of its existing files, and with the trash that of its trashed ones besides |
| `FolderSize.TrashAddsTrashed` | src/modules/folder/folder.repository.ts:985-1045 | the size of a folder with the trash is its size without it plus what lies trashed anywhere in the walk |
| `FolderSize.SizeWithinIsStructural` | src/modules/folder/folder.repository.ts:994-1025 | the same for any guard |
| `FolderSize.WalkIsStructural` | src/modules/folder/folder.repository.ts:995-1019 | on any table, cyclic or not, summing over the walk equals the structural recursion cut at the same depth |
| `FolderSize.DeepEnough` | src/modules/folder/folder.repository.ts:1015-1018 | on a forest a cut below the lowest folder cuts nothing |
| `FolderSize.StatsAreCapped` | src/modules/folder/folder.repository.ts:1047-1119 | whichever rows LIMIT keeps: fileCount is the smaller of the count within the level cap and the file cap; the flags are set exactly when nothing was cut and the last level holds no file; then count and size are those of the walk |
| `FolderSize.CalculateFolderStatsIsCapped` | src/modules/folder/folder.repository.ts:1053-1118 | with 1000 files and 50 levels: the count is the smaller of the count within 50 levels and 1000, the flags are set exactly when that is at most 1000 and level 50 holds no file, and then count and size are those of the walk |
| `FolderSize.CountIsCappedTruth` | src/modules/folder/folder.repository.ts:1047-1118 | with no live folder below the capped level, fileCount is the smaller of the true count and the cap |
| `FolderSize.ExactFlagIsHonestIff` | src/modules/folder/folder.repository.ts:1109-1118 | when the flags claim exactness, the count is the true count if and only if no folder below the capped level holds an existing file |
| `FolderSize.ExactFlagCanMislead` | src/modules/folder/folder.repository.ts:1109-1118 | a chain of folders on which the flags claim an exact 0 although a file lies one level below the cap |
| `FolderSize.ExactTotalIsFolderSize` | src/modules/folder/folder.repository.ts:1108-1118 | with the flags set and no live folder below the cap, totalSize equals the folder size without the trash |
| `FolderSize.AllMatchesAdd` | src/modules/folder/folder.repository.ts:1082-1094 | the join counts and sums exactly what the walk visits and reaches the last level exactly when that level holds a file |
| `FolderSize.OwnCountIsLiteral` | src/modules/folder/folder.repository.ts:1082-1094 | only existing files are counted |
| `FolderPath.PrintThenResolve` | migrations/20241007154046-add-find-folder-by-path-function.js:7-46 | with live siblings uniquely named, joining the proper names on a folder's live chain and resolving from the root returns that folder |
| `FolderPath.ResolveThenPrint` | migrations/20241007154046-add-find-folder-by-path-function.js:7-46 | a path resolves only to the end of a live chain whose names are the path's segments |
| `FolderPath.ResolvesIff` | migrations/20241007154046-add-find-folder-by-path-function.js:7-46 | from a folder of the user, with live siblings uniquely named, a path resolves to a folder if and only if a chain of the user's folders, neither deleted nor removed, spells the path down to it |
| `FolderPath.ForeignRootLeadsNowhere` | migrations/20241007154046-add-find-folder-by-path-function.js:14-27 | from a missing or foreign folder the empty path leads nowhere |
| `FolderPath.ResolutionFollowsSegments` | migrations/20241007154046-add-find-folder-by-path-function.js:7-46 | for every string the recursion terminates and follows the non-empty segments, to nothing when one is missing |
| `FolderPath.NullLeadsNowhere` | migrations/20241007154046-add-find-folder-by-path-function.js:38-45 | the missing early return is harmless: a null parent leads to the empty result whatever path is left |
| `FolderPath.SegmentsOfJoin` | migrations/20241007154046-add-find-folder-by-path-function.js:14-27 | the segments of joined proper names are those names |
| `FolderPath.ChainIsFollowed` | migrations/20260320041508-create-unique-index-folders-parentuuid-plainname.js:11-13 | under the unique index, following a chain's names reaches its end |
| `FolderPath.FollowedIsChain` | migrations/20241007154046-add-find-folder-by-path-function.js:29-36 | names that lead somewhere lead along a live chain |
| `FolderAncestors.GetFolderAncestors` | migrations/20231031141235-get-folders-ancestors-function.js:12-25 | the UNION recursion terminates on any finite table, cyclic or not, with exactly the folders reachable upward through non-removed folders of the user: the start unless it is removed, whoever owns it, and with each member its parent exactly when that is a non-removed folder of the user |
| `FolderAncestors.ClosedIsAll` | migrations/20231031141235-get-folders-ancestors-function.js:13-24 | a set of reachable folders closed under the join is all of them |
| `FolderAncestors.AncestorsAreTheChain` | migrations/20231031141235-get-folders-ancestors-function.js:13-24 | on a tree the result is exactly the chain upward up to the first removed or foreign folder, and nothing for a removed start |
| `FolderAncestors.ChainIsLiteral` | migrations/20231031141235-get-folders-ancestors-function.js:13-24 | the chain goes up parent by parent through non-removed folders of the user and stops only where the parent is none, missing, removed or foreign |
| `FileLifecycle.RunKeepsInv` | src/modules/file/file.usecase.ts:299-403 | in every state of every lawful run: removed implies DELETED, size 0 exactly when the file id is null, no two existing files of a user share folder, name and type, the outbox holds exactly the DELETED files with content under their ids; entries are never rewritten |
| `FileLifecycle.StepKeepsInv` | src/modules/file/file.usecase.ts:984-1056 | each use case and each bulk update keeps that invariant, refusing or accepting |
| `FileLifecycle.DeletedIsNeverLeft` | src/modules/file/file.repository.ts:1095-1246 | no step takes a file out of DELETED, and no lawful step changes the network id of a DELETED file |
| `FileLifecycle.StepQueuesExactly` | migrations/20260803124327-create-deleted-files-new-table.js:59-67 | a step enqueues exactly the files with content that it turns DELETED, carrying the id they had, and rewrites no entry |
| `FileLifecycle.RunQueuesExactly` | migrations/20260803124327-create-deleted-files-new-table.js:59-67 | over a whole run a file not queued before ends up queued under an id if and only if some step turned it DELETED while it carried that id |
| `FileLifecycle.TurnsOnce` | migrations/20260803124327-create-deleted-files-new-table.js:59-67 | in a run no file is turned DELETED, and so queued, at two steps |
| `FileLifecycle.RepeatIsRefused` | src/modules/file/file.usecase.ts:1157-1176 | an accepted move or renaming leaves the file existing under the asked name, type and folder, touches no other row, and makes the same request conflict when repeated |
| `FileLifecycle.SecondCreateIsRefused` | src/modules/file/file.usecase.ts:329-338 | after an accepted creation a second one of the same name is a conflict, or a unique violation when the type is blanks |
| `FileLifecycle.DeletedIsRefused` | src/modules/file/file.usecase.ts:199-207 | the owner's changes to a DELETED file are refused and change nothing; deleting it again goes through exactly when removed is unset |
| `FileLifecycle.CheckMissesIff` | src/modules/file/file.repository.ts:343-365 | the application check finds every collision unless the asked type is a non-empty string of blanks, which is looked up as no type but stored as it came |
| `FileLifecycle.CollisionIsRefused` | migrations/20241001120044-create-index-plainname-folderid-type-exists-unique-files.js:7-11 | the check and the unique index together refuse every row that would collide |
| `FileLifecycle.BulkKeepsInv` | src/modules/file/file.repository.ts:1095-1246 | every status-changing update keeps the rows sound, the names unique and the outbox exact |
| `FileLifecycle.RestoreKeepsInvIff` | src/modules/file/actions/restore-file-version.action.ts:62-69 | restoring a version keeps the invariant if and only if the version has an id exactly when it has content and a DELETED file gets back its own id |
| `FileLifecycle.FileStore.FileDeletedTrigger` | migrations/20260803124327-create-deleted-files-new-table.js:59-67 | fired for an update that neither revives the row nor, deleting it, changes its id, it keeps the outbox exact |
| `FileLifecycle.FileStore.BulkUpdateFiles` | src/modules/file/file.repository.ts:1095-1246 | row after row in any order, with the trigger firing for each, equals the update of all selected rows at once; the count is the number selected; for each of the seven statements it is written out which rows, by owner, uuid, folder and old status, end with which status and `removed`, and that every other row is as it was |
| `FileLifecycle.BulkIsLiteral` | src/modules/file/file.repository.ts:1095-1246 | the same for the statement as a step of the state machine, for all seven |
| `FileLifecycle.FileStore.CreateFile` | src/modules/file/file.usecase.ts:299-403 | refuses with the error of the first check that fails and no change, or inserts the row; the uuid being fresh it keeps the invariant, and it queues nothing; a foreign folder is forbidden and one's own is not; the new row carries the asked user, folder, name, type, size and id |
| `FileLifecycle.FileStore.UpdateFileMetaData` | src/modules/file/file.usecase.ts:445-510 | the same for renaming, with name and type normalised first and the file itself counting as a collision; the invariant is kept; what is not asked for keeps its name or type, and folder, size and network id stay |
| `FileLifecycle.FileStore.ReplaceFile` | src/modules/file/file.usecase.ts:984-1056 | the same for replacement: only an existing file, and an empty one loses its file id; the invariant is kept; a non-empty replacement takes the new id and size |
| `FileLifecycle.FileStore.RestoreFileVersion` | src/modules/file/actions/restore-file-version.action.ts:22-76 | refuses a missing file or version, another file's version and a deleted one; done, it keeps the invariant if and only if the version was restorable; the file takes the version's size and id and keeps all else |
| `FileLifecycle.FileStore.MoveFile` | src/modules/file/file.usecase.ts:1127-1205 | the same for moving: a trashed file comes back to EXISTS, a DELETED one is refused; the invariant is kept; a foreign folder is forbidden and one's own is not; the file takes the folder, and name, size and network id stay unless a name is asked |
| `FileLifecycle.FileStore.DeleteFilePermanently` | src/modules/file/file.usecase.ts:194-230 | a file that is missing or removed is not found, a foreign one forbidden, and otherwise the file is deleted; it keeps the invariant and queues exactly that file if it was not DELETED and has content; done, the file is DELETED and removed and every other row is as it was |
| `FileLifecycle.UseCaseIsLiteral` | src/modules/file/file.usecase.ts:194-230 | all six use cases in the terms of the request and the row found: each answer with the exact condition it is given on, and what the row becomes |
| `FileLifecycle.SpacesAreTrimmed` | src/lib/validators.ts:5-6 | the blanks are exactly the white space characters that trimming removes |
| `BatchedMigration.StallsIff` | migrations/20250508230425-populate-folder-uuid-files-table.js:35-58 | whatever fails and whatever each LIMIT returns, the loop completes only if fewer rows than a batch have a null source uuid; unless ten calls in a row fail, that is also exactly when it ends at all |
| `BatchedMigration.Table.Up` | migrations/20260219134231-fix-zero-size-files-with-fileid.js:34-60 | on every table and database on which the loop ends: every exit but the tenth failure in a row leaves no fillable row selected; only selected rows are filled, and the total counts them |
| `BatchedMigration.Table.RunLoop` | migrations/20250617204500-populate-fileuuids-in-thumbnails-batch.js:35-61 | whenever the loop as a machine stops, the do/while loop over the table stops with its outcome, table, calls and total |
| `BatchedMigration.LoopIsSound` | migrations/20250617204500-populate-fileuuids-in-thumbnails-batch.js:35-61 | after any number of passes exactly some selected rows are filled, failures in a row are counted, and stopping means all filled or ten failures |
| `BatchedMigration.LoopStops` | migrations/20260219134231-fix-zero-size-files-with-fileid.js:34-60 | with fewer null-source rows than a batch the loop stops |
| `BatchedMigration.MigrationsAreWellPosed` | migrations/20250617204500-populate-fileuuids-in-thumbnails-batch.js:15-29 | the three batch updates take a row out of their selection unless its source uuid is null, and the zero-size one always does |
| `BatchedMigration.FixZeroSizeDid` | migrations/20260219134231-fix-zero-size-files-with-fileid.js:20-32 | having handled all it selects it leaves no file of size 0 that is not DELETED an id, and every other row as it was |
| `BatchedMigration.PopulateFolderUuidDid` | migrations/20250508230425-populate-folder-uuid-files-table.js:14-29 | having handled all it selects it has given each file without a folder uuid the uuid of the folder of its own folder id, and no other row anything |
| `BatchedMigration.PopulateFileUuidDid` | migrations/20250617204500-populate-fileuuids-in-thumbnails-batch.js:15-29 | the same for thumbnails and the files of their file ids |
| `BinaryConverter.ConvertStringToBinary` | src/lib/binary-converter.ts:1-12 | the loops over the typed arrays produce the low-byte-first bytes of the string as characters: character 2i is unit i modulo 256 and character 2i + 1 its quotient |
| `BinaryConverter.GetStringFromBinary` | src/lib/binary-converter.ts:14-25 | reads the truncated bytes back as 16-bit units, and throws on an odd length: unit k is the low byte of character 2k plus 256 times that of character 2k + 1 |
| `BinaryConverter.StringRoundTrip` | src/lib/binary-converter.ts:1-25 | every UTF-16 string survives conversion there and back |
| `BinaryConverter.BinaryRoundTripIff` | src/lib/binary-converter.ts:1-25 | an even-length binary string survives the other way round if and only if all its characters are bytes |
| `HybridCipher.XORhex` | src/externals/asymmetric-encryption/utils.ts:22-34 | throws exactly on unequal lengths, and otherwise XORs digit by digit |
| `HybridCipher.XorAllIsLiteral` | src/externals/asymmetric-encryption/utils.ts:22-34 | each digit of the result is the lowercase digit whose four bits are those of the two values added without carry |
| `HybridCipher.HexValueIsLiteral` | src/externals/asymmetric-encryption/utils.ts:29-32 | digits are read in either case, anything else as 0, and written in lower case |
| `HybridCipher.XorAllUndoes` | src/externals/asymmetric-encryption/utils.ts:22-34 | on lowercase hex the mask is length-preserving, stays hex and is its own inverse |
| `HybridCipher.HexRoundTrip` | src/externals/asymmetric-encryption/asymmetric-encryption.service.ts:96 | every byte string survives hex encoding and decoding |
| `HybridCipher.ToHexIsLiteral` | src/externals/asymmetric-encryption/asymmetric-encryption.service.ts:96 | a byte is written as two lowercase digits, the high one first |
| `HybridCipher.Base64RoundTrip` | src/externals/asymmetric-encryption/asymmetric-encryption.service.ts:107-110 | base64 of section 4 of RFC 4648 undone by its decoder, and no '$' in it |
| `HybridCipher.ToBase64IsLiteral` | src/externals/asymmetric-encryption/asymmetric-encryption.service.ts:107-110 | the text is made of the groups of the bytes taken three by three, in order |
| `HybridCipher.GroupIsLiteral` | src/externals/asymmetric-encryption/asymmetric-encryption.service.ts:107-110 | a group is its bytes as one number written to the base 64, missing digits as '=' |
| `HybridCipher.Digit64IsLiteral` | src/externals/asymmetric-encryption/asymmetric-encryption.service.ts:107-110 | the alphabet: upper-case letters, lower-case letters, digits, plus and slash |
| `HybridCipher.FrameSplits` | src/externals/asymmetric-encryption/asymmetric-encryption.service.ts:139-151 | splitting the framed message at '$' gives back its three parts |
| `HybridCipher.HybridEncrypt` | src/externals/asymmetric-encryption/asymmetric-encryption.service.ts:77-115 | a plain message is the ciphertext alone; a hybrid one is `SHlicmlkTW9kZQ==`, the Kyber ciphertext and the ciphertext of the masked bytes with '$' between, digit by digit the bytes' halves flipped by the secret's; it throws exactly when the hash does or gives a secret not as long as the bytes |
| `HybridCipher.HybridDecrypt` | src/externals/asymmetric-encryption/asymmetric-encryption.service.ts:127-177 | the inverse: chooses the mode by the prefix, and throws on a missing key, a short frame or masked text of odd length |
| `HybridCipher.ModeIsLiteral` | src/externals/asymmetric-encryption/asymmetric-encryption.service.ts:127-160 | text is taken as hybrid exactly when it reads `SHlicmlkTW9kZQ==` up to its first '$'; then a missing key or part throws; all other text is decrypted whole |
| `HybridCipher.EncryptsIffSingleByte` | src/externals/asymmetric-encryption/asymmetric-encryption.service.ts:94-98 | a non-empty message can be hybrid-encrypted if and only if all its characters take one byte in UTF-8 |
| `HybridCipher.HybridRoundTrip` | src/externals/asymmetric-encryption/asymmetric-encryption.service.ts:77-177 | decrypting with the matching keys returns the message; without the Kyber key it throws |
| `HybridCipher.PlainRoundTripIff` | src/externals/asymmetric-encryption/asymmetric-encryption.service.ts:77-177 | without Kyber a message comes back if and only if its ciphertext does not spell the hybrid prefix |

## Left out

- Controllers, guards, module wiring, mail, cache, payments and the network store: no state that the
  properties are about. Limits on empty and large files and the outcome of a folder lookup enter as parameters.
- Database concurrency, replicas, transactions and time-outs: each statement is atomic.
- Monthly and yearly usage rows and the aggregate's exclusions for them: nothing in the repository writes such rows.
- Calendar arithmetic: instants are integer microseconds; the ledger counts whole days from a fixed origin.
- The base64 and JSON coding of the sync cursor: a token is its value or garbled.
- AES, OpenPGP, Kyber and blake3: parameters with inverse and length laws. The empty hybrid message is left out,
  because it asks the hash for zero bits.
- Thumbnails, sharings, favourites, workspace joins and the look-up table's triggers.
- Setting `removedAt`, `deletedAt`, `modificationTime` and, in the zero-size migration, `updated_at`: no modelled query
  of theirs reads these.
- FolderCascade.FolderStore.CleanUp: asks for a tree without cycles, on which alone the trigger's recursion ends, and takes a folder's id and uuid parent links, which name the same parent, as one.
- The retroactive clean-up task, which runs the same selections per user without a window's start.
- VersionRetention.VersionStore.ProcessBatchesWithRetry: with a batch size of 0 asks for three failures in a row, because otherwise the loop never ends.
- BatchedMigration.Table.Up: asks that the loop end, which `StallsIff` decides.
- FileLifecycle.RunKeepsInv: takes a new file's uuid to be fresh, as version 4 uuids are taken to be, and versions to be restored where they may be, which `RestoreKeepsInvIff` shows to be necessary.
- UsageLedger.PurgeSafety: takes a new file's uuid to be fresh, uuids to be unique, as the primary key makes them, and files to be created at application dates, as createFile does.
- FileLifecycle.FileStore.ReplaceFile: one write stands for the versioned and the plain branch, which write the same size and id; the version row is not part of this model.
- RenameDuplicates.FilesTable.FreeSuffix: counts without bound, where the suffix of the database function is a 32-bit integer.
- KeysetSync.SyncProtocol: says what is promised as long as every write is harmless; `RunKeepsInvIff` shows that no other run keeps the promise throughout, `EscapedRowStaysStale` what follows.
- `findExpiredVersionIdsByTierLimits`, trash expiry by tier beyond its update, index-only and seed migrations,
  `get_folder_ancestors_excluding_root_children`: they would add only easier members of the same kinds.
