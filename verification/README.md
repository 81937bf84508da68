# Verified models of the desktop app's small protocols and algorithms

The repository has no single engine. Its hard parts are short protocols that race, crash or call back into
themselves, and short algorithms with an unbounded domain. Each module below models one of them in Dafny and proves
what it is for. `dafny verify dfyconfig.toml` checks everything.

| module | what it is about |
|---|---|
| `ActiveView` | the preference file written by debounced asynchronous writers and by a synchronous flush that vetoes a parked rename |
| `LocalFs`, `Promotion`, `PromotionRun`, `Promoter` | publishing a downloaded folder without overwriting anything, and rolling back among other processes |
| `KeyPair` | one key for any number of processes, by a lock file, a double-checked read and an atomic rename |
| `DurableWrite` | replacing a file so that a crash at any step shows the old or the new version |
| `WindowsArgs` | a Windows command line that parses back into the arguments it was built from |
| `EditDistance`, `Suggestions` | the edit distance and the command suggestions ranked by it |
| `SleepAssertion` | a supervised helper process with back-off, and the service it calls back re-entrantly |
| `AccessTree` | rendering an accessibility tree under a budget, and finding a rendered element again |
| `DirTree`, `RenameMutex` | renames of files, folders and links that take turns by destination parent, over a tree with real paths |
| `BashPrompt` | chunked scans that make parts of PROMPT_COMMAND safe to join |
| `Calendar`, `CliFlags`, `ParseArgs` | command-line parsing, its flag readers, and the due-date flag over ECMA-262 date arithmetic |
| `EntryGuard` | the build guard over reachable chunks |
| `ReadyScanner` | recognising a sequence in output cut into chunks |

How the models are built. Code that changes state is a class whose methods have the source's branches; each method is
proved equal to a step function on a datatype `State` (or extends a ghost record of the run), and the properties are
proved of all runs of those steps. An asynchronous function is cut at its awaits, so that every interleaving the
source allows is a sequence of steps. Failures, short reads and writes, the clock, other processes and crashes are
arguments of the steps or nondeterministic choices in the methods; no assumption is made about which of them happen
unless a lemma's `requires` says so. Loops of the source are loops with invariants.

Results that differ from what the code's comments suggest, each with an input or a family of inputs that shows it and
with the condition under which the code does keep its promise:

- A synchronous flush that trusts its marker can leave an outdated view on disk for good: `FlushCanLeaveStaleFile`
  gives the run, `FlushIsStaleIff` and `OvertakenIff` say exactly when, and `FlushIsCurrentWhenNoSaveIsArmed` gives a
  condition that a caller can check beforehand.
- A failed promotion is undone completely if and only if every entry it created was logged and the state of a partly
  written file could be read back (`RollbackRestoresIff`). `UnloggedFolderIsLeft`, `UnloggedFileIsLeft` and
  `StaleFileIsLeft` show a failing run of every promotion that could have succeeded.
- What a failed promotion had already moved is gone from both places after its rollback: `RollbackLosesIff` says of
  every file whether it is, `StoppedPromotionLosesFile` gives the run.
- The key in use can be replaced after one garbled read by the holder of the lock: `ReturnedKeyCanBeReplaced` gives
  the run from the start, `ChecksProperlyIff` the condition in each state, and `PersistsNeedGarbledReads` bounds what
  can happen in runs of any kind.
- Without the directory sync a committed replacement may be lost in a crash (`UnsyncedRenameMayBeLost`), and the next
  one under the same temporary name may empty the file (`FixedNameMayEmptyFinal`); `ReadyAfterCrashIff` says when the
  next one is safe.
- Two renames without any other writer can lose a file when one of them moves a folder onto the missing parent of the
  other's destination: `TwoCallsLoseFile`. `NoFileIsLost` is about all runs in which that does not happen,
  `OverwritesIffHeld` and `OverwritesIffFolderHolds` say of the state before when the other call overwrites, and
  `RunLosesIff` of the whole run when it loses something.
- `truncated` may be reported although nothing is missing: `TruncatedIff` says exactly when, `CompleteIff` when
  nothing is missing.
- A status at the very moment it lapses still keeps the machine awake and has no timer: `LapseIsTimedIff`.
- `--name value` can parse differently from `--name=value` behind a bare flag when another bare flag came before the
  command word (`SeparateDiffersBefore`), and before the command word itself, where a flag leaves a registered command
  alone (`BareFlagBeforeCommand`). Once a word has been read, and where the flags before it were judged alike
  on both lines, it does not: `SeparateIsJoinedWhereAnswersAgree`, `SeparateIsJoined`. That condition is not necessary,
  since two command lines can also agree by chance.

## Model

| member | source | states |
|---|---|---|
| ActiveView.SetKeepsInv | src/main/active-view-preference.ts:59-88 | a `set`, with the debounce it arms, keeps the invariant of the preference |
| ActiveView.TimerKeepsInv | src/main/active-view-preference.ts:84-104 | so does the timer that queues a writer at the end of the promise chain |
| ActiveView.ChecksKeepsInv | src/main/active-view-preference.ts:112-118 | so does the generation guard, past which the writer is parked on its rename |
| ActiveView.RenameKeepsInv | src/main/active-view-preference.ts:119-132 | so does the operating system's rename, whether it lands, finds no temporary file or fails |
| ActiveView.ContinuesKeepsInv | src/main/active-view-preference.ts:121-137 | so does the writer's continuation after the rename, which takes over the marker only under its own generation |
| ActiveView.FlushKeepsInv | src/main/active-view-preference.ts:145-177 | so does a synchronous flush with any of its failures, also while a writer is parked |
| ActiveView.StepKeepsInv | src/main/active-view-preference.ts:59-234 | every event keeps the invariant |
| ActiveView.RunKeepsInv | src/main/active-view-preference.ts:59-234 | every run keeps the invariant and only appends to what has landed |
| ActiveView.LandingsIncrease | src/main/active-view-preference.ts:90-177 | in every run, with failures anywhere, the generations that land in the file strictly increase |
| ActiveView.NothingStaleLandsAfterFlush | src/main/active-view-preference.ts:145-177 | after a flush through its write path the file holds the active view, and in every continuation only later requests land |
| ActiveView.CleanRunConverges | src/main/active-view-preference.ts:59-234 | a run without I/O failures in which no flush cancels a save always has the active view written, being written or about to be queued |
| ActiveView.CleanRunsSettleOnActiveView | src/main/active-view-preference.ts:59-234 | when such a run with at least one `set` goes idle, file and marker hold the active view and no temporary file is left |
| ActiveView.FlushFreeRunsSettleOnActiveView | src/main/active-view-preference.ts:59-143 | the same for every run without flushes and I/O failures |
| ActiveView.RestartResumes | src/main/active-view-preference.ts:47-53 | a preference opened on the file that such a run has left starts on the view the run ended with, whatever the legacy view says |
| ActiveView.ViewsOnlyFromSets | src/main/active-view-preference.ts:59-73 | in every run the active view is the one set last, or the initial one if none was set |
| ActiveView.WriterAlwaysSettles | src/main/active-view-preference.ts:90-142 | whatever fails and wherever it stands, the writer at the front leaves the chain, and the last one clears the pending write |
| ActiveView.FlushCanLeaveStaleFile | src/main/active-view-preference.ts:122-156 | a concrete run after which a flush writes nothing and neither `set` nor another flush ever corrects the file |
| ActiveView.FlushIsCurrentWhenNoSaveIsArmed | src/main/active-view-preference.ts:145-177 | after a clean run with no save armed, a fault-free flush leaves the active view in the file |
| ActiveView.FailedVetoStillWrites | src/main/active-view-preference.ts:159-168 | a flush that cannot remove a parked writer's file has queued the active view behind that writer, and if nothing fails any more that view is in the file in the end |
| ActiveView.VetoOnce | src/main/active-view-preference.ts:159-172 | a parked writer is vetoed once: a second flush does not depend on removing its file again |
| ActiveView.FileIsMarkerUnlessOvertaken | src/main/active-view-preference.ts:121-137 | in every run, failures included, with no writer left the file holds what the marker says, or the view of the last overtaken writer if nothing has been confirmed since |
| ActiveView.FlushIsStaleIff | src/main/active-view-preference.ts:149-156 | in every run, failures included, a fault-free flush leaves the file outdated if and only if it trusts the marker while the view of an overtaken writer, not the active one, stands in the file |
| ActiveView.OvertakenIff | src/main/active-view-preference.ts:122-137 | what overtaken means of a whole run: some writer continued after its landing to find a newer generation, and nothing after that was overtaken or confirmed |
| ActiveView.DrainedWriteIsCurrent | src/main/active-view-preference.ts:213-234 | in a clean run, when the write a drain awaited has settled under the newest generation, the file holds the active view |
| ActiveView.DrainedFileIsCurrent | src/main/active-view-preference.ts:213-234 | a drain that ends in a clean run leaves the active view in the file, however often it went round and however it ended |
| ActiveView.QuitDrainTakesOneTurn | src/main/active-view-preference.ts:179-234 | the drain of the quit flush is over, or aborted, as soon as the write of its first turn has settled |
| ActiveView.QuitIsFinal | src/main/active-view-preference.ts:75-79 | the quit flush latches for good, and after it a `set` changes the view alone and a flush nothing |
| ActiveView.QuitDrainNeedsOnePass | src/main/active-view-preference.ts:75-79 | once the quit flush has begun nothing else raises the generation or arms a timer |
| ActiveView.ActiveViewPreference.constructor | src/main/active-view-preference.ts:47-53 | the active view is the stored one if there is one, else the legacy one, else the terminal; the marker is what was stored; nothing is armed, queued or latched |
| ActiveView.ActiveViewPreference.Set | src/main/active-view-preference.ts:59-73 | is the step `SetView` and tells whether the view changed |
| ActiveView.ActiveViewPreference.ScheduleSave | src/main/active-view-preference.ts:75-88 | raises the generation and arms the timer unless the quit flush has begun |
| ActiveView.ActiveViewPreference.OnTimer | src/main/active-view-preference.ts:84-87 | is the step `TimerFires` |
| ActiveView.ActiveViewPreference.EnqueueWrite | src/main/active-view-preference.ts:90-104 | appends a writer to the chain |
| ActiveView.ActiveViewPreference.WriteTmp | src/main/active-view-preference.ts:107-111 | is the step `WriterWrites` |
| ActiveView.ActiveViewPreference.CheckGeneration | src/main/active-view-preference.ts:115-118 | is the step `WriterChecksGeneration` |
| ActiveView.ActiveViewPreference.OsRename | src/main/active-view-preference.ts:119-121 | is the step `RenameReturns` |
| ActiveView.ActiveViewPreference.ContinueAfterRename | src/main/active-view-preference.ts:121-137 | is the step `WriterContinues` |
| ActiveView.ActiveViewPreference.RemoveTmp | src/main/active-view-preference.ts:138-142 | is the step `WriterCleansUp` |
| ActiveView.ActiveViewPreference.SettleWrite | src/main/active-view-preference.ts:94-101 | is the step `WriterSettles` |
| ActiveView.ActiveViewPreference.FlushOrThrow | src/main/active-view-preference.ts:145-177 | is the step `Flush` and tells when it throws |
| ActiveView.ActiveViewPreference.BeginDrainTurn | src/main/active-view-preference.ts:218-226 | is one turn of the drain loop up to its await, the step `DrainPass`, and the generation it waits for |
| ActiveView.ActiveViewPreference.Await | src/main/active-view-preference.ts:226 | while a call awaits, the events that happen are those their methods bring about, in their order |
| ActiveView.ActiveViewPreference.DrainTurn | src/main/active-view-preference.ts:214-232 | one turn with its await and both checks: it ends the drain, or the loop goes round from the state reached |
| ActiveView.ActiveViewPreference.DrainPendingWrites | src/main/active-view-preference.ts:213-234 | the loop with its abort checks ends as `DrainFrom` says, whatever happens during its awaits, and has recorded all of it |
| ActiveView.ActiveViewPreference.BeginQuitFlush | src/main/active-view-preference.ts:179-187 | the quit flush latches; later schedules and flushes are refused |
| ActiveView.ActiveViewPreference.ValidIsSafe | src/main/active-view-preference.ts:47-234 | whatever calls an object has seen, and whatever failed, the invariant holds and what landed is in order |
| Promotion.IdentityIsInode | src/main/local-downloaded-folder-promotion.ts:22-29 | the identity check holds if and only if the inode is the recorded one and the file system shows identities |
| Promotion.LogOkUnderThirdParty | src/main/local-downloaded-folder-promotion.ts:31-64 | recorded identities and states stay meaningful whatever other processes do |
| Promotion.RollbackRestores | src/main/local-downloaded-folder-promotion.ts:187-207 | left alone, the rollback clears the destination and nothing else |
| Promotion.OutdatedFileStays | src/main/local-downloaded-folder-promotion.ts:194-202 | a file whose recorded state is out of date survives the rollback |
| Promotion.UnloggedStays | src/main/local-downloaded-folder-promotion.ts:187-207 | what the log does not mention survives the rollback with all directories above it |
| Promotion.CurrentFileIsRemoved | src/main/local-downloaded-folder-promotion.ts:194-200 | a file that is as its entry says is removed, wherever in the log the entry stands |
| Promotion.ProgressKeepsBytes | src/main/local-downloaded-folder-promotion.ts:70-152 | the publication's invariant keeps every source file readable in full at one of its paths |
| Promotion.MkdirProgress | src/main/local-downloaded-folder-promotion.ts:215-219 | creating a logged directory keeps that invariant |
| Promotion.OpenProgress | src/main/local-downloaded-folder-promotion.ts:81-87 | so does the exclusive open with its log entry |
| Promotion.LinkProgress | src/main/local-downloaded-folder-promotion.ts:130-149 | so does a hard link with its log entry |
| Promotion.WriteProgress | src/main/local-downloaded-folder-promotion.ts:96-107 | so does a short write to the file being copied |
| Promotion.UnlinkProgress | src/main/local-downloaded-folder-promotion.ts:121-151 | so does unlinking the source of a finished file |
| PromotionRun.LegalWorldOk | src/main/local-downloaded-folder-promotion.ts:70-247 | in every run among other processes the log stays truthful |
| PromotionRun.EveryEntryWasClaimed | src/main/local-downloaded-folder-promotion.ts:81-149 | each log entry stems from an operation of this promotion that created the path where nothing was |
| PromotionRun.WithdrawalsAreOwn | src/main/local-downloaded-folder-promotion.ts:187-207 | whatever others did, a rollback removes only the inode this promotion put there, a file with its recorded bytes or an empty directory |
| PromotionRun.UndisturbedOnTrack | src/main/local-downloaded-folder-promotion.ts:70-247 | every undisturbed run keeps the invariant |
| PromotionRun.BytesStayReachable | src/main/local-downloaded-folder-promotion.ts:70-152 | at every step before rollback each file's bytes are complete at its source or its destination |
| PromotionRun.DeliveredIsExactCopy | src/main/local-downloaded-folder-promotion.ts:209-247 | a finished publication has the source's tree at the destination and changed nothing elsewhere |
| PromotionRun.RollbackRestoresIff | src/main/local-downloaded-folder-promotion.ts:81-117 | undisturbed, the rollback restores the destination if and only if a partly written file's state was taken over and every created entry was logged |
| PromotionRun.UnloggedFolderIsLeft | src/main/local-downloaded-folder-promotion.ts:215-219 | every promotion that could succeed has a run in which the look at the new folder throws and the folder is left |
| PromotionRun.UnloggedFileIsLeft | src/main/local-downloaded-folder-promotion.ts:81-87 | the same for the look at a file opened for copying |
| PromotionRun.StaleFileIsLeft | src/main/local-downloaded-folder-promotion.ts:96-117 | the same for a written file whose state cannot be read back |
| PromotionRun.RollbackLosesIff | src/main/local-downloaded-folder-promotion.ts:121-151 | wherever it stops, after the rollback a source file has no name at either place if and only if it had been unlinked from the source |
| PromotionRun.StoppedPromotionLosesFile | src/main/local-downloaded-folder-promotion.ts:144-151 | every promotion that could succeed has a run, stopped after its first file, whose rollback restores the destination and loses that file |
| PromotionRun.ExampleIsPassable | src/main/local-downloaded-folder-promotion.ts:249-268 | there is such a promotion |
| PromotionRun.NoIdentitiesNoRollback | src/main/local-downloaded-folder-promotion.ts:22-29 | a file system without identities has nothing rolled back |
| PromotionRun.ListingMatches | src/main/local-downloaded-folder-promotion.ts:220-222 | what readdir lists is what the source folder held at the start |
| PromotionRun.SourceUntouched | src/main/local-downloaded-folder-promotion.ts:121-151 | a source path stays as it was until it is unlinked |
| PromotionRun.ChildrenDelivered | src/main/local-downloaded-folder-promotion.ts:223-245 | a directory is complete once all its entries are |
| PromotionRun.EmptiedIsGone | src/main/local-downloaded-folder-promotion.ts:121-151 | a publication that has unlinked every file of a folder leaves no file in the source |
| PromotionRun.DestinationIsDone | src/main/local-downloaded-folder-promotion.ts:209-247 | what stands at the destination is complete or being written |
| PromotionRun.SourceStillThere | src/main/local-downloaded-folder-promotion.ts:121-151 | what is not complete yet is still whole in the source |
| PromotionRun.ReadyToPublish | src/main/local-downloaded-folder-promotion.ts:209-247 | an entry whose parent is done and that is not done itself can be created |
| Promoter.FolderPromotion.Mkdir | src/main/local-downloaded-folder-promotion.ts:215-219 | claims and logs a directory, or fails; when the look at it throws, the directory is there and not in the log |
| Promoter.FolderPromotion.WriteSome | src/main/local-downloaded-folder-promotion.ts:99-105 | one write call appends a first part of the data or fails |
| Promoter.FolderPromotion.WriteChunk | src/main/local-downloaded-folder-promotion.ts:96-106 | a chunk is appended in full in any number of short writes |
| Promoter.FolderPromotion.CopyBytes | src/main/local-downloaded-folder-promotion.ts:88-108 | left alone and successful, the destination file holds the source's bytes |
| Promoter.FolderPromotion.ReadSome | src/main/local-downloaded-folder-promotion.ts:92-95 | one read call returns a non-empty part of what is left, or nothing at the end |
| Promoter.FolderPromotion.OpenSource | src/main/local-downloaded-folder-promotion.ts:80 | opens the inode the source path named at the start |
| Promoter.FolderPromotion.OpenDestination | src/main/local-downloaded-folder-promotion.ts:81-87 | claims a new empty file and logs it, or fails with the log as it was; when the look at the file throws, the file is there |
| Promoter.FolderPromotion.TakeState | src/main/local-downloaded-folder-promotion.ts:109-116 | the log takes over the written file's state, also after a failure |
| Promoter.FolderPromotion.RemoveSource | src/main/local-downloaded-folder-promotion.ts:121 | unlinks a finished file from the source and nothing else |
| Promoter.FolderPromotion.CopyFile | src/main/local-downloaded-folder-promotion.ts:70-122 | continues the run by operations on this path; success marks the path done and has unlinked its source |
| Promoter.FolderPromotion.PublishFile | src/main/local-downloaded-folder-promotion.ts:124-152 | the same by a hard link or, where it is refused, by a copy |
| Promoter.FolderPromotion.ReadDirectory | src/main/local-downloaded-folder-promotion.ts:220-222 | lists the folder as it was at the start |
| Promoter.FolderPromotion.PublishDirectory | src/main/local-downloaded-folder-promotion.ts:209-247 | success delivers the whole subtree and has unlinked every file of it from the source; an existing destination is refused untouched |
| Promoter.FolderPromotion.PublishContents | src/main/local-downloaded-folder-promotion.ts:220-246 | success delivers all entries and has emptied them |
| Promoter.FolderPromotion.PublishEntry | src/main/local-downloaded-folder-promotion.ts:223-245 | directories recurse, files are published, anything else is refused |
| Promoter.FolderPromotion.WithdrawEntry | src/main/local-downloaded-folder-promotion.ts:189-205 | one turn of the rollback is `RollbackEntry`, and the run is extended by withdrawals only |
| Promoter.FolderPromotion.Rollback | src/main/local-downloaded-folder-promotion.ts:187-207 | the loop is `RollbackAll`, and the run is extended by withdrawals only |
| Promoter.FolderPromotion.Promote | src/main/local-downloaded-folder-promotion.ts:249-268 | on success an exact copy, and no file left in the source; on failure restored exactly when no stale state and no unlogged entry was left, and exactly the files already unlinked are lost; existing destinations untouched; with nothing in the way and no failing call it succeeds |
| KeyPair.StepKeepsInv | mobile/scripts/mock-server-key-pair.ts:53-167 | each step of any process, a crash included, keeps the protocol's invariant |
| KeyPair.StepKeepsKey | mobile/scripts/mock-server-key-pair.ts:91-124 | a step changes the key file only from invalid to valid, and that counts as one persist |
| KeyPair.AllReturnTheSameKey | mobile/scripts/mock-server-key-pair.ts:135-167 | for any number of processes, interleaving and crashes, with or without a lock file left over: while no holder of the lock misreads a valid file, all returned keys are the stored one, a stored key never changes, at most one persist succeeds |
| KeyPair.ThrowsOnlyIf | mobile/scripts/mock-server-key-pair.ts:53-124 | in every run: a process throws only after a call of its own failed, or after finding the lock taken 51 times with an unsuccessful look at the key file before and after each, or after five busy renames; what it returns it has just read or stored |
| KeyPair.WaiterReturnsKey | mobile/scripts/mock-server-key-pair.ts:53-89 | once a key is stored, every process that looks or waits, however many of its attempts are used up, returns that key within three calls of its own that do not fail; the holder may have released the lock, hold it still or have crashed |
| KeyPair.LockIsFreed | mobile/scripts/mock-server-key-pair.ts:126-165 | in every run a process that returns or throws no longer holds the lock, and a lock file nobody holds was there at the start, or its holder crashed or failed to remove it |
| KeyPair.OneInsideTheLock | mobile/scripts/mock-server-key-pair.ts:53-89 | two processes are never both between taking and releasing the lock |
| KeyPair.ChecksProperlyIff | mobile/scripts/mock-server-key-pair.ts:151-162 | the stored key is safe from the lock holder's read if and only if that read does not fail on a valid file |
| KeyPair.ReturnedKeyCanBeReplaced | mobile/scripts/mock-server-key-pair.ts:135-167 | a run from the start in which a returned key is replaced after one garbled read under the lock |
| KeyPair.PersistsNeedGarbledReads | mobile/scripts/mock-server-key-pair.ts:151-166 | in every run whatever, each persist but the one a missing key calls for has a garbled read by the holder of the lock behind it |
| KeyPair.MockServerProcess.ReadKeyPair | mobile/scripts/mock-server-key-pair.ts:34-51 | leads to `Returned` with the stored key or to the next phase |
| KeyPair.MockServerProcess.OpenLockFile | mobile/scripts/mock-server-key-pair.ts:56-61 | one exclusive open: the lock is taken if it was free, reported busy if it was there, and anything else throws |
| KeyPair.MockServerProcess.AcquireKeyLock | mobile/scripts/mock-server-key-pair.ts:53-89 | ends with the lock, with another process's key, or throwing with its attempts used up or a call failed; left alone it takes a free lock, and returns a stored key when the lock is taken |
| KeyPair.MockServerProcess.PersistKeyPair | mobile/scripts/mock-server-key-pair.ts:91-124 | writes the temporary file and renames it with bounded retries |
| KeyPair.MockServerProcess.RenameOnto | mobile/scripts/mock-server-key-pair.ts:93-104 | one attempt at the rename, repeated only for a busy target and never after the last |
| KeyPair.MockServerProcess.LoadOrCreate | mobile/scripts/mock-server-key-pair.ts:135-167 | what it returns in a proper run is the key in the file; it throws only as `ThrowsOnlyIf` says; left alone and without failing calls it returns a key if no lock is in the way, and a key that was valid before in any case |
| KeyPair.MockServerProcess.LoadOrCreateLocked | mobile/scripts/mock-server-key-pair.ts:151-166 | under the lock: the stored key or a freshly persisted one, and the lock is released |
| DurableWrite.KeptIsOld | src/main/durable-file-write.ts:69-97 | while the final name is untouched a crash shows the old version |
| DurableWrite.RenameIsNew | src/main/durable-file-write.ts:80-89 | renaming a synced file leaves only the old version and the payload to be found |
| DurableWrite.SyncedSurvives | src/main/durable-file-write.ts:15-25 | after the directory sync every crash shows the payload |
| DurableWrite.UnsyncedRenameMayBeLost | src/main/durable-file-write.ts:45-52 | without it both versions can be found |
| DurableWrite.RenameBeforeSyncIsUnsafe | src/main/durable-file-write.ts:80-81 | renaming before the file sync lets a crash show any contents |
| DurableWrite.CrashShowsIff | src/main/durable-file-write.ts:15-25 | crashes of the whole disk show of one name exactly what the per-name account says |
| DurableWrite.OpenedMayHoldAnything | src/main/durable-file-write.ts:77-81 | what is opened for writing is empty at once, and until it is synced a crash may leave anything there; every other file stays as it was |
| DurableWrite.WrittenMayHoldAnything | src/main/durable-file-write.ts:77-81 | the same of what is appended; a sync makes a crash show what is read |
| DurableWrite.RemovedMayComeBack | src/main/durable-file-write.ts:92-96 | a removed name is gone at once, and until the directory is synced a crash may bring back whatever it could before |
| DurableWrite.ReadyAfterCrashIff | src/main/integration-credential-file.ts:48-54 | after a crash the next replacement may begin if and only if temporary and final name have not come back as one file |
| DurableWrite.FreshNameIsReady | src/main/durable-file-write.ts:69-80 | so it always may under a name not used since the last directory sync |
| DurableWrite.SyncedCommitSurvives | src/main/durable-file-write.ts:15-52 | after a commit with a directory sync every crash of the disk shows the payload, and the next replacement may begin under the same name |
| DurableWrite.FixedNameMayEmptyFinal | src/main/integration-credential-file.ts:48-83 | without that sync a crash may bring both names back as one file, and reopening the fixed temporary name empties the final one |
| DurableWrite.AlwaysComplete | src/main/durable-file-write.ts:69-150 | over any number of replacements, cut short by crashes anywhere, the final name reads one of the payloads offered so far, complete, or what it held at the start |
| DurableWrite.CommitsAreNotUndone | src/main/durable-file-write.ts:45-52 | after a commit that reached the disk it reads that payload or one offered later, whatever crashes come |
| DurableWrite.FreshNameMayBegin | src/main/durable-file-write.ts:100-102 | in every such history a replacement under a name never used before may begin |
| DurableWrite.HistoryGrows | src/main/durable-file-write.ts:69-97 | what a writer has gone through, cut short at any state by a crash or not, continues such a history |
| DurableWrite.DurableDisk.WriteAll | src/main/integration-credential-file.ts:55-62 | short writes add up to the payload, or the write stalls and fails |
| DurableWrite.DurableDisk.WriteFileDurableIfCurrent | src/main/durable-file-write.ts:69-97 | every state on the way is old or new in full and lets a crash come; a commit with directory sync survives every crash and leaves the disk ready; veto and failure leave the old version, and no temporary file unless its removal fails; a writer no longer current never commits, and without failing calls the veto alone decides |
| DurableWrite.DurableDisk.RenameDurable | src/main/durable-file-write.ts:49-52 | the same for a file synced beforehand |
| DurableWrite.DurableDisk.WriteFileDurableSync | src/main/durable-file-write.ts:140-150 | the same without removing the temporary file on failure |
| DurableWrite.DurableDisk.WriteCredentialFileAtomic | src/main/integration-credential-file.ts:48-83 | the same without a directory sync; a failure leaves no temporary file unless its removal fails |
| WindowsArgs.QuoteArgument | native/windows-cli-launcher/OrcaCliLauncher.cs:85-123 | the loop builds the quoted form |
| WindowsArgs.WrittenAsIsIff | native/windows-cli-launcher/OrcaCliLauncher.cs:87-95 | a value is written as it is if and only if it is not empty and holds neither a quote nor white space |
| WindowsArgs.WhiteSpaceIs | native/windows-cli-launcher/OrcaCliLauncher.cs:90 | the 25 white space characters, by their code points |
| WindowsArgs.BuildArguments | native/windows-cli-launcher/OrcaCliLauncher.cs:74-83 | splitting the command line by the Windows rules gives back the path followed by the arguments |
| WindowsArgs.EscapeReadsBack | native/windows-cli-launcher/OrcaCliLauncher.cs:97-122 | an escaped value, with any backslashes held back, reads back as itself and its quote closes |
| WindowsArgs.PlainReadsBack | native/windows-cli-launcher/OrcaCliLauncher.cs:87-95 | a value left unquoted reads back as itself |
| WindowsArgs.RoundTrip | native/windows-cli-launcher/OrcaCliLauncher.cs:74-123 | the round trip for all strings |
| EditDistance.Levenshtein | src/cli/command-suggestion.ts:49-71 | two rolling rows compute the distance |
| EditDistance.FillRow | src/cli/command-suggestion.ts:61-65 | one row follows from the one before |
| EditDistance.DistIsLeast | src/cli/command-suggestion.ts:49-71 | the distance is the least length of any script of insertions, deletions and substitutions |
| EditDistance.Symmetric | src/cli/command-suggestion.ts:49-71 | the distance is symmetric |
| EditDistance.ZeroOnlyOnEquals | src/cli/command-suggestion.ts:49-71 | it is zero exactly on equal strings |
| EditDistance.Triangle | src/cli/command-suggestion.ts:49-71 | it satisfies the triangle inequality |
| Suggestions.RankingIsBest | src/cli/command-suggestion.ts:74-80 | the ranking keeps exactly the best at most three candidates at distance one to three, in order |
| Suggestions.RankedAreBest | src/cli/command-suggestion.ts:74-80 | the names listed are on offer, at distance 1 to 3, in order and without repetition, at most three; whatever qualifies and is not listed comes after all of them, and then there are three |
| Suggestions.SortSorts | src/cli/command-suggestion.ts:77 | the order is by distance and then collation, and a permutation |
| Suggestions.DestructiveVerbs | src/cli/command-suggestion.ts:20-30 | exactly the last words of destructive paths |
| Suggestions.IntendsDestruction | src/cli/command-suggestion.ts:35-42 | true if and only if some verb is within one edit |
| Suggestions.PathsOfSpec | src/cli/command-suggestion.ts:94 | the paths compared are the command's own and its aliases |
| Suggestions.OffersIff | src/cli/command-suggestion.ts:91-101 | a single word is compared with first words, anything longer with whole paths of the same length, and a destructive command only on destructive intent |
| Suggestions.JoinSpaces | src/cli/command-suggestion.ts:84 | words are joined by single spaces |
| Suggestions.FinalIsLast | src/cli/command-suggestion.ts:13-15 | the last word, or the empty one |
| Suggestions.ScoreSpec | src/cli/command-suggestion.ts:91-107 | adds exactly the names this spec offers, each once |
| Suggestions.SuggestCommands | src/cli/command-suggestion.ts:83-110 | lists, nearest first, the at most three best names at distance 1 to 3 from what was typed, ties by collation, among exactly the names on offer; without destructive intent each comes from a harmless command |
| Suggestions.SuggestionsAreHarmless | src/cli/command-suggestion.ts:87-93 | the ranking of harmless offers names only harmless commands |
| SleepAssertion.StartKeeps | src/main/linux-lid-sleep-assertion.ts:57-117 | starting keeps the invariant and tries at most one spawn, none during the retry delay |
| SleepAssertion.HandleFailureKeeps | src/main/linux-lid-sleep-assertion.ts:166-182 | a failure with its re-entrant callback tries no further spawn |
| SleepAssertion.RefreshKeeps | src/main/agent-awake-service.ts:130-144 | a refresh keeps the invariant and tries at most one spawn |
| SleepAssertion.StepKeeps | src/main/agent-awake-service.ts:95-144 | one synchronous stretch tries at most one spawn however deep the callbacks recurse |
| SleepAssertion.RunKeeps | src/main/linux-lid-sleep-assertion.ts:57-234 | every run keeps the invariant |
| SleepAssertion.OneHelperSpacedAttempts | src/main/macos-system-sleep-assertion.ts:56-210 | in every run at most one helper is live, it excludes a pending retry, and attempts without a stop between them are 30 s apart |
| SleepAssertion.NeitherIdleNorForgotten | src/main/agent-awake-service.ts:95-144 | in every run up to disposal: mode off, or automatic without an observed working agent, means no helper and no retry; mode on means a helper, a retry, or a missing binary |
| SleepAssertion.StepDoesAsItShould | src/main/agent-awake-service.ts:95-144 | each event keeps that |
| SleepAssertion.HelperHasReason | src/main/agent-awake-service.ts:130-144 | after a refresh with no reason to block there is no helper and no retry |
| SleepAssertion.WorkGetsHelper | src/main/agent-awake-service.ts:130-144 | after a refresh with a reason there is one, outside the delay and if it can be spawned |
| SleepAssertion.CallsFollowReason | src/main/agent-awake-service.ts:81-107 | a changed mode, new statuses, a resume and a fired timer act at once: without a reason nothing is left running or armed, with one a helper is live, outside the delay and if it can be had; the reason being mode on, or automatic with an agent seen at work in this run within two hours |
| SleepAssertion.DisposeEndsAll | src/main/agent-awake-service.ts:122-128 | after disposal nothing runs or is armed |
| SleepAssertion.UnavailableIff | src/main/linux-lid-sleep-assertion.ts:166-178 | in every run: attempts are given up for good if and only if this is the Linux helper and some failure in the run reported its binary missing |
| SleepAssertion.StepLatches | src/main/linux-lid-sleep-assertion.ts:166-178 | and at which events that can be |
| SleepAssertion.ChildFailureRetries | src/main/linux-lid-sleep-assertion.ts:142-182 | a helper that fails for any other reason while there is work is tried again 30 s after it failed, and not before |
| SleepAssertion.SpawnFailureRetries | src/main/linux-lid-sleep-assertion.ts:66-84 | so is an attempt that fails for any other reason |
| SleepAssertion.DelayIsKept | src/main/linux-lid-sleep-assertion.ts:57-64 | until the delay is over a refresh with work to do keeps it, with a timer armed for its end |
| SleepAssertion.FiredTimerIsArmedAnew | src/main/linux-lid-sleep-assertion.ts:211-219 | a retry timer that fires into the delay is armed again for its end |
| SleepAssertion.FailedRetryIsRepeated | src/main/linux-lid-sleep-assertion.ts:211-219 | one that fires after it makes one attempt, and if that fails the next is 30 s off |
| SleepAssertion.EarliestExpiryIsEarliest | src/main/agent-awake-service.ts:174-202 | the stale timer is set for the earliest future expiry, if and only if there is one |
| SleepAssertion.LapseIsTimedIff | src/main/agent-awake-service.ts:165-189 | of any list, a status that keeps the machine awake has a timer no later than its lapse if and only if it does not lapse at this very moment |
| SleepAssertion.RefreshTimesLapsesIff | src/main/agent-awake-service.ts:130-144 | the same of the one timer that a refresh leaves, callbacks included |
| SleepAssertion.HelperAssertion.ResetRetrySuppression | src/main/linux-lid-sleep-assertion.ts:225-232 | is `ResetRetry` |
| SleepAssertion.HelperAssertion.ScheduleRetryTimer | src/main/linux-lid-sleep-assertion.ts:211-223 | is `ScheduleRetry` |
| SleepAssertion.HelperAssertion.StopHelper | src/main/linux-lid-sleep-assertion.ts:119-136 | is `Stop` |
| SleepAssertion.HelperAssertion.StartHelper | src/main/linux-lid-sleep-assertion.ts:57-64 | is `Start` |
| SleepAssertion.HelperAssertion.SpawnHelper | src/main/linux-lid-sleep-assertion.ts:66-117 | is `Attempt` |
| SleepAssertion.HelperAssertion.ReportFailure | src/main/linux-lid-sleep-assertion.ts:166-182 | is `HandleFailure`, calling back into the service |
| SleepAssertion.HelperAssertion.HandleChildFailure | src/main/linux-lid-sleep-assertion.ts:142-160 | is the step `ChildFails` |
| SleepAssertion.AgentAwakeService.ScheduleStaleTimer | src/main/agent-awake-service.ts:174-202 | the loop sets the timer for the earliest expiry |
| SleepAssertion.AgentAwakeService.EligibleRunningStatusCount | src/main/agent-awake-service.ts:160-163 | positive if and only if some status is eligible now |
| SleepAssertion.AgentAwakeService.RefreshAssertion | src/main/agent-awake-service.ts:130-144 | is `Refresh` |
| SleepAssertion.AgentAwakeService.ChangeMode | src/main/agent-awake-service.ts:95-102 | is the step `SetMode` |
| SleepAssertion.AgentAwakeService.ChangeStatuses | src/main/agent-awake-service.ts:104-107 | is the step `SetStatuses` |
| SleepAssertion.AgentAwakeService.OnPowerResume | src/main/agent-awake-service.ts:81-85 | is the step `PowerResume` |
| SleepAssertion.AgentAwakeService.OnStaleTimer | src/main/agent-awake-service.ts:195-198 | is the step `StaleTimerFires` |
| SleepAssertion.AgentAwakeService.OnRetryTimer | src/main/linux-lid-sleep-assertion.ts:216-219 | is the step `RetryTimerFires` |
| SleepAssertion.AgentAwakeService.Close | src/main/agent-awake-service.ts:122-128 | is the step `Dispose` |
| AccessTree.NothingRefused | native/computer-use-linux/runtime.py:402-406 | a walk that reports no truncation stayed within budget and showed the whole unlimited preorder |
| AccessTree.ElidedIff | native/computer-use-linux/runtime.py:397-400 | a node is passed over if and only if it is a generic container around at most one child, without text, summary or meaningful action |
| AccessTree.ClosedIff | native/computer-use-linux/runtime.py:435-436 | what is below a node is not shown if and only if its line has a summary, or it is a small control with a title or a value |
| AccessTree.FullShowsExactly | native/computer-use-linux/runtime.py:402-439 | without limits a node is shown, under its path and indented by its shown ancestors, if and only if it is not passed over and no node above it hides what is below |
| AccessTree.TreeRenderer.Walk | native/computer-use-linux/runtime.py:402-441 | the recursive walk appends the budget-capped, depth-limited preorder and raises exactly the flags of the refusals it meets |
| AccessTree.RenderAccessibilityTree | native/computer-use-linux/runtime.py:349-444 | the records are a prefix of the preorder, each index is its position with exactly one line, and without truncation they are everything |
| AccessTree.FindByPath | native/computer-use-linux/runtime.py:730-736 | the loop is the descent along the path |
| AccessTree.DescendIff | native/computer-use-linux/runtime.py:730-736 | a path leads to a node if and only if a chain of children does, each the one that the path numbers |
| AccessTree.FindElement | native/computer-use-linux/runtime.py:753-771 | on any tree: finds the node at the saved path if and only if its role, name, automation id and action labels are the saved ones |
| AccessTree.PathsLeadBack | native/computer-use-linux/runtime.py:414-441 | a rendered node's path leads to that very node, below elided nodes too |
| AccessTree.EveryRecordIsFound | native/computer-use-linux/runtime.py:753-771 | on the tree it was rendered from every record resolves to its node and passes the signature check |
| AccessTree.WholeInOrder | native/computer-use-linux/runtime.py:402-441 | the preorder runs in document order of the paths |
| AccessTree.PathsAreDistinct | native/computer-use-linux/runtime.py:402-441 | no two records share a path |
| AccessTree.CompleteIff | native/computer-use-linux/runtime.py:402-441 | the rendering is complete if and only if what there is to show is within the node budget and the depth limit |
| AccessTree.TruncatedIff | native/computer-use-linux/runtime.py:402-412 | the flag is raised if and only if some node, elided ones included, is met with the budget used up or beyond the depth limit; on a complete rendering if and only if such a node is an elided one |
| AccessTree.DepthReachedIff | native/computer-use-linux/runtime.py:403-407 | the depth flag is raised if and only if within the budget some node is shown at the last depth and has a child to show |
| AccessTree.TruncatedMayBeComplete | native/computer-use-linux/runtime.py:403-407 | there is such a tree |
| RenameMutex.StepKeeps | src/main/destination-serialized-local-rename.ts:28-50 | each stretch between awaits keeps the queue discipline |
| RenameMutex.RenamesTakeTurns | src/main/destination-serialized-local-rename.ts:28-50 | in every run, outside writers included: per key one at a time, in registration order, and the map holds exactly the keys with unfinished calls |
| RenameMutex.SomeoneCanMove | src/main/destination-serialized-local-rename.ts:33-45 | no call is stuck: some unfinished call at or before it, of its key, can take a step |
| RenameMutex.RenameOverwritesNothing | src/shared/filesystem-rename-collision.ts:50-70 | a call whose findings still hold overwrites nothing when it renames, whatever it moves: the destination is free or names the very file |
| RenameMutex.LoneCallGoesThroughIff | src/shared/filesystem-rename-collision.ts:50-70 | a call that meets no other goes on to its rename if and only if its destination is free, or holds the very file under one parent path with real paths judged the same, as in a change of case |
| RenameMutex.LastStepOfCall | src/main/destination-serialized-local-rename.ts:43-49 | then it renames as rename(2) does and is done; a call that fails before changes no file |
| RenameMutex.NormalizedText | src/main/destination-serialized-local-rename.ts:14-26 | the text that stands for a missing parent is that path without its `..` |
| RenameMutex.RenameStillSo | src/main/destination-serialized-local-rename.ts:28-50 | a calm rename leaves what all other calls and arrivals have found out as they found it |
| RenameMutex.StepStillSo | src/main/destination-serialized-local-rename.ts:28-50 | so does every calm step, and it keeps every file and directory |
| RenameMutex.NoFileIsLost | src/main/destination-serialized-local-rename.ts:28-50 | in every run without outside writers in which no rename brings another unfinished call's destination parent into being too late, no rename overwrites and no file or directory is lost, whatever is moved |
| RenameMutex.ElsewhereIsCalm | src/main/destination-serialized-local-rename.ts:14-26 | a rename is of that kind if no other call's destination parent was missing at the very place it renames to |
| RenameMutex.NoPlainFileIsLost | src/main/destination-serialized-local-rename.ts:28-50 | calls that move plain files only lose nothing, without any other condition |
| RenameMutex.OverwritesOnlyIfOpened | src/shared/filesystem-rename-collision.ts:54-62 | after a rename, a call about to rename overwrites only if that rename opened the way to its destination's parent |
| RenameMutex.OverwritesIffHeld | src/shared/filesystem-rename-collision.ts:50-70 | right after any rename, a call overwrites with a file that the rename left in place if and only if that rename opened the way to a directory which, in the state before, holds the call's destination name for something else that is no directory, or gets it by that rename |
| RenameMutex.OverwritesIffFolderHolds | src/shared/filesystem-rename-collision.ts:50-70 | when the rename moves a folder to where the call's destination parent is to be, all in the state before: if and only if the folder holds that name for something else that is no directory, and the way to its new place does not lead through it |
| RenameMutex.OverwritingLosesIff | src/main/destination-serialized-local-rename.ts:43 | an overwriting rename loses exactly what stood at its destination, unless that has another name |
| RenameMutex.OutsideFileIsLost | src/shared/filesystem-rename-collision.ts:54-62 | a call that is about to rename a file loses what another program puts at the free destination after the look-up, so the results that exclude outside writers need to |
| RenameMutex.RunLosesIff | src/main/destination-serialized-local-rename.ts:28-50 | without outside writers a run keeps every file and directory if and only if no rename in it, judged in the state it meets, overwrites an only name |
| RenameMutex.TwoCallsLoseFile | src/main/destination-serialized-local-rename.ts:14-50 | in every tree with a file x, a folder c holding the only name of a file f, and nothing named z, the calls x to z/f and c to z can lose c/f |
| RenameMutex.ExampleIsExposed | src/main/destination-serialized-local-rename.ts:14-50 | there is such a tree |
| DirTree.WalkAfterMove | src/main/destination-serialized-local-rename.ts:14-26 | after a move a path ends where the entry was if and only if it led through it before, and else resolves as before unless it had ended where the entry is now; links and `..` included |
| DirTree.RenameThrowsIff | src/main/destination-serialized-local-rename.ts:43 | rename(2): throws if and only if there is nothing to rename, no directory to rename into, a directory would get into itself, or a directory and a file or a directory that holds anything would be replaced; never between names of one inode |
| DirTree.DirAfterMove | src/main/destination-serialized-local-rename.ts:14-26 | so a move keeps, closes or opens the way to a directory, and a plain file opens none |
| DirTree.FolderAfterMove | src/main/destination-serialized-local-rename.ts:14-26 | the path of its destination leads to a moved folder, unless it leads through what is moved |
| DirTree.DirsByRealPath | src/main/destination-serialized-local-rename.ts:5-6 | paths to one directory have one real path, so one key |
| RenameMutex.DestinationRenames.DestinationParentKey | src/main/destination-serialized-local-rename.ts:14-26 | is the step `Arrive`: the parent's real path, its text if it is missing, else an error |
| RenameMutex.DestinationRenames.Begin | src/main/destination-serialized-local-rename.ts:32-38 | is the step `Register` |
| RenameMutex.DestinationRenames.PreviousReleased | src/main/destination-serialized-local-rename.ts:40 | is the step `Resume` |
| RenameMutex.DestinationRenames.LookUpDestination | src/shared/filesystem-rename-collision.ts:54-62 | is the step `LookUp` |
| RenameMutex.DestinationRenames.CompareEntries | src/shared/filesystem-rename-collision.ts:21-69 | is the step `Compare` |
| RenameMutex.DestinationRenames.RenameAndRelease | src/main/destination-serialized-local-rename.ts:43-49 | is the step `Rename` |
| RenameMutex.DestinationRenames.ReleaseKey | src/main/destination-serialized-local-rename.ts:44-49 | is the `finally` block |
| BashPrompt.SeparatorSuffix | src/main/bash-prompt-command-composition.ts:5-19 | the scan by chunks and then characters finds the maximal separator suffix |
| BashPrompt.BackslashRun | src/main/bash-prompt-command-composition.ts:20-33 | the same for the backslashes before it |
| BashPrompt.NormalizePart | src/main/bash-prompt-command-composition.ts:1-46 | the shell function equals `Normalized` |
| BashPrompt.CutAtFirstSafePlace | src/main/bash-prompt-command-composition.ts:34-40 | a part with trailing separators becomes its shortest prefix that loses only separators and does not end in an odd backslash run |
| BashPrompt.OtherPartsStay | src/main/bash-prompt-command-composition.ts:41-44 | any other part stays, but for one backslash on Bash 4.4 to 5.0 after an odd run |
| BashPrompt.NormalizingIsIdempotent | src/main/bash-prompt-command-composition.ts:1-46 | normalizing twice is normalizing once, on every version |
| BashPrompt.OddEndsAreLeftIff | src/main/bash-prompt-command-composition.ts:34-44 | an odd backslash run remains at the end if and only if the part ended in one and the version is not padded |
| BashPrompt.NormalizedMeans | src/main/bash-prompt-command-composition.ts:1-46 | what a part becomes, told without the scans: its shortest prefix that loses separators only and can be cut there, or itself, with one more backslash exactly on Bash 4.4 to 5.0 after an odd run |
| BashPrompt.NormalizeCommand | src/main/bash-prompt-command-composition.ts:139-146 | all parts normalized, those that become empty dropped, the others in order |
| BashPrompt.NormalizingPartsIsIdempotent | src/main/bash-prompt-command-composition.ts:139-146 | the same for the whole command |
| Calendar.YearFromDay | src/cli/linear-request-builders.ts:93-95 | the year that has begun and not ended by that day (ECMA-262, 21.4.1) |
| Calendar.DaysHaveRealDates | src/cli/linear-request-builders.ts:93-97 | every day number has a real date, which leads back to it |
| Calendar.RealDatesHaveDays | src/cli/linear-request-builders.ts:93-97 | every real date comes back from its day number |
| Calendar.SurvivesUtcIff | src/cli/linear-request-builders.ts:93-98 | a date survives Date.UTC if and only if it is real and of the year 100 or later |
| Calendar.AcceptsExactlyRealDates | src/cli/linear-request-builders.ts:87-102 | the flag is accepted if and only if it is a real date of the years 100 to 9999 written YYYY-MM-DD |
| Calendar.WrittenDatesAreAccepted | src/cli/linear-request-builders.ts:87-102 | each such date, written out, is accepted and reads as itself |
| CliFlags.SplitJoined | src/cli/flags.ts:31-39 | splitting two texts joined by the separator gives the pieces of both |
| ParseArgs.CommandPathStartsAt | src/cli/args.ts:71-85 | the cursor loop decides whether a command path starts at a token, flags passed over |
| ParseArgs.ParseArgs | src/cli/args.ts:87-131 | the token loop equals `Parse` |
| ParseArgs.BareFlag | src/cli/args.ts:113-127 | a bare flag takes the next token or stands alone |
| ParseArgs.BooleanFlagIff | src/cli/args.ts:98-112 | a boolean flag is `--` and one of the known names, with nothing attached |
| ParseArgs.PlainTokensAndAssignments | src/cli/args.ts:62-131 | however plain tokens, assignments and boolean flags are mixed, the plain tokens come back in order and each name holds what was given last, or all its values when repeatable |
| ParseArgs.RepeatedValuesReadBack | src/cli/flags.ts:31-39 | a repeatable flag reads back as the non-empty pieces of its values, so as its non-empty values when none holds NUL |
| ParseArgs.SeparateIsJoinedWhereAnswersAgree | src/cli/args.ts:98-127 | behind a command word `--name value` parses as `--name=value` whenever each bare flag before a plain token is judged alike on both lines, up to the first word, as standing before a command or not |
| ParseArgs.SeparateIsJoined | src/cli/args.ts:98-127 | so whatever flags stood before that word, unless the token right before is a bare flag |
| ParseArgs.SeparateIsJoinedAfterPlainToken | src/cli/args.ts:98-127 | the same told by the tokens alone: some plain token is not preceded by a bare flag |
| ParseArgs.SeparateIsJoinedBehindClear | src/cli/args.ts:98-127 | behind a bare flag too, if none comes before the command word |
| ParseArgs.PlainTokenIsWord | src/cli/args.ts:91-96 | a plain token that no bare flag stands right before is a command word |
| ParseArgs.SeparateDiffersBefore | src/cli/args.ts:114-119 | a family of command lines, with a command word read, that parse differently because a bare flag stands right before |
| ParseArgs.BareFlagBeforeCommand | src/cli/args.ts:113-119 | a bare flag leaves a following registered command whole if and only if no registered command starts at its second word |
| ParseArgs.ValueBeforeCommand | src/cli/args.ts:113-127 | a flag with its value before a registered command leaves both as given |
| EntryGuard.CollectReachableChunks | config/build-plugins/plain-node-entry-guard.ts:75-98 | the worklist ends and lists each known chunk reachable by static or dynamic imports exactly once and nothing else |
| EntryGuard.VisitKeepsPending | config/build-plugins/plain-node-entry-guard.ts:82-96 | one turn keeps what is visited or waiting reachable and every import accounted for |
| EntryGuard.AssertNoElectronRequire | config/build-plugins/plain-node-entry-guard.ts:100-116 | throws if and only if some reachable chunk requires electron, and names one |
| EntryGuard.IndexEntries | config/build-plugins/plain-node-entry-guard.ts:247-252 | builds the map of entries by name |
| EntryGuard.IndexesLast | config/build-plugins/plain-node-entry-guard.ts:246 | the last chunk of each file name, entry or not, is in the map under that name |
| EntryGuard.IndexedIsLast | config/build-plugins/plain-node-entry-guard.ts:246 | and nothing else is |
| EntryGuard.IndexesLastEntries | config/build-plugins/plain-node-entry-guard.ts:247-252 | the last entry chunk of each name that an entry chunk has is in the map of entries, and nothing else |
| EntryGuard.LeakIsChain | config/build-plugins/plain-node-entry-guard.ts:75-116 | what the worklist finds through the map is such a chain of imports |
| EntryGuard.ChainIsLeak | config/build-plugins/plain-node-entry-guard.ts:75-116 | and it finds every such chain |
| EntryGuard.WriteBundle | config/build-plugins/plain-node-entry-guard.ts:243-266 | told by the chunks alone: the build passes if and only if no chain of imports, each resolved to the last chunk of its file name, leads from the last entry chunk of a guarded name to a chunk that requires electron; a refusal names such an entry and chunk |
| ReadyScanner.ChunkIsEnough | src/main/line-editor-ready-output-scanner.ts:16-18 | tail and chunk together contain a sequence if and only if one ends inside the chunk |
| ReadyScanner.ScanState.ScanForReadyOutput | src/main/line-editor-ready-output-scanner.ts:12-19 | true if and only if a ready sequence ends inside this chunk of the output |
| ReadyScanner.ScanAll | src/main/line-editor-ready-output-scanner.ts:12-19 | however the output is cut, some call is true if and only if the whole contains a sequence |

## Left out

- ActiveView.ActiveViewPreference.DrainPendingWrites: the answers of `allFlushConsumersAborted` are arguments; how signals are collected, and that callers share one drain, is not modelled.
- ActiveView.ActiveViewPreference.WriteTmp: a failed write leaves no temporary file behind in the model; partial contents never matter, since such a file is not renamed.
- ActiveView.ActiveViewPreference.OsRename: which error a failed rename reports, since the code only logs differently.
- Promoter.FolderPromotion.Promote: the best-effort removal of the emptied temporary folder and the wording of errors are not modelled.
- Promoter.FolderPromotion.PublishFile: the look at the source, the link and its log entry are one step; a snapshot that throws after a link is an abort at that point, since linking changes nothing the entry records.
- Promoter.FolderPromotion.WriteSome: a write that takes no bytes counts as a failure, where the code's loop tries again, without a bound.
- Promoter.FolderPromotion.WithdrawEntry: the look at an entry and its removal are one step, so no other process acts between them.
- Promoter.FolderPromotion.PublishDirectory: entries are taken in any order, which covers the sorted one; directory times are not modelled.
- Promotion: inode numbers and modification times are never reused, which is what the identity checks rely on; `copyLocalDownloadedFileNoClobber` and `publishLocalDownloadedFileNoClobber` are the same steps for a single file.
- KeyPair.AllReturnTheSameKey: requires that the lock holder's read does not fail on a valid file; `ChecksProperlyIff` shows that this is needed. Key encoding, the call without a key file and removing the lock file by hand are not modelled.
- DurableWrite: removing stale temporary files and restricting the credential's mode; other temporary names in the directory are not tracked.
- DurableWrite.DurableDisk.WriteCredentialFileAtomic: promises no survival of the payload, since the code never syncs the directory.
- Strings are sequences of Unicode scalar values, except for `EditDistance` and `Suggestions`, which count UTF-16 code units as the code does.
- WindowsArgs: the program name that Windows parses by its own rules; the model splits the arguments that follow it.
- Suggestions: `localeCompare` is any total preorder; `unknownCommandData` and the flag suggestions only format the same ranking.
- SleepAssertion: the power-save blocker, status listeners, logging with its failure streak, and the two assertions side by side, of which the other platform's returns at once.
- SleepAssertion.OneHelperSpacedAttempts: assumes a clock that does not run backwards and advances by less than 30 s within one synchronous stretch.
- AccessTree.RenderAccessibilityTree: browser-tab compaction is off and the tree does not change during a walk; a line's text beyond its indentation and index is not modelled, nor how `text_snippets` and `is_plain_text_subtree` gather a node's text.
- RenameMutex.NoFileIsLost: its condition on runs is sufficient; `RunLosesIff` is exact. Each directory stands in the tree once, so bind mounts are left out, and paths given by callers are absolute.
- RenameMutex.DestinationRenames.CompareEntries: the comparison of the two real paths is an arbitrary verdict, which counts only for one file under one parent path.
- ParseArgs.SeparateIsJoinedWhereAnswersAgree: its condition is sufficient and not necessary.
- ParseArgs: help resolution, flag validation and positional conflicts, which are lookups.
- EntryGuard: the pattern for `require("electron")` is a property of a chunk; watch mode, in which the guard does nothing, the check of rollup inputs and the smoke load are not modelled.
- BashPrompt: the debug traps and the dispatch of prompt commands, which evaluate shell code.
- React Native screens, formatters, terminal and network streaming, encryption and the platform interfaces (AT-SPI, Electron, GDK): I/O or UI with no property of this kind.
