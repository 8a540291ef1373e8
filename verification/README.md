# Flummox: a verified model

Flummox compresses installed game files in place, so most of its value lies in what it never loses:
the original bytes while a file is being exchanged, the jobs in its queue, the changes it has
still to act on, the receipts of work already done, and the games whose drives are away. This
project models those parts in Dafny and proves what they keep.

| file | what it covers |
|---|---|
| `Journal.dfy` | journaled replacement of one file on macOS, with crashes between any two durable steps, recoveries (locked or not) and a game that rewrites its own file |
| `FolderPass.dfy` | a pass over a whole folder of such files, and the recovery of a folder |
| `JobQueue.dfy`, `Maintenance.dfy` | the bounded job queue, and the memory that decides which games are due |
| `CompressionPass.dfy`, `FileRanges.dfy` | the parallel btrfs pass over its shared counters, the range-by-range rewrite, the extent loop |
| `Receipts.dfy` | the tables that turn receipts into what still needs work |
| `Sampling.dfy`, `Budget.dfy`, `Levels.dfy` | which bytes are sampled, the budget racing threads share, the choice of a level |
| `LzxProtocol.dfy`, `LzxReport.dfy` | the framed protocol between the benchmark and its C helper, and the totals it reports |
| `MountInfo.dfy`, `Corpus.dfy`, `Riff.dfy` | the mount table, the corpus fingerprint stream, the RIFF chunk walk |
| `Libraries.dfy`, `Storage.dfy` | merging and remembering games, free-space plans |
| `Common.dfy`, `Games.dfy`, `LittleEndian.dfy`, `Splitting.dfy` | shared vocabulary |

A concurrent or crashing part is a machine: a `Step` function from a state and an action to a
state, and a `Run` over a sequence of actions. Main theorems quantify over every sequence. An
operation the program performs in place is a class method whose postcondition ties the new state
to a function of the old one; the theorems are about those functions.

## Where the code and its documentation part

- `src/macos.rs:447-449` says the original is deleted only after the swapped result has been
  verified. The `Recover` command (`src/macos.rs:790-795`) takes no lock. Two of them, run after a
  stop just past the swap, can both read the exchanged files and both swap them; the first then
  finds equal bytes and deletes the original, though the replacement was never checked as
  published. The promise holds exactly when recoveries take the lock or there is at most one
  (`Journal.OriginalIsLostExactly`). The game's path reads back the right bytes all the same
  (`Journal.SourceAlwaysReadsBack`).
- `src/macos.rs:549-551` says that an error after the work directory is kept leaves both files and
  the journal. A failed save leaves the copy without a journal, and nothing ever finds it again
  (`Journal.StageEndsExactly`, `Journal.OrphansStay`). A failure between the two removals at the
  end leaves the journal without the copy (`FolderPass.PassThenRecovery`).
- A stop or an error inside `clear_record`, between its two removals (`src/macos.rs:407-408`),
  leaves a journal that no recovery can ever clear, and that blocks its whole folder
  (`Journal.WindowIsReachable`, `Journal.StuckForEver`, `FolderPass.OneStuckBlocksTheFolder`).
- `src/desktop_jobs.rs:61` says an id is unique within the queue and kept across restarts, and ids
  rise in memory. A restart that finds an older file, after a failed save or a stop before one,
  can lead to an id being issued twice (`JobQueue.RestartRepeatsExactly`).
- An enqueue that fails because the volume cannot be read has already evicted a history entry
  (`JobQueue.FailedEnqueueEvicts`).
- The byte total of progress events is an atomic that wraps; it never falls, in any interleaving,
  exactly when the files that can earn a receipt fit 64 bits together
  (`CompressionPass.BytesNeverFallExactly`). A pass whose least receipt level is `i32::MAX` reports
  no level, like a pass without receipts.
- The benchmark's windows overlap when a file gets three or four samples and is shorter than as
  many whole frames (`Sampling.BenchApartExactly`). A preview cap of 0 still reads one byte
  (`Sampling.CapHoldsFromOne`), and the cap (`src/estimate.rs:470-471`) leaves out the head that is
  read before the windows (`Sampling.CapWithHead`); a buffer shorter than the head reads none of
  it, so a preview recognises no format in a file below 148 bytes.
- The mount table does not survive printing and parsing for every entry: the type and the options
  are not unescaped, a mount point or option list that is a lone dash is taken for the separator,
  and a carriage return at the end of a line is dropped (`MountInfo.LineRoundTripsExactly`,
  `MountInfo.LinesRoundTripExactly`). The kernel prints mount points as absolute paths and options
  that start with `rw` or `ro`, so a lone dash can only come from other text given to the parser.
- The corpus stream identifies a tree only when every file was as long as the walk said; when not,
  two trees can share a stream (`Corpus.SizesMatter`). The program refuses such a corpus.
- The RIFF walk never looks at the declared length of the format chunk (`Riff.CodecDecides`).

## Model

| member | source | states |
|---|---|---|
| Journal.SourceAlwaysReadsBack | src/macos.rs:396-444 | in every state of every run of one replacement, any number of recoveries, stops between any two durable steps and writes by the game, locked or not, the game's path exists and reads back what the game last wrote |
| Journal.StepKeepsInv | src/macos.rs:529-578 | each durable step keeps the invariant behind it: which of the journal's two files each name holds, what each process has read, and that a staged copy holds the original bytes |
| Journal.RunKeepsInv | src/macos.rs:529-578 | so does every run |
| Journal.OriginalIsLostExactly | src/macos.rs:447-449 | for every number of recoveries: some run deletes the original before the exchanged files were verified if and only if recoveries take no lock and there are at least two |
| Journal.UnlockedRunLosesOriginal | src/macos.rs:790-795 | with two recoveries or more, the run that does so, for every game file |
| Journal.LockedRun | src/macos.rs:208-226 | under the lock, in every run: at most one process is active, what a recovery at work has read stays true until it acts, and an original is removed only after verification |
| Journal.SingleRun | src/macos.rs:413-444 | the same of what is read and removed with a single recovery, locked or not |
| Journal.RecoveryRestores | src/macos.rs:410-444 | after any run, once nothing is active, an undisturbed recovery puts the original identity and bytes back and removes the copy and the journal exactly if the work directory still holds its file and the path holds one of the journal's two files; otherwise it changes nothing |
| Journal.EightStepsRecover | src/macos.rs:413-444 | eight steps of the machine are one whole call of `recover_original`, so the step machine and the call agree |
| Journal.UndisturbedProgress | src/macos.rs:413-444 | the machine moves an undisturbed recovery as it moves alone and touches nothing else |
| Journal.WindowIsReachable | src/macos.rs:404-409 | for every game file, a stop one step before the end of a good pass leaves a journal without its copy |
| Journal.StuckForEver | src/macos.rs:404-444 | once the copy is gone, the journal there and no process between the two removals, no run ever clears the journal |
| Journal.GameFile.Save | src/macos.rs:98-110 | the journal is there when it succeeds, is not when it is refused, and is when only making it durable fails |
| Journal.GameFile.Swap | src/macos.rs:175-204 | exchanges the two names, or changes nothing when a name is missing or the exchange is refused, or fails after the exchange |
| Journal.GameFile.ClearRecord | src/macos.rs:396-409 | the game's path is left alone; neither copy nor journal is left on success, both are when it is refused, and only the journal when the second removal fails |
| Journal.GameFile.RecoverOriginal | src/macos.rs:413-444 | the disk and the answer are those of the value-level recovery the lemmas below account for, for every state, every refusal from outside the files, and every way its two calls can fail |
| Journal.RecoverySucceedsExactly | src/macos.rs:413-444 | it succeeds exactly if folder, drive and game allow it, its calls succeed, and both names hold the two files with the original's bytes; then the original is back and nothing is beside it. A recovery that is not allowed, does not find both files, or has its first call refused changes nothing; one that fails at or after the exchange leaves the two files exchanged, one that fails between the removals leaves the original and the journal |
| Journal.RecoveryIsStoppedSteps | src/macos.rs:413-444 | however the call ends, the disk is what some number of its steps in the machine leave |
| Journal.StopIsATurn | src/macos.rs:413-444 | conversely, a stop after any number of steps leaves what some end of the call leaves |
| Journal.GameFile.Stage | src/macos.rs:450-580 | the disk and the result are those of the value-level stage the lemmas below account for, for every check and every way of dropping, saving, swapping and clearing |
| Journal.StageEndsExactly | src/macos.rs:450-580 | how that call can end, exactly when, and on exactly which disk: replaced with equal bytes, left alone, left alone with an orphaned copy; and once a journal is left, the original is at its path exactly if the save was not completed or the exchange was refused, else the replacement is, with the other file beside it until it is cleared |
| Journal.StageIsStoppedSteps | src/macos.rs:450-580 | each of those ends is a number of steps of the machine and a stop |
| Journal.StopInterrupts | src/macos.rs:450-580 | conversely, a stop after any number of steps leaves the file in one of those ways |
| Journal.OrphansStay | src/macos.rs:549-553 | a copy left without a journal is removed by no run |
| Journal.OrphanIsReachable | src/macos.rs:549-553 | a stop before the journal leaves one, for every game file |
| FolderPass.VisitFile | src/macos.rs:613-646 | one file of a pass, in every way it can end: it passes exactly if the pass is not stopped, its blocks can be read, and its name is linked elsewhere or the stage gives no error; it counts as changed exactly if it is linked once, verified and cleared; a stop touches nothing; no other file changes |
| FolderPass.Visit | src/macos.rs:585-656 | a pass refuses a folder with a journal and changes nothing; otherwise it ends well exactly if every file passes, and else at the first that does not; the files before it are settled as their own conditions say, it is interrupted in one of the five ways, the rest are untouched, and each report is the totals so far |
| FolderPass.TotalsAreExact | src/macos.rs:609-646 | those totals are the sums over the files so far, each capped at 64 bits, and changed and skipped add up to the files |
| FolderPass.RecoverFolder | src/macos.rs:206-226 | replays the journals in the order they are listed, up to the first that is refused or fails, and touches nothing else |
| FolderPass.RecoveredExactly | src/macos.rs:206-226 | a folder ends without a journal exactly if no journal in it is refused or fails, in whatever order they are listed |
| FolderPass.PassThenRecovery | src/macos.rs:206-226 | after a pass that ended in any way and one recovery: no journal is left exactly if the pass did not end half-cleared and the recovery was allowed; then every file is as it was or replaced; in every case each file reads back its bytes and every orphaned copy is still there |
| FolderPass.EveryHistoryKeeps | src/macos.rs:206-226 | over any number of passes and recoveries, however each ends, every file reads back the bytes it started with and no orphaned copy is ever removed |
| FolderPass.OneStuckBlocksTheFolder | src/macos.rs:604-607 | a journal whose files are not both there makes every recovery of the folder fail and keeps the folder journaled, so every later pass refuses it |
| JobQueue.Queue.Enqueue | src/desktop_jobs.rs:152-203 | result and queue are those of the value-level enqueue the lemmas below account for |
| JobQueue.EnqueueAnswersExactly | src/desktop_jobs.rs:152-203 | for every valid queue: it answers an id exactly if the game is idle and an active job of its folder has that id and this very kind, or if the folder is free, there is room, the next id fits and the volume answers, and then one waiting job with that id, game, kind and volume is added; so a success names an active job of that folder and kind; and what each failure leaves |
| JobQueue.RoomIsOldest | src/desktop_jobs.rs:172-184 | at the limit of 1000 jobs, making room drops the oldest completed or cancelled job and keeps the others in order, and fails exactly if there is none; below it nothing is dropped |
| JobQueue.Queue.EnqueueAutomatic | src/desktop_jobs.rs:240-249 | the same for automatic jobs |
| JobQueue.AutomaticAnswersExactly | src/desktop_jobs.rs:240-249 | it answers as a plain enqueue of a compression does; a job it adds is marked automatic, and a job that was there is left as it was |
| JobQueue.Queue.Retry | src/desktop_jobs.rs:206-238 | the same for a retry |
| JobQueue.RetryAnswersExactly | src/desktop_jobs.rs:206-238 | a retry succeeds exactly for a listed, inactive job whose folder is free, with room and a volume; then that job waits again, unpaused, on the volume it had or else the one given, and nothing else changes; a refusal changes nothing |
| JobQueue.Queue.Load | src/desktop_jobs.rs:97-132 | the queue a restart gives, an empty one if there is no file, or a refusal of an unreadable file or over 1000 jobs |
| JobQueue.LoadAnswersExactly | src/desktop_jobs.rs:97-132 | a file of at most 1000 jobs is accepted; running and paused jobs, and waiting ones without a volume, come back interrupted, all else as saved; the next id is the least that covers the saved one and every job |
| JobQueue.QueueSafety | src/desktop_jobs.rs:97-250 | from an empty queue, after any sequence of enqueues, automatic enqueues, retries, moves of active jobs to any phase, saves and restarts: at most 1000 jobs and 200 active, distinct ids up to the next id, and one active job a folder; and ids issued in strictly rising order if every restart finds a file that covers the ids issued |
| JobQueue.EverySessionKeepsQueue | src/desktop_jobs.rs:97-250 | the same from any valid queue and file |
| JobQueue.SaveCovers | src/desktop_jobs.rs:134-150 | a save covers the ids issued so far |
| JobQueue.RestartKeeps | src/desktop_jobs.rs:97-132 | a restart gives the saved queue with every job of it, valid again |
| JobQueue.RestartRepeatsExactly | src/desktop_jobs.rs:97-132 | a restart leads to an id being issued twice by no operations whatever if and only if the file it finds covers the ids issued so far |
| JobQueue.EveryRunKeepsQueue | src/desktop_jobs.rs:152-250 | between restarts, from any valid queue, the same bounds hold and ids rise |
| JobQueue.OpKeeps | src/desktop_jobs.rs:152-250 | each operation keeps them, and loses no job that is not completed or cancelled |
| JobQueue.RoomKeeps | src/desktop_jobs.rs:172-184 | making room ends, drops only completed or cancelled jobs, and fails exactly when it cannot get below the limit |
| JobQueue.FailedEnqueueEvicts | src/desktop_jobs.rs:152-203 | exactly when a failing enqueue still drops a history entry |
| Maintenance.Baselines.Acknowledge | src/desktop_jobs.rs:252-258 | records the build as covered and changes nothing else |
| Maintenance.Baselines.Observe | src/desktop_jobs.rs:260-316 | returns the due games and leaves the memory after the scan; with distinct ids the answer is the subsequence of the scan at the rising list of exactly those places whose game is due in the memory before it, each once; an unhealthy scan returns nothing and changes nothing |
| Maintenance.ObserveIsExact | src/desktop_jobs.rs:260-316 | after any history of scans and acknowledgements, a scan returns exactly the covered, idle games outside a pause whose build differs from the one fixed by the history, or that were never recorded and appear after a first healthy scan |
| Maintenance.ObserveListsInOrder | src/desktop_jobs.rs:260-316 | after any history the answer is the subsequence of the scan at exactly those places whose game is due by the events alone, each once and in scan order |
| Maintenance.PendingIsExact | src/desktop_jobs.rs:260-316 | what makes a game pending, in terms of events alone |
| Maintenance.PendingIsNeverLost | src/desktop_jobs.rs:260-316 | pauses, busy states, failed scans and other games' news never lose a pending game; only an acknowledgement or a sighting outside every location ends it |
| Maintenance.StandingMeans | src/desktop_jobs.rs:260-316 | the fold over a history and the account by events name the same event, in both directions |
| Maintenance.MemoryFollows | src/desktop_jobs.rs:252-316 | the stored memory of a game is the standing its history gives it |
| Maintenance.ScanSeparates | src/desktop_jobs.rs:275-312 | one scan changes what is remembered of a game only by its own entry |
| Maintenance.DueSeparates | src/desktop_jobs.rs:275-312 | a game is returned exactly if it is due in the memory before the scan, whatever stands beside it in the list |
| CompressionPass.ProgressCounts | src/backend/btrfs.rs:373-468 | under every interleaving the events count 1, 2, 3, …, no file has two receipts, and none has a receipt and an error |
| CompressionPass.BytesNeverFallExactly | src/backend/btrfs.rs:431-445 | the byte totals never fall, in any interleaving, if and only if the targets whose attempt earns a receipt fit 64 bits together |
| CompressionPass.EveryRunCanFinish | src/backend/btrfs.rs:373-446 | from every state of every run some schedule ends all tasks: the report lock strands none |
| CompressionPass.ReceiptMeansWholeFile | src/backend/btrfs.rs:404-430 | a receipt in any run means that every gate admitted, every range was rewritten, the ranges tile the file, and the level is their least |
| CompressionPass.OutcomeIsExact | src/backend/btrfs.rs:430-468 | a finished pass: files, receipts and events are equally many; a file has a receipt exactly if its attempt earned one and it was not skipped, an error exactly if it failed; the byte total is the sizes of the files with receipts as far as 64 bits can count; and the effective level is the least receipt level |
| CompressionPass.CancelStops | src/backend/btrfs.rs:389-396 | from every state: a task that has not begun when the flag is up never begins, and only such a task is skipped |
| CompressionPass.InvRun | src/backend/btrfs.rs:373-468 | the invariant behind them holds in every state of every run |
| FileRanges.RewriteRanges | src/backend/btrfs.rs:185-209 | succeeds exactly when every gate admits and every range is rewritten; then the requests tile the file and the level is their least, or 0 for an empty file; otherwise it ends at the first gate or request that fails, with the ranges so far |
| FileRanges.EveryByteOnce | src/backend/btrfs.rs:185-209 | a tiling covers each byte of the file once and no byte beyond it |
| FileRanges.RangesTile | src/backend/btrfs.rs:192-207 | consecutive ranges of at most 16 MiB tile the file |
| FileRanges.CompressedBytes | src/backend/btrfs.rs:257-315 | for every layout and every batch size up to 128 the loop ends with each extent counted once, as mapped and as encoded |
| FileRanges.TotalIsBytes | src/backend/btrfs.rs:257-315 | both sums count bytes: they are the number of bytes of the file that some extent, or some encoded extent, holds |
| FileRanges.Tally | src/backend/btrfs.rs:290-312 | one answer adds its own extents and moves the start to the end of its last |
| FileRanges.ServedIs | src/backend/btrfs.rs:262-290 | a query from the end of the extents seen is answered with the next ones |
| Receipts.Db.RecordOutcome | src/db.rs:438-455 | the tables after a pass, or the old ones when a timestamp does not fit |
| Receipts.Db.RecordWithLevels | src/db.rs:457-532 | replaces the rows of one game, all or nothing |
| Receipts.PassRowsExactly | src/db.rs:438-532 | a pass whose timestamps fit leaves the game's row, one row for each file of the walk with that file's fingerprint and the level of its last receipt, else of the row that matched, else none, and nothing else of that game; every other game is as it was |
| Receipts.Db.InvalidateCompression | src/db.rs:793-808 | drops the rows of every game of that folder and clears their levels; folders and all other games stay |
| Receipts.Db.Forget | src/db.rs:811-825 | removes one game and its rows |
| Receipts.Db.ChangedSince | src/db.rs:647-668 | the subsequence of the walk at exactly those places whose file has no row, another fingerprint, or a compression still to be attempted; changes nothing |
| Receipts.OmittedExactlyOnEvidence | src/db.rs:647-668 | after any history, a compressible file is left out exactly if a pass issued a receipt for its very size, inode, mtime and ctime and no later event took that evidence away |
| Receipts.OthersOmittedExactly | src/db.rs:647-668 | a file the plan does not compress is left out exactly if the last pass that committed since the game was invalidated or forgotten walked it with this very fingerprint |
| Receipts.NothingLeft | src/db.rs:438-532 | once each compressible file of the walk has a receipt or earlier evidence, nothing is returned |
| Receipts.RowsFollow | src/db.rs:438-532 | a stored row vouches for a file exactly if the history holds evidence for it |
| Receipts.PassWrites | src/db.rs:438-532 | what a pass leaves for a file: the level of its last receipt, else the row that still matched |
| Receipts.GamesFollow | src/db.rs:793-825 | the folder a game is stored under is the one of its last pass since it was forgotten |
| Receipts.EvidenceUnfolds | src/db.rs:438-532 | evidence at the end of a history is a receipt of the last event, or earlier evidence that event keeps |
| Receipts.ColumnsRoundTrip | src/db.rs:955-962 | every 64-bit value survives the signed column and no two share one |
| Sampling.SampleBlocksSpread | src/estimate.rs:826-832 | sampled blocks start at 0 and rise strictly short of saturation; the last block is reached exactly then |
| Sampling.EvenlySpread | src/estimate.rs:826-842 | short of saturation each sampled block and offset is the even share of the span, rounded down; a single sample is its middle |
| Sampling.PreviewReads | src/estimate.rs:479-515 | the head and the windows the paired estimate reads |
| Sampling.CapWithHead | src/estimate.rs:484-497 | head and windows together exceed the cap by at most 148 bytes, and the lemma says exactly when they stay within it |
| Sampling.PreviewWindowsFit | src/estimate.rs:479-515 | over the cap: inside the file, together within the cap, disjoint short of saturation, and the last ends with the file exactly short of saturation |
| Sampling.WorkerNeverSaturates | src/estimate.rs:835-842 | a cap of 1 MiB saturates for no 64-bit size |
| Sampling.CapHoldsFromOne | src/estimate.rs:487-498 | the total stays within the cap exactly if the cap is at least 1 or the file is empty |
| Sampling.SampleInBounds | src/estimate.rs:826-832 | saturation or not, only blocks of the file are sampled |
| Sampling.EstimateReads | src/estimate.rs:360-420 | the head and the blocks the single estimate reads |
| Sampling.EstimateFits | src/estimate.rs:360-420 | disjoint, inside the file, within the model's cap, and from the first byte to the last when there are several |
| Sampling.BenchFile | src/benchmark.rs:345-374 | one file: the reads are the first of the evenly spread windows, all of them unless the cancel flag is up at the next; they lie inside the file, and what is left of the budget plus what was read is what there was |
| Sampling.BenchRun | src/benchmark.rs:316-381 | over all files: each that opens gets the windows of a fair share of the budget, from one frame to four, as far as the budget lasts; remaining plus sampled is the budget; and it ends early only when the budget is spent or the flag is up |
| Sampling.BenchApartExactly | src/benchmark.rs:353-361 | the windows of a file share no byte exactly if there are at most two or the file holds as many whole frames |
| Budget.BudgetHolds | src/estimate.rs:655-718 | for every interleaving of samplers the counter is the budget less what was spent, never wraps, and the overshoot is less than one capped file a thread |
| Budget.EstimateHolds | src/estimate.rs:644-718 | the same with the real sampler and its cap, for files of any size |
| Budget.BoundIsReached | src/estimate.rs:655-718 | for every budget, thread count and cap some run overshoots by all the bound allows |
| Levels.ChooseLevel | src/estimate.rs:782-823 | the expensive level is chosen exactly if it saves any disk space on the samples; ties and regressions keep the cheap one |
| Levels.CostIsBounded | src/estimate.rs:79-88 | a block never costs more than stored as it is, less exactly if a sector is saved, and then the sectors of its compressed form |
| Levels.ModelsDifferAtTheEdge | src/estimate.rs:114-121 | the two cost models differ exactly where the saving is one sector to the byte, and by one sector |
| Levels.LevelWindowInside | src/estimate.rs:790-808 | every block read to choose a level lies inside the file |
| LzxProtocol.FramesStayInStep | src/benchmark.rs:138-219 | with pipes that split data anywhere, in every state of every run: the helper has got the chunks sent, in order; each has at most one reply, from 1 to its own length; no length is misread or cut short; and the helper ends well only after the zero frame |
| LzxProtocol.NoDeadlock | tools/wof-lzx-helper.c:69-99 | with two pipes of any capacities, both of which can fill, until both sides are done one of them can move |
| LzxProtocol.StepKeepsSync | tools/wof-lzx-helper.c:69-99 | each read, write, reply and exit keeps both ends agreed on where frames begin |
| LzxProtocol.RunKeepsSync | src/benchmark.rs:47-61 | so does every run |
| LzxReport.Measure | src/benchmark.rs:138-219 | each total is the sum over files, capped at 64 bits: the cheaper of stream and raw form in clusters and in bytes, the files whose stream saves a cluster, the chunks that compress and those that do not; it fails exactly on a reply above its request or replies of one file above 64 bits |
| LzxReport.TotalIsClusters | src/benchmark.rs:63-65 | the summed costs are the clusters the cheaper forms need when rounding up stays within 64 bits for every file |
| LzxReport.AllocatedExactly | src/benchmark.rs:63-65 | rounding up to clusters is right exactly below the last cluster 64 bits can count, and 0 from there |
| LzxReport.MeasureFile | src/benchmark.rs:150-194 | one file: fails exactly on a reply above its request or a sum above 64 bits, else the stream length is the sum of the replies and each chunk is counted as compressed or raw |
| LzxReport.OneMoreChunk | src/benchmark.rs:185-200 | each chunk adds its reply, and each after the first an offset of 4 bytes, or 8 for a file past 4 GiB; one whose reply is its own length counts as raw |
| LzxReport.AddFile | src/benchmark.rs:195-215 | one row adds the file's cheaper form |
| LittleEndian.RoundTrip | tools/wof-lzx-helper.c:69-99 | a length that fits its field reads back as itself |
| MountInfo.UnescapeOctal | src/fsprobe.rs:234-258 | the loop decodes as the recursive definition does, lone backslashes included |
| MountInfo.UnescapeAtBackslash | src/fsprobe.rs:234-258 | text up to a backslash stands as it is; three octal digits after it are one character, and else the backslash stands |
| MountInfo.EscapeRoundTrip | src/fsprobe.rs:234-258 | unescaping undoes escaping for every string |
| MountInfo.LineReparses | src/fsprobe.rs:208-232 | a printed line without a lone dash parses to its entry, the type and options still escaped |
| MountInfo.WordsParse | src/fsprobe.rs:208-232 | words without spaces on either side of the first lone dash: fewer than five before it are no entry; else the fifth is the mount point, the sixth the options, and those after it type, source and options, empty when missing |
| MountInfo.NoSeparatorIsDropped | src/fsprobe.rs:208-212 | a line without the separator is no entry |
| MountInfo.LineRoundTripsExactly | src/fsprobe.rs:208-232 | it parses to the very entry exactly if nothing is a lone dash and the type and options need no escaping |
| MountInfo.DashMountIsDropped | src/fsprobe.rs:208-232 | a mount point that is a lone dash loses its line |
| MountInfo.DashOptionsAreLost | src/fsprobe.rs:208-232 | options that are a lone dash are read as none |
| MountInfo.LinesRoundTripExactly | src/fsprobe.rs:204-206 | printed lines are read back exactly if none ends in a carriage return |
| MountInfo.TableRoundTrips | src/fsprobe.rs:204-232 | a whole table of such entries parses back to them in order |
| MountInfo.ChooseMount | src/fsprobe.rs:261-270 | picks the deepest mount point that is an ancestor by components, the last listed of equals, and none if there is none |
| MountInfo.LongerIsDeeper | src/fsprobe.rs:264-268 | among ancestors of one path, longer text is greater depth |
| Corpus.FingerprintIsExact | src/compatibility.rs:370-412 | two walks read whole feed the hash the same bytes exactly if they hold the same files, in whatever order |
| Corpus.StreamInjective | src/compatibility.rs:372-409 | equal streams of whole files are the same files in the same order |
| Corpus.SizesMatter | src/compatibility.rs:395-409 | without the size check two different trees share a stream |
| Corpus.Feed | src/compatibility.rs:370-412 | what is hashed and the byte total, for reads of any size |
| Corpus.FeedFile | src/compatibility.rs:379-405 | one record: path length, path, size, content |
| Corpus.SortSorts | src/compatibility.rs:370-371 | the order is a permutation sorted by path |
| Corpus.SortedUnique | src/compatibility.rs:370-371 | and the only one when paths are distinct |
| Corpus.PathOrder | src/compatibility.rs:370-371 | paths are totally ordered |
| Libraries.Merge | src/desktop.rs:301-324 | the merge, for the lemmas below |
| Libraries.MergeIsExact | src/desktop.rs:301-324 | one entry a folder reported, with every id reported for it and no other, idle exactly if every report was |
| Libraries.MergeKeepsFirst | src/desktop.rs:299-300 | each entry keeps the id and build of the first report of its folder |
| Libraries.MergeInOrder | src/desktop.rs:301-324 | the entries stand in the order in which their folders were first reported; each is its first report, resolved, with the other ids reported for it in order, each once, and the state of the last report that was not idle |
| Libraries.MergeIdempotent | src/desktop.rs:301-324 | merging again changes nothing |
| Libraries.Cache.Remember | src/libraries.rs:66-134 | what is returned is what is written, for the lemmas below |
| Libraries.RememberIsExact | src/libraries.rs:83-121 | a record is in the result exactly if it is a sighting of this scan on an allowed volume, or a kept record whose folder was not sighted, marked broken and otherwise unchanged; each folder once |
| Libraries.SightedExactly | src/libraries.rs:83-121 | a game is sighted exactly if its folder exists on a readable volume and, where it was cached, the cached volume is mounted where it was; a record carried over is marked as offline or as missing by that same question |
| Libraries.RememberInOrder | src/libraries.rs:83-121 | first sightings in the order of the scan, then records carried over in the order of the cache |
| Libraries.WorkingIsReal | src/libraries.rs:83-106 | a game not marked broken was found by this scan, its folder exists, and the volume it was cached on is mounted |
| Libraries.NeverForgotten | src/libraries.rs:107-121 | over any run of scans a folder whose games are kept stays, once |
| Libraries.AwayKeepsRecord | src/libraries.rs:86-99 | while its drive is away a game keeps its record but for the state, whatever is mounted or found in its place |
| Libraries.CoveredIsNeverForgotten | src/desktop.rs:252-264 | the same for every folder a location covers, resolved anew at each scan |
| Libraries.MissedStaysIfCovered | src/desktop.rs:252-264 | a game added by hand that a scan misses stays exactly if a location covers it |
| Libraries.AliasesStayAliases | src/desktop.rs:266-278 | two spellings that differ in an existing ancestor resolve alike while the rest is offline |
| Riff.Inspect | src/classify.rs:259-303 | the walk ends, reads only inside the bytes on any word size, and agrees with the recursive reading |
| Riff.VerdictIsExact | src/classify.rs:265-285 | raw, or encoded, exactly if whole chunks lead to a format chunk whose codec says so |
| Riff.CodecDecides | src/classify.rs:274-285 | whatever the chunks before it, the lengths and the rest hold, the codec decides |
| Riff.CutShort | src/classify.rs:274-279 | malformed exactly if the bytes end before the codec of a format chunk the walk reaches |
| Riff.OtherForms | src/classify.rs:259-303 | what is said of files too short for a form and of the forms other than WAVE |
| Riff.ChunksAreSkipped | src/classify.rs:286-297 | written whole chunks with even padding change no verdict |
| Riff.LayoutExists | src/classify.rs:266-299 | every body is whole chunks and then the place where the walk stops |
| Riff.LayoutIsUnique | src/classify.rs:266-299 | in one way only |
| Riff.StepAt | src/classify.rs:179-190 | one turn's reads see the chunk at the offset |
| Storage.SpacePlan.Add | src/storage.rs:286-308 | the plan with the addition, or an overflow that changes nothing |
| Storage.SpacePlan.Check | src/storage.rs:312-327 | passes exactly if every row fits its reading |
| Storage.SpacePlan.Recheck | src/storage.rs:331-342 | passes exactly if every mount point still has its volume and room for its row; the plan is unchanged |
| Storage.PlanIsExact | src/storage.rs:286-327 | a plan is built and passes exactly if for every volume the lowest reading covers all that is asked plus the greater of a twentieth and 64 MiB |
| Storage.PlanTallies | src/storage.rs:286-308 | one row a volume, with its total, headroom, lowest reading, the mount point first named for it and its reasons in order; building fails exactly if a total overflows |
| Storage.PlanInOrder | src/storage.rs:286-308 | the rows stand in the order in which their volumes were first named |
| Storage.OrderAndSplittingDoNotMatter | src/storage.rs:286-327 | every order of the additions, and every way of splitting one on its volume, has the same verdict |

## Left out

- Journal.GameFile.ClearRecord: an emptied work directory that is not itself removed counts as removed; a journal that was saved but not made durable counts as there.
- Journal.GameFile.Stage: the copy and its compression, signatures, extended attributes and sizes are the fields of `Checks` and the candidate, and an error while the copy is made is one of its failed checks; the space plan is `Storage`.
- Journal.RecoveryRestores: one replacement a run and one root; overlapping roots share a journal name for a path, which is not part of the model. Identities are tokens never used twice and a hash stands for its bytes. A journal is either whole on disk or absent.
- Journal.SourceAlwaysReadsBack: the game does not write between the last check before the swap and the end of the replacement, nor while a recovery is active; the program relies on the idle check for that.
- Journal.OriginalIsLostExactly: a pass at work is taken to be seen by the idle check of a recovery, since its walk holds the folder open; whether `lsof` reports it is outside the model.
- FolderPass.Visit: the walk is given as the list of files it meets; directory errors during the walk and the summary text are not modelled.
- JobQueue.Queue.Load: JSON and the atomic write of `save` are not modelled; what can go wrong with the file is one case, and a save either replaces the file or does nothing.
- JobQueue.QueueSafety: the worker is not shown in these files; it may move any active job to any phase.
- Maintenance.ObserveIsExact: location and exclusion settings are fixed over the history, and ids are distinct within a scan. Queue and baselines share one object in the program and are two classes here.
- CompressionPass.OutcomeIsExact: opening a file, its two identity comparisons and its rewrite are one given outcome a file, tied to its ranges by `ReceiptMeansWholeFile`; warnings and completion events are not modelled.
- FileRanges.CompressedBytes: the kernel answers with the extents past the start it is asked for; failing ioctls are not modelled.
- Receipts.Db.RecordWithLevels: SQLite is two maps and a commit is one assignment; of a game row only the folder and the level are kept.
- Sampling.EstimateReads: the file keeps its size while it is read; the scaling of costs by floating point is not modelled.
- Levels.ChooseLevel: the blocks read and their compressed lengths are given; the zstd codec itself is not modelled.
- LzxProtocol.FramesStayInStep: pipe errors other than the helper's exit, and the time limit of the helper, are not modelled.
- LzxReport.Measure: where the product in `allocated` leaves 64 bits it wraps, as in a release build; a debug build stops.
- Corpus.FingerprintIsExact: is about the bytes fed to the hash, not about the hash.
- Libraries.Cache.Remember: the file lock, JSON and the atomic write are not modelled; a failed write leaves the cache as it was.
- Libraries.RememberIsExact: the scan has one entry a folder, as `merge` gives it, and so has the cache, as every scan leaves it.
- Titles, size hints, tool flags and the detail text of a broken game play no part in these rules and are not in `Game`.
- System calls, sandboxing, the graphical and command-line front ends, packs, jobs and launchers, static classification tables, DDS and ZIP headers: input and output, or table look-ups.
