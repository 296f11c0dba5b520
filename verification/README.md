# Verified models of the desktop and server core

Twelve pieces of the program in which the logic, not the plumbing, carries the difficulty are
modelled here and proved: the line diff and its unified output, workspace snapshots with a
transactional restore, the durable memory-extraction jobs, the wakeup channel, the document
chunker, the context compressor, the two schedulers, the memory lifecycle with its decay, the
weighted median of Auto routing, Web Push delivery and the name-status parser. `dafny verify
dfyconfig.toml` checks the whole project. Every lemma switches Dafny's automatic induction off, so
each induction is written out; for a lemma such as `HunkPatch.RejectHead`, which is not inductive,
the hypotheses generated otherwise contradict each other.

How the parts are laid out:

- **Diff** - `EditScript` says what an edit script and a longest common subsequence are;
  `LineDiff` fills the table, walks it and trims; `Hunks` groups and numbers; `HunkPatch` proves
  the patch theorem against an independent `Apply`; `Lines` and `UnifiedDiff` print the hunks and
  read the text back.
- **Snapshots** - `Base64`, `SnapshotPaths` (the validator), `SnapshotTree` (directory trees and
  capture), `SnapshotRestore` (restore on a workspace in which any call may fail), `Counting`.
- **Protocols** - `ExtractionJobs` and `WakeupChannel` are state machines over atomic steps, so
  that every interleaving is a sequence of steps; `JobRunner` is the straight-line code of one
  job task, proved to be a run of those steps; `DispatcherTurns` says what a tick starts, `WakeupCalls`
  when a call of `wait` sleeps and ends; `SessionMarks` is the per-transaction queue in
  front of the wakeup channel; `PushDelivery` is one subscription over whole runs,
  `PushStatuses` the same in status numbers.
- **Text budgets** - `Whitespace`, `Chunks` (the function), `ChunkLaws` and `EmptyChunks` (what holds of
  it), `Chunker` (the loops), `ContextBudget`.
- **Shared** - `Common`, `Splitting` (text cut at a separator), `Remainders`.
- **Time** - `CronTable` and `ScheduleStore` (server), `CatchUp` (desktop).
- **Memories** - `MemoryDecay` (one row over time), `SupersedeChains` (where chains of superseded
  rows lead), `MemoryLifecycle` (the store).
- **Small** - `WeightedMedian`, `NameStatus`.

Main results, each for all inputs or all runs:

1. The diff is an edit script from the old lines to the new ones, numbered in order; within the
   size cap it has as few changes as any script. With one line of context or more the *printed*
   text, parsed again, turns the old lines into the new ones; with none it does so exactly when no
   run of changes after the first line shows one side only.
2. Every call of a restore may fail, and a list of faults says which ones do. That list decides the
   result: with a fault before the final removal every visible entry is what it was; with none up to
   and in that removal exactly the payload's tree stands; with a fault in the removal alone the
   visible entries are what it left of the originals, all of them if and only if it had removed none.
   Capture and restore undo each other; a captured workspace validates exactly when it has at most
   10000 files and no path the validator refuses.
3. In every interleaving of enqueues, deletes, ticks, task steps, provider answers and lost writes
   there is at most one task per job and at most four tasks, attempts equal claims and stay within
   three, claims keep the backoff apart, each run has one job, and settled rows stay as they are until
   they are deleted.
4. A wakeup channel loses no wakeup in any interleaving if and only if it is bound to the loop or
   notified on it alone; every return of `wait` covers all notifications counted before it, and a
   sleeper that is behind on such a channel can always be woken by what is already under way. A call
   sleeps exactly while nothing has been set since the last clear, and every call can end.
5. Chunks stay within the character target though cuts are made in bytes; they hold what the text
   says, with characters side by side only where the text has them so, and paragraphs that fit in
   groups as large as they can be. In a text without carriage returns a chunk is empty if and only if
   some paragraph longer than the target opens with a line at least as long. Compression splits the
   list without loss and keeps tool results paired.
6. Cron search is a least match; occurrences are exactly the matching minutes; one row per job and
   minute. On the desktop, for five and six fields, two attempts of the daemon stand for the same
   slot if and only if no mark was written from the first up to the second, so an outage of any
   length is caught up once if and only if the mark of that attempt was written.
7. Decay telescopes to a closed form that does not depend on when passes ran, and leaves exactly the
   pinned, unreadable, retired, undated and recent rows alone; every lifecycle
   transition keeps the state, pointers and mirrored links consistent and loses nothing. It keeps
   chains of superseded rows free of cycles if and only if the row pointed at does not lead back.
8. The robust average is the one weighted median; the push cursor passes nothing that was not answered
   for good, in status numbers; the parser undoes the printer.

Where the code and its comments or documentation differ, the code is modelled:

- `safe_split` says it keeps the whole list when the tail is all tool results, and that walking
  forward makes the tail larger; its caller then summarises everything, and the tail only shrinks
  (`ContextBudget.NothingRetained`, and such a list in `ContextBudget.ToolTailSummarised`).
- `reconcile` promises a catch-up of the latest occurrence; that holds exactly when at most 5000
  occurrences were missed (`ScheduleStore.CatchUpIsLatest`; `LongOutageCatchesUpEarly` is an outage
  past that). An enqueue that raises there also loses the launches of the jobs before it, whose rows
  are committed as `running` (`ScheduleStore.Store.Reconcile`; `ScheduleStore.LaunchLost` is such a
  call).
- Hunks without context can carry a header that does not apply (the insertions of
  `UnifiedDiff.InsertionWithoutContext`, and the exact condition in `HunkPatch.HeadersRight`). That
  condition counts runs of deletions alone, too, because the reader here also checks the new
  position a header states; a reader of old positions alone would place those right.
- A job outcome is written on a best-effort basis; when that write is lost the row stays `running`
  until it is deleted (`ExtractionJobs.LostOutcomeStrandsRow`; `OutcomeCanBeLost` is such a run).
- `notify` is written so that a commit on another thread sets the event on the loop; per-run channels
  are never bound to one, so there the event is set on the committing thread, and a waiter between its
  test and its sleep can miss it until its timeout (`WakeupChannel.UnboundLoses`).
- In the server's `tick`, a failed enqueue rolls back the claimed row with the transaction, so the
  `failed` status it then wants to write has no row; only a launch that raises after the commit
  leaves a failed row (`ScheduleStore.Store.TickJob`).
- The desktop daemon is meant to run a slot once; when the write of a mark fails, the next tick runs
  the same slot again (`CatchUp.OneSlotTwice`, and the exact condition in
  `CatchUp.SlotSharedIffUnmarked`).
- `split_into_chunks` can push an empty chunk (`EmptyChunks.LongLineLeavesEmpty`, and the exact
  condition in `EmptyChunks.LeavesEmptyIff`).
- The handler of `restore` is for any error, but the originals are removed inside its reach: when that
  removal fails midway, what it had removed is gone (`SnapshotRestore.OriginalLost`, and the exact
  condition in `SnapshotRestore.RemovalKeepsIff`).
- Nothing stops two memories from superseding each other (`MemoryLifecycle.EachSupersedesTheOther`,
  and the exact condition in `MemoryLifecycle.SupersedeClosesNoCycleIff`).

## Model

| member | source | states |
|---|---|---|
| EditScript.NoScriptKeepsMore | apps/desktop/app/src/diff.rs:95-97 | no edit script between two texts keeps more lines than their longest common subsequence |
| EditScript.ChangesFromKeeps | apps/desktop/app/src/diff.rs:29-36 | changes plus twice the kept lines equal the lines of both sides |
| EditScript.LcsCommonPrefix | apps/desktop/app/src/diff.rs:100-103 | a common prefix adds exactly its length to the longest common subsequence |
| EditScript.LcsCommonSuffix | apps/desktop/app/src/diff.rs:104-110 | a common suffix adds exactly its length to the longest common subsequence |
| EditScript.LcsDrop | apps/desktop/app/src/diff.rs:206-215 | dropping a first line of either side costs the longest common subsequence at most one |
| LineDiff.LcsFromIsLcs | apps/desktop/app/src/diff.rs:177-187 | a cell's recurrence is the longest common subsequence of the two remainders |
| LineDiff.FillRow | apps/desktop/app/src/diff.rs:180-186 | one row filled in place from the row below, no other cell touched |
| LineDiff.FillTable | apps/desktop/app/src/diff.rs:178-187 | every 32-bit cell holds the longest common subsequence of the remainders, without overflow |
| LineDiff.LcsOps | apps/desktop/app/src/diff.rs:169-247 | the greedy walk is a numbered script between the two sides that keeps a longest common subsequence |
| LineDiff.Drain | apps/desktop/app/src/diff.rs:226-245 | the two closing loops complete the script without another kept line |
| LineDiff.PrefixIsLongest | apps/desktop/app/src/diff.rs:100-103 | the trimmed prefix ends where the sides differ or one ends |
| LineDiff.SuffixIsLongest | apps/desktop/app/src/diff.rs:104-110 | the trimmed suffix ends where the sides differ or the prefix is reached |
| LineDiff.TrimmedParts | apps/desktop/app/src/diff.rs:125-126 | both sides are the same head, their own middle and the same tail |
| LineDiff.TrimmingKeepsLcs | apps/desktop/app/src/diff.rs:100-126 | trimming loses nothing: the whole's longest common subsequence is head plus middle plus tail |
| LineDiff.Trim | apps/desktop/app/src/diff.rs:100-110 | the two counting loops find the trimmed prefix and suffix |
| LineDiff.TrimmedOps | apps/desktop/app/src/diff.rs:112-165 | head, middle and tail make one numbered script in both branches, optimal within the cap |
| LineDiff.DiffOps | apps/desktop/app/src/diff.rs:97-166 | a script from old to new numbered 1..n on each side; its kept lines are a longest common subsequence within the cap and exactly the trimmed lines past it |
| LineDiff.FewestChanges | apps/desktop/app/src/diff.rs:95-97 | within the cap no insert/delete script is shorter |
| Hunks.ChangedLines | apps/desktop/app/src/diff.rs:259-264 | exactly the changed lines, in order |
| Hunks.MergeWindows | apps/desktop/app/src/diff.rs:269-280 | merged windows are separated, in order, and cover exactly the lines near a change |
| Hunks.OldNumbers | apps/desktop/app/src/diff.rs:286-289 | a group's old start and count are where its old lines stand |
| Hunks.NewNumbers | apps/desktop/app/src/diff.rs:290-293 | a group's new start and count are where its new lines stand |
| Hunks.PlaceOfSlice | apps/desktop/app/src/diff.rs:284-300 | the position a header states, empty sides included |
| Hunks.GroupHunks | apps/desktop/app/src/diff.rs:258-303 | the hunks are those of separated groups that show exactly the lines near a change |
| HunkPatch.GroupsCoverChanges | apps/desktop/app/src/diff.rs:258-303 | no change lies outside the groups |
| HunkPatch.AnchoredWithContext | apps/desktop/app/src/diff.rs:272-273 | with context every header states its true position |
| HunkPatch.HeadersRight | apps/desktop/app/src/diff.rs:286-293 | all headers are right exactly when there is context or no one-sided run after the first line |
| HunkPatch.ApplyGroups | apps/desktop/app/src/diff.rs:282-302 | from any group on, applying the hunks yields the rest of the new text, or fails if a header is wrong |
| HunkPatch.PatchReproducesNew | apps/desktop/app/src/diff.rs:258-315 | the patch theorem: the hunks turn old into new exactly when there is context or no one-sided run |
| Lines.SplitOfUnlines | apps/desktop/app/src/diff.rs:85-93 | splitting undoes joining for newline-free lines |
| Lines.UnlinesOfSplit | apps/desktop/app/src/diff.rs:85-93 | joining undoes splitting but for a missing final newline |
| Lines.SplitLinesIsNewlineFree | apps/desktop/app/src/diff.rs:85-93 | no line holds a newline |
| Lines.DecimalReads | apps/desktop/app/src/diff.rs:306-315 | a printed number reads back as itself |
| UnifiedDiff.RangeReads | apps/desktop/app/src/diff.rs:306-315 | a printed range reads back as its position and count, with the omitted count of one and the empty range |
| UnifiedDiff.HeaderReads | apps/desktop/app/src/diff.rs:43-47 | a printed hunk header reads back as the two places |
| UnifiedDiff.BodyReads | apps/desktop/app/src/diff.rs:48-56 | printed body lines read back as the tagged lines |
| UnifiedDiff.HunksRead | apps/desktop/app/src/diff.rs:42-57 | reading undoes printing for every list of hunks |
| UnifiedDiff.TextApplies | apps/desktop/app/src/diff.rs:38-58 | applying the printed text is applying the hunks, for every path |
| UnifiedDiff.Render | apps/desktop/app/src/diff.rs:39-58 | the string built piece by piece is the file lines and the printed hunks |
| UnifiedDiff.CountsAddUp | apps/desktop/app/src/diff.rs:26-36 | kept plus deleted lines are the old ones, kept plus inserted the new ones |
| UnifiedDiff.CountChanges | apps/desktop/app/src/diff.rs:26-36 | the two 32-bit counters show the inserted and deleted lines, wrapping past their width |
| UnifiedDiff.NoHunksIffSame | apps/desktop/app/src/diff.rs:38-40 | no hunk exactly when the two line lists are equal |
| UnifiedDiff.Diff | apps/desktop/app/src/diff.rs:21-66 | the text is that of the grouped hunks of an optimal script; read back for the same path it turns old into new (exact condition), it is empty exactly for equal lines, and its counts add up and are least within the cap |
| UnifiedDiff.InsertionWithoutContext | apps/desktop/app/src/diff.rs:306-315 | for every insertion of a line between two others, different from both, whatever optimal script the diff has: without context the one hunk is headed `0,0` and does not apply |
| UnifiedDiff.OnlyScript | apps/desktop/app/src/diff.rs:97-166 | such an insertion has one script that keeps both other lines |
| Base64.DecodeEncode | packages/tool_contracts/snapshots.py:17-23 | strict decoding undoes encoding for all bytes (RFC 4648, section 4) |
| Base64.DigitIsPlace | packages/tool_contracts/snapshots.py:17-23 | a letter stands for its place in the alphabet of table 1 of RFC 4648, and no other character for any |
| Base64.SameNumber | packages/tool_contracts/snapshots.py:17-23 | four digits and the three bytes they stand for are one 24-bit number, and so are three bytes and their digits |
| Base64.DecodesIff | packages/tool_contracts/snapshots.py:17-23 | a text is accepted if and only if it is groups of four letters with at most two equals signs at the very end; the size of what it stands for |
| SnapshotPaths.ValidIsClean | packages/tool_contracts/snapshots.py:36-45 | an accepted name is the join of its components, all of them ordinary and none empty |
| SnapshotPaths.CleanIsValid | packages/tool_contracts/snapshots.py:36-45 | every list of ordinary components joins to an accepted name that splits into it again |
| SnapshotPaths.Validate | packages/tool_contracts/snapshots.py:26-51 | accepts exactly the payloads within the count and size limits with valid, non-colliding, decodable entries, and reports of any other the first error in the payload's order |
| SnapshotPaths.CheckEntry | packages/tool_contracts/snapshots.py:33-50 | one entry: which of its errors comes first, and the running size |
| SnapshotPaths.ErrorIsReal | packages/tool_contracts/snapshots.py:33-50 | an error at any entry means the payload is not valid |
| SnapshotPaths.ValidIff | packages/tool_contracts/snapshots.py:26-51 | the exact domain of the validator in plain terms: at most 10000 files, paths of ordinary components with no file above them, base 64 contents of 64 MiB together |
| SnapshotPaths.WhatIsWrong | packages/tool_contracts/snapshots.py:33-50 | what each error says of its entry, and that the first in this order is the one reported |
| SnapshotPaths.PayloadIsPrefixFree | packages/tool_contracts/snapshots.py:46-47 | no accepted path stands where another needs a directory, and paths determine names |
| SnapshotTree.KindAfterPut | packages/tool_contracts/snapshots.py:83-84 | making one directory or file changes what stands at that path and nowhere else |
| SnapshotTree.FileOfName | packages/tool_contracts/snapshots.py:81-84 | where a payload's file belongs there is no other file above it and no directory at it |
| SnapshotTree.Walk | packages/tool_contracts/snapshots.py:56-70 | a walk adds exactly the files seen below a directory and their sizes, and refuses links, special files and excess |
| SnapshotTree.WalkEntry | packages/tool_contracts/snapshots.py:57-70 | the same for one entry, reserved directories left out |
| SnapshotTree.Capture | packages/tool_contracts/snapshots.py:54-71 | the capture of a tree is its visible regular files, each under its joined path |
| SnapshotTree.RegularIff | packages/tool_contracts/snapshots.py:57-66 | a tree is regular if and only if a walk of it, reserved directories left out, meets no link or special file |
| SnapshotTree.HiddenIff | packages/tool_contracts/snapshots.py:14 | which names are reserved: the two prefixes, each also by itself |
| SnapshotTree.CaptureValidates | packages/tool_contracts/snapshots.py:26-71 | a capture validates exactly when it has at most 10000 files and no path the validator refuses |
| SnapshotTree.CaptureOfRestored | packages/tool_contracts/snapshots.py:54-117 | capture after restore gives the same names and bytes |
| SnapshotTree.RestoreOfCaptured | packages/tool_contracts/snapshots.py:54-117 | restoring a capture reproduces every regular file and no other |
| SnapshotRestore.ParentIsNoFile | packages/tool_contracts/snapshots.py:83 | while staging, no directory is needed where a file stands |
| SnapshotRestore.ExpectedWithOneMore | packages/tool_contracts/snapshots.py:81-84 | how the expected tree grows by one file and its directories |
| SnapshotRestore.StagedFile | packages/tool_contracts/snapshots.py:82-84 | the tree after one more file is the expected one |
| SnapshotRestore.UndoneIsOriginal | packages/tool_contracts/snapshots.py:100-116 | removing the installed and putting back the set aside gives the original entries |
| SnapshotRestore.Workspace.MakeParent | packages/tool_contracts/snapshots.py:83 | a missing directory is made, an existing one accepted, nothing else changes |
| SnapshotRestore.Workspace.WriteFile | packages/tool_contracts/snapshots.py:84 | a written file stands at its path; outside the staging directory nothing changes, even on failure |
| SnapshotRestore.Workspace.Stage | packages/tool_contracts/snapshots.py:81-84 | the staging directory comes to hold exactly the payload's tree, in as many calls as it has files and directories, or a call fails and the rest is left alone |
| SnapshotRestore.Workspace.StageOne | packages/tool_contracts/snapshots.py:82-84 | one more file and its directories, in as many calls as are new, or a failure that leaves the rest alone |
| SnapshotRestore.OneMoreDir | packages/tool_contracts/snapshots.py:83 | one level of a path adds a call exactly when its directory is new |
| SnapshotRestore.StagedTop | packages/tool_contracts/snapshots.py:95-97 | what is installed, one call each, is the first components of the payload's paths |
| SnapshotRestore.Workspace.SetAside | packages/tool_contracts/snapshots.py:85-94 | at every failure the originals are split between root and rollback, on success all aside |
| SnapshotRestore.Workspace.Install | packages/tool_contracts/snapshots.py:95-97 | the visible entries are exactly the installed ones, on success all that was staged |
| SnapshotRestore.Workspace.RollBack | packages/tool_contracts/snapshots.py:100-116 | the handler leaves the visible entries without the installed and with everything set aside |
| SnapshotRestore.Workspace.Swap | packages/tool_contracts/snapshots.py:85-99 | the exchange is complete, undoable, or failed in its last call, the final removal |
| SnapshotRestore.Workspace.RemoveRollback | packages/tool_contracts/snapshots.py:99 | the final removal is one call; if it fails, a part of the originals is left |
| SnapshotRestore.Workspace.Undo | packages/tool_contracts/snapshots.py:100-116 | after a failure before the final removal the originals are back; after one in it, what that call left of them |
| SnapshotRestore.Workspace.Restore | packages/tool_contracts/snapshots.py:74-117 | the faults of the calls decide: restored exactly when none fails up to and in the final removal, and then exactly the payload stands and neither reserved directory; with a fault before that removal the visible entries are what they were; with one in it alone, what it left of them |
| SnapshotRestore.Workspace.RestoreValid | packages/tool_contracts/snapshots.py:75-117 | the same behind the validator, for the call number of the final removal |
| SnapshotRestore.ReservedStay | packages/tool_contracts/snapshots.py:85-89 | every other entry with a reserved name is left as it is |
| SnapshotRestore.RemovalKeepsIff | packages/tool_contracts/snapshots.py:99-117 | a failed final removal keeps the originals if and only if it has left every one of them |
| SnapshotRestore.OriginalLost | packages/tool_contracts/snapshots.py:99-117 | a call in which an original is lost: an empty payload over one entry, whose removal fails when it has removed it |
| ExtractionJobs.StepKeeps | apps/desktop/core/src/memory_jobs.rs:252-413 | every atomic step keeps the protocol's invariant |
| ExtractionJobs.EnqueueKeeps | apps/desktop/core/src/memory_jobs.rs:117-166 | an insert, refused by the unique run index or not, keeps it |
| ExtractionJobs.DeleteKeeps | apps/desktop/app/src/commands/conversations.rs:1410-1427 | deleting a job with its run, at any moment, keeps it |
| ExtractionJobs.DispatchKeeps | apps/desktop/app/src/scheduler.rs:351-364 | one turn of the dispatcher keeps one task per job within the ceiling |
| ExtractionJobs.ClaimKeeps | apps/desktop/core/src/memory_jobs.rs:383-394 | a compare-and-set claim spends one attempt, spaced from the last |
| ExtractionJobs.MarkKeeps | apps/desktop/core/src/memory_jobs.rs:399-413 | the outcome's write, lost or not, keeps it |
| ExtractionJobs.RunKeeps | apps/desktop/core/src/memory_jobs.rs:252-413 | every run keeps it |
| ExtractionJobs.TasksCounted | apps/desktop/app/src/scheduler.rs:350-358 | tasks with distinct in-flight jobs are no more than those jobs |
| ExtractionJobs.BackoffDoubles | apps/desktop/core/src/memory_jobs.rs:320 | half a minute after the first attempt, and twice the last wait after each further one |
| ExtractionJobs.EveryRunIsSafe | apps/desktop/app/src/scheduler.rs:329-399 | the safety theorem over every run from an empty table, deleted jobs included: four tasks, three attempts, half a minute and a minute between them |
| ExtractionJobs.FrozenRun | apps/desktop/core/src/memory_jobs.rs:383-394 | a row no task may write and none may claim stays as it is until it is deleted |
| ExtractionJobs.SettledForever | apps/desktop/core/src/memory_jobs.rs:252-328 | completed, failed and skipped rows stay as they are until they are deleted, and are gone exactly then |
| ExtractionJobs.LostOutcomeStrandsRow | apps/desktop/core/src/memory_jobs.rs:396-413 | a claimed row leaves `running` if and only if its outcome is written; otherwise it never changes again, until it is deleted |
| ExtractionJobs.OutcomeCanBeLost | apps/desktop/core/src/memory_jobs.rs:396-413 | a run from the start in which the outcome is lost: after every continuation the row is `running`, or deleted |
| ExtractionJobs.ForegroundComesFirst | apps/desktop/app/src/scheduler.rs:345-355 | while every tick sees a run in the foreground, no task starts beside another |
| ExtractionJobs.DueRowCanComplete | apps/desktop/core/src/memory_jobs.rs:252-311 | a due row in an idle process can always be completed |
| DispatcherTurns.OnlyDueJobsStart | apps/desktop/app/src/scheduler.rs:345-368 | over every run a job has a task only if its row was waiting and due at some tick |
| DispatcherTurns.TickStartsWhatFits | apps/desktop/app/src/scheduler.rs:351-364 | the turns of a tick end, change nothing but what is in flight, and start every due job unless the ceiling is reached |
| DispatcherTurns.FourTogether | apps/desktop/app/src/scheduler.rs:350-358 | a run from the start after which four jobs are in flight |
| JobRunner.Runner.Enqueue | apps/desktop/core/src/memory_jobs.rs:117-166 | inserts exactly when the run exists and has no job, and then is the protocol's enqueue step |
| JobRunner.Runner.TryClaim | apps/desktop/core/src/memory_jobs.rs:383-394 | succeeds exactly on a reachable claimable row, and is the protocol's claim step |
| JobRunner.Runner.MarkRow | apps/desktop/core/src/memory_jobs.rs:399-413 | the whole table after a best-effort write |
| JobRunner.Runner.Work | apps/desktop/core/src/memory_jobs.rs:252-328 | the exact answer for every row: gone, not due, skipped, or attempted, with what that wrote |
| JobRunner.Runner.ProcessJob | apps/desktop/core/src/memory_jobs.rs:252-328 | one task's code is a run of protocol steps, keeps the invariant, and reports the outcome it wrote |
| JobRunner.NotTaken | apps/desktop/core/src/memory_jobs.rs:253-261 | a row that is gone, not claimable or not due changes nothing |
| JobRunner.FullRun | apps/desktop/core/src/memory_jobs.rs:279-327 | the six steps from load to mark, composed |
| WakeupChannel.StepKeeps | apps/server/mix_agent/wakeups.py:32-59 | every atomic step of notifiers, waiters, timers and callbacks keeps the invariant of a channel set on the loop |
| WakeupChannel.RevisionCounts | apps/server/mix_agent/wakeups.py:33-34 | the revision is the number of notifications carried out, counted at their own steps |
| WakeupChannel.ReturnsCoverAll | apps/server/mix_agent/wakeups.py:49-59 | every return of `wait` hands back the number of all notifications before it, on every channel |
| WakeupChannel.NoLostWakeup | apps/server/mix_agent/wakeups.py:32-59 | on a channel bound to the loop or notified on it alone, in every interleaving a sleeper not told of every notification has a set coming |
| WakeupChannel.UnboundLoses | apps/server/mix_agent/wakeups.py:37-39 | the run of an unbound channel in which a set on another thread falls between a waiter's test and its sleep |
| WakeupChannel.LosesNoneIffOnLoop | apps/server/mix_agent/wakeups.py:32-59 | no run loses a wakeup if and only if the channel is bound or every notifier is on the loop |
| WakeupChannel.LoopFrees | apps/server/mix_agent/wakeups.py:54-59 | a waiter holding the loop gives it up by its own steps |
| WakeupChannel.SleeperWakes | apps/server/mix_agent/wakeups.py:44-47 | steps of the loop and of counted notifiers alone wake a sleeper that is behind |
| WakeupChannel.EverySleeperWakes | apps/server/mix_agent/wakeups.py:32-59 | the same after every past of such a channel |
| WakeupCalls.EventIsSet | apps/server/mix_agent/wakeups.py:37-58 | over every run the event is set exactly if it was set after it was last cleared |
| WakeupCalls.EveryNotificationSets | apps/server/mix_agent/wakeups.py:32-47 | over every run each notification on another thread has one set, carried out or still owed |
| WakeupCalls.CallSleeps | apps/server/mix_agent/wakeups.py:49-58 | over every run a current call, with no set since the last clear, joins the sleepers and stays with them until a set, its timeout or a cancel |
| WakeupCalls.OnlySetsWake | apps/server/mix_agent/wakeups.py:54-57 | no other step takes a sleeper out of its sleep |
| WakeupCalls.StaleReturns | apps/server/mix_agent/wakeups.py:49-51 | a call with an old revision returns at once, one with the current revision does not |
| WakeupCalls.OnlyEndsReturn | apps/server/mix_agent/wakeups.py:49-59 | a step hands back a revision only as it ends a call |
| WakeupCalls.LostSleepsOn | apps/server/mix_agent/wakeups.py:37-39 | a sleeper that missed a set is woken by no further notification while the event stays set |
| WakeupCalls.EveryCallCanEnd | apps/server/mix_agent/wakeups.py:54-59 | after every run every call can end by steps of the loop and its own timeout |
| WakeupCalls.CancelEnds | apps/server/mix_agent/wakeups.py:54-57 | when a call can be cancelled, and that the event stays as it is |
| SessionMarks.Session.Mark | apps/server/mix_agent/wakeups.py:86-94 | a mark joins the open transaction |
| SessionMarks.Session.Commit | apps/server/mix_agent/wakeups.py:97-106 | a commit sends exactly the signals marked since the last commit or rollback |
| SessionMarks.Session.RollBack | apps/server/mix_agent/wakeups.py:109-110 | a rollback ends the transaction and sends nothing |
| SessionMarks.DeferredAfterMark | apps/server/mix_agent/wakeups.py:88-94 | a mark adds exactly the signals it asks for |
| SessionMarks.NothingOpen | apps/server/mix_agent/wakeups.py:98-110 | after a commit or rollback nothing is deferred |
| Chunks.CharsInBounds | apps/desktop/core/src/knowledge.rs:178-180 | a byte position on a boundary is a number of whole characters, no more than bytes |
| Whitespace.TrimIsSlice | apps/desktop/core/src/knowledge.rs:145 | a trimmed text is a slice without white space at its ends, and there is only white space around it |
| ChunkLaws.ParagraphsAre | apps/desktop/core/src/knowledge.rs:144 | the pieces joined by blank lines are the text; they hold no blank line, and each cut is the first possible one |
| ChunkLaws.LinesRead | apps/desktop/core/src/knowledge.rs:165 | lines read back from a text in which each ends in a newline, with a return before it or not |
| ChunkLaws.LastLineReads | apps/desktop/core/src/knowledge.rs:165 | a last line without an ending is kept whole, a return at its end included |
| ChunkLaws.WidthIsLeast | apps/desktop/core/src/knowledge.rs:178-180 | the width of a character is the least that holds its bits, section 3 of RFC 3629 |
| Chunker.FindCut | apps/desktop/core/src/knowledge.rs:178-187 | the two searches find the cut at or before the target, or the first one |
| Chunks.CutIsInside | apps/desktop/core/src/knowledge.rs:178-193 | that cut is on a character boundary at least one and at most `target` characters in, or takes one character whole |
| Chunker.CutLine | apps/desktop/core/src/knowledge.rs:169-198 | the chunks a long line is cut into, and what is left of it, as the function says |
| ChunkLaws.CutsAre | apps/desktop/core/src/knowledge.rs:169-198 | a line is its cuts and what is left; a cut of more than one character fits the target in bytes and with the next character would not |
| Chunker.AddLine | apps/desktop/core/src/knowledge.rs:166-205 | the chunks that one line of an oversized paragraph closes, and the buffer behind it, as the function says |
| Chunker.AddParagraph | apps/desktop/core/src/knowledge.rs:145-207 | what one paragraph does to the chunks and the collected text, as the function says |
| Chunker.SplitIntoChunks | apps/desktop/core/src/knowledge.rs:141-211 | every chunk has at most `target` characters (one for zero); the chunks hold the solid characters of the text, side by side only where the text has them so; if every paragraph fits, they are the paragraphs in groups joined by blank lines, each group as large as it can be; a chunk is empty exactly when some paragraph leaves an empty one |
| ChunkLaws.ChunksAgree | apps/desktop/core/src/knowledge.rs:141-211 | the chunks of every text hold its solid characters in order, and two of them stand side by side in a chunk if and only if they do in the text |
| ChunkLaws.ChunksGrouped | apps/desktop/core/src/knowledge.rs:149-163 | when every paragraph fits, the chunks are its paragraphs in consecutive groups, and a group ends only where the next paragraph does not fit |
| ChunkLaws.LinesGrouped | apps/desktop/core/src/knowledge.rs:164-206 | the same for the lines of a paragraph that does not fit |
| EmptyChunks.EmptyBehindBlank | apps/desktop/core/src/knowledge.rs:165-205 | past its first line, a paragraph's buffer is empty exactly behind a blank line that found it empty or full |
| EmptyChunks.ShortLinesLeaveNone | apps/desktop/core/src/knowledge.rs:165-205 | with no line as long as the target there is no empty chunk |
| EmptyChunks.LeavesEmptyIff | apps/desktop/core/src/knowledge.rs:144-168 | in a text without carriage returns a paragraph leaves an empty chunk if and only if it is longer than the target and opens with a line at least as long |
| EmptyChunks.LongLineLeavesEmpty | apps/desktop/core/src/knowledge.rs:165-168 | every text of one line longer than the target, as a text that leaves one |
| ContextBudget.ToolCharsUpdate | apps/desktop/core/src/context.rs:94 | replacing a tool body changes the running total exactly, without underflow |
| ContextBudget.ToolCharsAddUp | apps/desktop/core/src/context.rs:69-73 | what counts against the budget is the content of each tool result |
| ContextBudget.EstimateAddsUp | apps/desktop/core/src/context.rs:214-219 | the estimate is the sum of content, role and sixteen more for each message |
| ContextBudget.EvictToolResults | apps/desktop/core/src/context.rs:65-98 | rewrites from the oldest end exactly as far as the budget needs, counting what it rewrote |
| ContextBudget.EvictionKeeps | apps/desktop/core/src/context.rs:58-98 | length, order, roles and ids stay; the result fits or no tool body can shrink further |
| ContextBudget.TieredSummary.Absorb | apps/desktop/core/src/context.rs:159-182 | the whole new summary, active within 4000 characters and archive within 12 rows |
| ContextBudget.SafeSplit | apps/desktop/core/src/context.rs:233-246 | the first message at or after the tail estimate that is not a tool result |
| ContextBudget.Compress | apps/desktop/core/src/context.rs:275-349 | asked prefix and retained tail are the evicted list, the tail opens with no tool result, pairing is kept, and a failed or blank summary changes nothing |
| ContextBudget.EvictionPairs | apps/desktop/core/src/context.rs:58-64 | eviction keeps tool results paired |
| ContextBudget.TailPairs | apps/desktop/core/src/context.rs:228-246 | a tail that opens with no tool result, behind a system message, is paired |
| ContextBudget.NothingRetained | apps/desktop/core/src/context.rs:239-243 | nothing is retained exactly when the whole tail estimate is tool results |
| ContextBudget.ToolTailSummarised | apps/desktop/core/src/context.rs:239-243 | a well-paired list over the threshold of which all is handed to the summary |
| ContextBudget.ThresholdGrows | apps/desktop/core/src/context.rs:49-55 | the threshold for every window: its floor, its three fifths of the window, and its growth |
| ContextBudget.TailIs | apps/desktop/core/src/context.rs:233-235 | the tail estimate is the last third, but at least four messages, or all there are |
| CronTable.GridMember | apps/server/mix_agent/schedules.py:39 | a stepped range holds exactly the values a whole number of steps from its start |
| CronTable.TokenReads | apps/server/mix_agent/schedules.py:26-37 | an element reads back as it was written, for every notation of numbers without hyphen and slash |
| CronTable.TokenSelects | apps/server/mix_agent/schedules.py:31-39 | what a star, a range, a number and a step select |
| CronTable.Part | apps/server/mix_agent/schedules.py:24-40 | a field is accepted exactly when every element of its comma list is written well and in bounds, and then is their union; otherwise the first bad element is reported |
| CronTable.Parse | apps/server/mix_agent/schedules.py:43-50 | an expression is accepted exactly when it has five good fields, each read as what it selects |
| CronTable.SelectsCalendar | apps/server/mix_agent/schedules.py:17 | no expression selects a value outside the calendar, and five stars select all of it |
| CronTable.Next | apps/server/mix_agent/schedules.py:70-76 | the least matching minute strictly after the argument; failure only if none lies in the next 527040 |
| CronTable.MatchesCalendar | apps/server/mix_agent/schedules.py:53-63 | a minute matches if all its parts are selected, its weekday as 1 for Monday to 6 for Saturday and 0 for Sunday |
| CronTable.MatchingMinutesAre | apps/server/mix_agent/schedules.py:53-63 | the enumeration of a window is increasing and holds exactly its matching minutes |
| CronTable.SkipToMatch | apps/server/mix_agent/schedules.py:203-211 | jumping to the next match misses none |
| ScheduleStore.LatestIsLast | apps/server/mix_agent/schedules.py:195-200 | the cursor row is a job's greatest minute |
| ScheduleStore.MissedAre | apps/server/mix_agent/schedules.py:189-209 | what counts as missed: the matching minutes of the last thirty days before now, behind every row of the job, or behind its making |
| ScheduleStore.Occurrences | apps/server/mix_agent/schedules.py:202-211 | the loop yields exactly the first 5000 matching minutes between cursor and now |
| ScheduleStore.Store.Claim | apps/server/mix_agent/schedules.py:101-111 | inserts exactly when the job has no row for the minute |
| ScheduleStore.Store.TickJob | apps/server/mix_agent/schedules.py:140-177 | each result of a tick with its guard, the rows and the launches after it |
| ScheduleStore.Store.ReconcileJob | apps/server/mix_agent/schedules.py:189-230 | the rows of the last 200 occurrences and the one launch, if catch-up asks for it: the latest missed minute exactly under the cap; nothing if the enqueue raises |
| ScheduleStore.ReconciledRows | apps/server/mix_agent/schedules.py:214-229 | a job gets rows for the last 200 of its first 5000 missed minutes, all `missed` but the last of a job that catches up |
| ScheduleStore.Store.WriteRows | apps/server/mix_agent/schedules.py:217-229 | every occurrence gets its row, none of them taken before |
| ScheduleStore.Store.Reconcile | apps/server/mix_agent/schedules.py:180-232 | the whole table and every launch, also when an enqueue or a launch raises; uniqueness kept |
| ScheduleStore.Store.ReconcileAll | apps/server/mix_agent/schedules.py:189-230 | job after job, the table and the list to launch, up to the first enqueue that raises |
| ScheduleStore.ChosenAreNew | apps/server/mix_agent/schedules.py:214-229 | at most one occurrence of each job is caught up, each past and never claimed before |
| ScheduleStore.CatchUpsAre | apps/server/mix_agent/schedules.py:214-231 | caught up is, for every job that asks for it and has missed a minute, the last of its first 5000, and nothing else |
| ScheduleStore.CatchUpIsLatest | apps/server/mix_agent/schedules.py:203-214 | a job's catch-up is the last of its missed minutes exactly when no more than 5000 were missed |
| ScheduleStore.EveryMinuteMatches | apps/server/mix_agent/schedules.py:53-63 | a cron of full fields misses every minute of a window |
| ScheduleStore.LongOutageCatchesUpEarly | apps/server/mix_agent/schedules.py:203-214 | an outage past the cap: the 5000th missed minute is caught up, not the last |
| ScheduleStore.LaunchLost | apps/server/mix_agent/schedules.py:221-232 | a reconciliation of two jobs whose second enqueue raises: a row is `running` and nothing is launched |
| ScheduleStore.NotYetTaken | apps/server/mix_agent/schedules.py:217-220 | no occurrence after the cursor has a row yet |
| CatchUp.NextAfter | apps/desktop/core/src/schedule.rs:214-235 | the least accepted time after the argument, none exactly when there is none |
| CatchUp.OccursOnMinutes | apps/desktop/core/src/schedule.rs:214-235 | for five fields, exactly the matching whole minutes strictly after the argument |
| CatchUp.OccursOnSeconds | apps/desktop/core/src/schedule.rs:214-235 | for six fields, exactly the matching times a whole number of seconds after the argument |
| CatchUp.Job.IsDue | apps/desktop/app/src/scheduler.rs:110-126 | due exactly when a firing lies in the window after the anchor |
| CatchUp.DueIffSlot | apps/desktop/app/src/scheduler.rs:110-126 | due if and only if enabled, with a prompt and a schedule, and a slot is met after the anchor and by now, with five fields or six |
| CatchUp.Job.Tick | apps/desktop/app/src/scheduler.rs:181-266 | busy skips leave the anchor, every attempt is logged with its window, and its mark, if written, moves the anchor |
| CatchUp.Job.MarkRan | apps/desktop/app/src/scheduler.rs:129-142 | the anchor moves to now if the write goes through |
| CatchUp.Job.RunNow | apps/desktop/app/src/scheduler.rs:272-298 | a manual run marks like a tick, at any time, and only if it was dispatched |
| CatchUp.AcceptedIsSlot | apps/desktop/core/src/schedule.rs:214-235 | what a search accepts, with five fields or six, is a slot in a later second |
| CatchUp.ChainedOneMore | apps/desktop/app/src/scheduler.rs:117 | every attempt starts from the anchor that the written marks before it leave |
| CatchUp.SlotSharedIffUnmarked | apps/desktop/app/src/scheduler.rs:104-109 | with a clock that does not go back, two attempts stand for the same slot if and only if no mark was written from the first up to the second |
| CatchUp.OneSlotTwice | apps/desktop/app/src/scheduler.rs:181-266 | two ticks of a due job, the first with a failing mark, run the same slot twice |
| CatchUp.EveryMinuteIsDue | apps/desktop/app/src/scheduler.rs:110-126 | a job for which that happens |
| CatchUp.CaughtUpOnce | apps/desktop/app/src/scheduler.rs:104-109 | after a catch-up, with no new slot, the job is due again if and only if the write was lost, with five fields or six |
| CatchUp.OnlyLaterSlotsRemain | apps/desktop/app/src/scheduler.rs:110-126 | a due job has a slot after its anchor: no earlier one remains due |
| CatchUp.SkippedStaysDue | apps/desktop/app/src/scheduler.rs:206-209 | a skipped slot stays due |
| MemoryDecay.PowSum | apps/desktop/core/src/memory_lifecycle.rs:343 | factors of consecutive spans multiply to that of the whole |
| MemoryDecay.OnePass | apps/desktop/core/src/memory_lifecycle.rs:297-366 | one pass keeps the range, moves anchor and values together, archives exactly at the floor, and changes nothing else |
| MemoryDecay.ChangesIff | apps/desktop/core/src/memory_lifecycle.rs:286-353 | the exact guard: a pass changes a row if and only if its data is readable, it is in recall, not pinned, and known to be idle for half a day |
| MemoryDecay.ChangedRow | apps/desktop/core/src/memory_lifecycle.rs:341-366 | what such a row becomes: both values shrunk by the idle time but not below a tenth, archived if one would be |
| MemoryDecay.PinnedStays | apps/desktop/core/src/memory_lifecycle.rs:290-315 | a pinned row is left alone by any passes |
| MemoryDecay.HalfLifeHalves | apps/desktop/core/src/memory_lifecycle.rs:343 | after the half-life a kept row has half its values |
| MemoryDecay.Telescopes | apps/desktop/core/src/memory_lifecycle.rs:271-275 | over any passes a row still in recall holds its first values times the factor of the whole time |
| MemoryDecay.ScheduleDoesNotMatter | apps/desktop/core/src/memory_lifecycle.rs:271-275 | two schedules with the same last applied pass give the same values |
| MemoryDecay.ArchivedStays | apps/desktop/core/src/memory_lifecycle.rs:297-312 | a row out of recall is not decayed again |
| MemoryDecay.ArchivedAtFloor | apps/desktop/core/src/memory_lifecycle.rs:346-348 | an archived row had reached the floor by the closed form when it was archived |
| MemoryDecay.KeptAboveFloor | apps/desktop/core/src/memory_lifecycle.rs:346-348 | a kept row had not |
| MemoryDecay.ArchivingAgrees | apps/desktop/core/src/memory_lifecycle.rs:346-348 | schedules disagree on archiving only by when they last ran |
| MemoryLifecycle.Store.PushRevision | apps/desktop/core/src/memory.rs:923-965 | appends the row's present title, content and state |
| MemoryLifecycle.RevisionUndoes | apps/desktop/core/src/memory.rs:923-965 | the revision of a transition, written back, gives the row as it was |
| MemoryLifecycle.Store.SyncLinks | apps/desktop/core/src/memory_links.rs:218-229 | afterwards a row's incoming mirrors are exactly its two pointers |
| MemoryLifecycle.Store.SyncKind | apps/desktop/core/src/memory_links.rs:232-295 | the same for one kind, every other link untouched |
| MemoryLifecycle.Store.Supersede | apps/desktop/core/src/memory_lifecycle.rs:60-102 | succeeds exactly for two different existing rows; one row moves, one revision is added, nothing is lost |
| MemoryLifecycle.Store.Dispute | apps/desktop/core/src/memory_lifecycle.rs:112-152 | the same for a dispute |
| MemoryLifecycle.Store.ResolveConflict | apps/desktop/core/src/memory_lifecycle.rs:168-259 | who wins, what the loser becomes, both rows and both revisions; without preference the stored side wins |
| MemoryLifecycle.DismissalIff | apps/desktop/core/src/memory_lifecycle.rs:207-212 | four words dismiss a pair, in any ASCII case and with white space around them, and nothing else does |
| MemoryLifecycle.Store.SettlePair | apps/desktop/core/src/memory_lifecycle.rs:207-250 | the two rows and revisions a resolve writes |
| MemoryLifecycle.Store.Decay | apps/desktop/core/src/memory_lifecycle.rs:286-385 | every row decays by the row rule, no revision, no link, and the count of rows that changed |
| MemoryLifecycle.Store.SetPinned | apps/desktop/core/src/memory_lifecycle.rs:393-416 | the flag of that row changes, a data blob that is no object becomes one with the flag alone, and nothing else changes |
| MemoryLifecycle.HeldThroughPasses | apps/desktop/core/src/memory_lifecycle.rs:286-416 | after pinning, a row stays as it is through any decay passes of the store |
| MemoryLifecycle.DecayedIsGood | apps/desktop/core/src/memory_lifecycle.rs:286-385 | decay keeps a row's pointers and state consistent |
| MemoryLifecycle.SameMirror | apps/desktop/core/src/memory_links.rs:218-229 | rows that keep their pointers keep their mirrors |
| SupersedeChains.StaysAcyclicIff | apps/desktop/core/src/memory_lifecycle.rs:60-102 | repointing one row keeps chains free of cycles if and only if the new target does not lead back to it |
| MemoryLifecycle.SupersedeClosesNoCycleIff | apps/desktop/core/src/memory_lifecycle.rs:60-102 | superseding closes no cycle if and only if the replacement does not lead to the old row |
| MemoryLifecycle.ResolveClosesNoCycleIff | apps/desktop/core/src/memory_lifecycle.rs:207-250 | a resolution closes none if and only if the winner does not lead to the loser |
| MemoryLifecycle.EachSupersedesTheOther | apps/desktop/core/src/memory_lifecycle.rs:60-102 | two calls after which two rows supersede each other |
| WeightedMedian.SortSorts | apps/server/mix_agent/reliability.py:221 | the samples in order, and the same samples |
| WeightedMedian.ReachingHalf | apps/server/mix_agent/reliability.py:221-224 | the first sorted sample at which the running weight reaches half is a weighted median |
| WeightedMedian.ReachHalf | apps/server/mix_agent/reliability.py:220-224 | with weight, the loop always finds such a sample, so the fallback line behind it is not reached |
| WeightedMedian.RobustAverage | apps/server/mix_agent/reliability.py:213-225 | a weighted median taken from the samples, with the total weight; nothing exactly without weight |
| WeightedMedian.MedianIsUnique | apps/server/mix_agent/reliability.py:213-225 | there is only one such median |
| WeightedMedian.OutliersCannotMoveIt | apps/server/mix_agent/reliability.py:218-219 | samples with less than half of the weight cannot move it out of the range of the others |
| PushDelivery.BetweenCursors | apps/server/mix_agent/push.py:136-147 | a notification the cursor passes was settled in that very pass |
| PushDelivery.TriedInOrder | apps/server/mix_agent/push.py:145-146 | a pass tries notifications in order and after everything settled |
| PushDelivery.PassPossible | apps/server/mix_agent/push.py:136-147 | every live subscription has a next pass: there is always a first batch above the cursor |
| PushStatuses.BatchIsOldest | apps/server/mix_agent/push.py:136-147 | a pass takes the oldest notifications above the cursor by time and id, at most twenty |
| PushStatuses.PassIs | apps/server/mix_agent/push.py:148-198 | what a pass posts and what becomes of cursor and subscription, for every list of status numbers |
| PushStatuses.TransientFailureWaits | apps/server/mix_agent/push.py:175-189 | a first answer of 408, 429 or 5xx, or none at all, leaves cursor and subscription as they were |
| PushDelivery.StepKeeps | apps/server/mix_agent/push.py:133-198 | an arrival or a pass, however it ends, keeps the invariant, and the cursor does not go back |
| PushDelivery.RunKeeps | apps/server/mix_agent/push.py:133-198 | every run does |
| PushDelivery.RunOneMore | apps/server/mix_agent/push.py:133-198 | a run takes its events one after another |
| PushDelivery.DeliveredOnce | apps/server/mix_agent/push.py:193-198 | without an aborted pass nothing is sent again once settled, and sending is in order |
| PushDelivery.NothingSkipped | apps/server/mix_agent/push.py:136-189 | at or below the cursor a notification went untried exactly if it was stored too late; every other one was settled after its last failure |
| PushStatuses.PassedWereAnswered | apps/server/mix_agent/push.py:136-198 | over every run each timely notification at or below the cursor was answered 2xx, or 4xx other than 404, 408, 410 and 429, or was a bad row |
| PushDelivery.AbortRepeats | apps/server/mix_agent/push.py:195-198 | a pass that aborts forgets what it settled: the next one sends all of it again |
| PushDelivery.PassDrains | apps/server/mix_agent/push.py:136-147 | a committed pass leaves waiting exactly what it did not settle, and a clean one all but twenty |
| PushDelivery.Subscription.Arrive | apps/server/mix_agent/push.py:136-144 | a stored notification waits if and only if it lies above the cursor |
| PushDelivery.Subscription.Deliver | apps/server/mix_agent/push.py:133-198 | the loop, branch by branch, is the pass, and keeps the invariant |
| NameStatus.ParseNameStatus | apps/desktop/app/src/workspace_baseline.rs:272-316 | the loop computes the changes of the field list |
| NameStatus.ParsedOfRecord | apps/desktop/app/src/workspace_baseline.rs:280-313 | one printed record parses to its meaning, whatever follows |
| NameStatus.ParseOfPrint | apps/desktop/app/src/workspace_baseline.rs:272-316 | parsing undoes printing for every list of ordinary, rename and copy records |
| NameStatus.TruncationIsPrefix | apps/desktop/app/src/workspace_baseline.rs:272-316 | input cut at any NUL parses to a prefix of the full result |

## Left out

- SnapshotRestore.Workspace.Restore: an asynchronous interrupt between a rename and the append that records it, a failure inside the rollback handler itself, and a clash of the random directory names are not modelled; the two reserved names are required to be new.
- SnapshotTree.Capture: a tree does not change during the walk; file permissions and times are not part of a tree.
- Base64.DecodesIff: how malformed endings are judged differs between Python versions; only strictly padded input is accepted here.
- SnapshotPaths.Validate: a payload that is no dictionary, and names or contents that are no strings, are outside the types; the order of a dictionary is a parameter.
- ExtractionJobs.EveryRunIsSafe: one process from an empty table; a restart, a panic inside a task, and clock steps backwards are not modelled, and a read of the table by the dispatcher and the claim are each atomic.
- ExtractionJobs.DispatchKeeps: the order and batch size of the due rows are left open, so that any list of due rows is covered.
- JobRunner.Runner.ProcessJob: the plan and the settings check are one answer each; the extraction, its embedding and its links are one answer that says whether they were applied.
- WakeupChannel.NoLostWakeup: the channel is a state machine over atomic steps rather than a class with methods, because a method here runs to its end alone. Binding after start-up, a bound loop that is not running, and the weak dictionary of per-run channels are not part of this model.
- WakeupChannel.LosesNoneIffOnLoop: a set on another thread completes the sleepers in one step and is noticed by the loop; an unbound channel can do worse than modelled, not better.
- EmptyChunks.LeavesEmptyIff: with carriage returns a paragraph can hold blank lines; the condition for such a text is the one `Chunker.SplitIntoChunks` states, over the buffer line by line.
- ContextBudget.Compress: message fields other than role, content and the call id, and the rendering of task state, are not part of this model; widths of the threshold arithmetic are unbounded.
- CronTable.Part: how a piece of text reads as a whole number is a parameter, and an expression arrives split at white space; time zones are an abstract function from minutes to local fields.
- ScheduleStore.Store.TickJob: the retry phase of `tick` is not part of this model.
- CatchUp.Job.Tick: loading the job, dispatching its run and marking it are one step; a manual run that marks between the load and the mark of a tick is not covered.
- CatchUp.NextAfter: the calendar fields of a cron expression are an abstract predicate on times; only the search over them is modelled.
- MemoryDecay.Telescopes: the half-life power is a real base raised to whole milliseconds; floating-point rounding and sub-millisecond truncation are not modelled.
- MemoryLifecycle.Store.Decay: creating, editing and deleting rows are not part of this model, and a store starts from rows without disputes or pointers; the count of touched rows and the row rule hold whatever the order of the rows.
- MemoryLifecycle.Store.SyncLinks: link weights and the links of other kinds are not part of this model.
- WeightedMedian.RobustAverage: exact arithmetic over reals; in floating point the running sum may miss half, which is what the fallback line is for.
- PushDelivery.Subscription.Deliver: one subscription at a time; encryption, headers and the HTTP client are the outcome of a post, and an exception that leaves the pass also keeps later subscriptions waiting.
- NameStatus.ParseOfPrint: fields are non-empty and NUL-free, as git prints them.
- The rest of `reliability.py` (cooldowns, failure rates), `changes` and `revert` in `workspace_baseline.rs`, provider calls, HTTP handlers, SQL and JSON details, pricing, usage, todos and the user interface: adapters or straight-line formulas that would add only easy members.
