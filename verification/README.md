# AI Control HUD: verified model

A Dafny model of the parts of AI Control HUD where correctness spans several components, with proofs.

A development machine runs an **agent**. It watches coding sessions, turns status changes into **events**, keeps
them in a durable **outbox** and uploads them to a **hub**. The hub stores each event once, numbers it, prunes old
ones and serves them in pages. A **phone** reads the pages with a persistent cursor and speaks about them.

The project follows the components, one module per file:

| module | what it models |
|---|---|
| `TimeOrder` | the timestamp text that the hub stores and SQLite compares |
| `Domain`, `HubStore`, `Retention`, `Hub` | shared values; the hub's tables; the pruning rule; `Store`, the hub's methods |
| `Outbox`, `Emission`, `AgentOutbox`, `AgentRuntime` | the outbox over whole runs; what each event says and what is remembered; `OutboxStore`, its methods; one pass of the delivery loop |
| `Feed`, `PhoneApp` | pages and the phone's checks; `EventClient`, the phone's poll and its voice |
| `Pipeline` | all of it as one step system: every request, response, ack and transaction can fail, the agent can restart, and prune batches and other uploads fall between any two steps |
| `Delivery`, `ExactlyOnce`, `PhoneFeed`, `EndToEnd` | what the step system keeps in every run |
| `Sharpness`, `Gaps`, `Twice`, `Cursor` | exactly where it stops, with the runs that show it |
| `TurnLog`, `TurnLines` | the fold over the turn log and the tail it is read from; what its lines and words mean |
| `UsageRows`, `Collector`, `Listing`, `IndexRace` | runtime sessions, goals and history, merged; what each listed task says; the list against the counts when the index changes between its two queries |
| `StateCache`, `CacheRace` | the hub's cached snapshot against its database, with handlers one at a time and overlapping |
| `Upgrade` | the transactional binary upgrade under any fault and crash |
| `Jsonc`, `SecretScan`, `Backoff` | the comment stripper, the streaming marker scan, the retry delay |

Two timestamps compare as text in SQL, so `Retention` uses the text comparison and relies on
`TimeOrder.TextOrderIsTimeOrder`. Code that changes things step by step is a class or a method with a loop, proved
against a function; the laws are proved about that function. Calls to the outside (clock, random ids, HTTP, SQLite's
commit, files, the service manager) are parameters: a `commits` flag, a list of ids, an environment that decides
the fate of each call.

## Results that differ from the documentation

* The API document says that retries of one event id never create a second entry (`docs/API.md:214`). Deduplication
  rests on the stored row, and the configuration accepts any retention minimum from 0 up
  (`agent/internal/hub/config.go:160-162`). The claim holds in every run exactly when the minimum is at least 100, one
  upload batch: `Sharpness.DuplicatesExactlyBelowBatch`. The default of 10,000 is safe. The same bound decides whether the
  phone can be told of one event twice: `Twice.HandledTwiceExactlyBelowBatch`.
* The phone's persisted cursor never goes back exactly when the retention minimum is at least 1:
  `Cursor.CursorKeptExactly`. At zero an emptied table rebases it to 0. No row is handled twice under any policy:
  `Cursor.EachRowHandledOnce`.
* The phone skips no event without a rebase, given that no prune falls between the hub's two reads, exactly when the
  retention minimum is at least 1 and either receipt times never go back (`Sharpness.SilentGapsExactlyAtZero`) or the
  policy is tight, that is the maximum exceeds the minimum by at most 1 (`Gaps.SilentGapsExactly`, with no assumption
  on the clock; a minimum so large that there are not enough sequence numbers also counts as tight). The defaults are
  not tight: a hub clock that is set back can make the phone skip an event.
* The same clock leaves a hole in the table. For one deletion the exact condition is
  `Retention.HolesExactlyWhereClockWentBack`; over all runs the table is a suffix of everything inserted exactly for
  tight policies (`Gaps.TableIsSuffixExactly`).
* The hub reads floor and page under two locks (`agent/internal/hub/server.go:229-234`). Under every policy that can
  prune by age, a prune between them can make the phone skip an event (`Gaps.TornPageSkips`); `Feed.PageCompleteExactly`
  says exactly when the page is complete.
* A sample of the turn log never makes a session look active that the whole log does not, for all files and decoders,
  exactly when the newest file fits the byte limit or nothing is read: `TurnLog.SampleConservativeExactly`. The bytes
  that fail are in `TurnLog.CutNewestFileRevives`.
* Overlapping handlers leave the hub's cached state right, whatever they bring, exactly when the one that wrote it last
  had used the database at or after the last upload (`CacheRace.RightExactly`), and the cached contact time exactly when
  the one that wrote it last had used the database at or after the last contact of any kind
  (`CacheRace.ContactRightExactly`). Two uploads that finish the other way round are `CacheRace.OvertakenHandlerDisagrees`;
  two heartbeats that do so can leave a cached contact later than the stored one (`CacheRace.OvertakenHeartbeatIsAhead`).
* Usage rows are sorted by a raw number whose unit depends on its size. `UsageRows.LaterExactly` says when the larger
  number is the later time, `UsageRows.NewestIsLatestExactly` when the deciding row has the latest time of its session,
  and in `UsageRows.OlderRunningRowShown` a session that has completed is listed as running.
* A task can be listed in a status that counts none, because the index is read by two queries
  (`IndexRace.ChangedIndexListsMore`). Whatever sessions are live, the history keeps a status within its count exactly when
  each task has no more rows in that status among the first listed for it, up to the limit, than are counted for it:
  `IndexRace.HistoryWithinCountedExactly`. Under that condition no collection lists more than it counts.
* The retry delay is the exponential law except at one point for odd maxima: `Backoff.DelayIsExponential`.

## Model

| member | source | states |
|---|---|---|
| TimeOrder.TextOrderIsTimeOrder | agent/internal/hub/store.go:279-283 | for all UTC instants with four-digit years, byte order of the stored texts is time order, although fractions vary in length |
| TimeOrder.TextTellsTime | agent/internal/hub/store.go:279-283 | every field of the instant stands in its place in the stored text, and the fraction has no trailing zero |
| TimeOrder.TrimmedOrder | agent/internal/hub/store.go:279-283 | digit strings of one length, stripped of trailing zeros and closed by the zone sign, keep their order |
| TimeOrder.CivilOrderIsTimeOrder | agent/internal/hub/store.go:279-283 | comparing year, month, day and clock fields in turn is comparing positions on the time line, leap years included |
| HubStore.InsertBatchWellFormed | agent/internal/hub/store.go:134-174 | a batch keeps sequence numbers ascending, ids unique and all numbers at or below the high-water mark |
| HubStore.InsertBatchStores | agent/internal/hub/store.go:147-169 | after a batch every event of it is stored, new or not |
| HubStore.OnlyNewEventsAppear | agent/internal/hub/store.go:152-169 | a batch whose head is already stored appends exactly the rest, once each, in order |
| Hub.Store.RecordEvents | agent/internal/hub/store.go:134-174 | all or nothing; accepted is the number of new rows and accepted plus duplicates is the batch; a committed batch, even an empty or repeated one, is a contact: both times of the agent replaced, its version kept, no other agent and no snapshot touched |
| Hub.Store.RecordState | agent/internal/hub/store.go:94-123 | replaces one agent's snapshot and contact row together, or changes nothing |
| Hub.Store.RecordHeartbeat | agent/internal/hub/store.go:125-132 | replaces one agent's two contact times, keeps a version it is not told, and touches no other agent |
| Hub.Store.LoadState | agent/internal/hub/store.go:176-205 | the stored snapshot with the agent's last contact, if there is one |
| Hub.Store.ListEvents | agent/internal/hub/store.go:207-255 | ascending rows of one agent after the cursor, every such row up to the last of them, as many as the limit allows, and a number that bounds all of the agent's rows |
| Hub.Store.EventBounds | agent/internal/hub/retention.go:56-73 | least and greatest number among the agent's rows and how many there are, zeros without rows |
| Retention.DoomedIsExpendable | agent/internal/hub/retention.go:143-190 | the floors of the SQL statement pick a row exactly when its rank from the newest, with its age, makes it expendable |
| Retention.ReceivedBefore | agent/internal/hub/retention.go:181 | the text comparison in the age cut is the comparison of instants |
| Retention.PruneBatchMeaning | agent/internal/hub/retention.go:127-203 | one batch drops the agent's oldest expendable rows, at most the batch size, and touches no other agent |
| Hub.Store.PruneAgentBatch | agent/internal/hub/retention.go:127-203 | the delete transaction in the store, with the number of rows it reports |
| Retention.DropTwice | agent/internal/hub/retention.go:85-101 | two bounded deletions with floors recomputed in between are one deletion of the summed bound |
| Retention.RetainedAfterBatch | agent/internal/hub/retention.go:85-101 | no batch changes what an unbounded deletion would leave in the end |
| Hub.Store.PruneEvents | agent/internal/hub/retention.go:75-103 | for every batch size a finished sweep leaves each agent what one unbounded deletion would, within the hard maximum, counts the rows gone, finishes unless interrupted, and an interrupted one loses nothing more |
| Retention.NewestSurvive | agent/internal/hub/retention.go:158-190 | no batch removes any of an agent's newest MinEvents rows |
| Retention.RetainedWithinMaximum | agent/internal/hub/retention.go:145-155 | after an agent's last batch the hard maximum holds |
| Retention.OrderedPruningCutsPrefix | agent/internal/hub/retention.go:173-190 | with receipt times in order a batch leaves a suffix |
| Retention.HolesExactlyWhereClockWentBack | agent/internal/hub/retention.go:173-190 | an unbounded deletion leaves a suffix if and only if, between the protected minimum and the hard maximum, no row received after the cutoff precedes one received before it |
| Delivery.RetentionIsSafe | agent/internal/hub/retention.go:127-203 | in every run of uploads and prune batches the newest MinEvents rows ever inserted are in the table as its newest, and with receipt times in order or a tight policy the table is a suffix of everything inserted |
| Outbox.ObserveEmitsChanges | agent/internal/events/outbox.go:98-192 | a committed observation appends exactly the changes into a terminal status since the statuses last seen, none on the first one |
| Outbox.OutboxIsEdgeDetector | agent/internal/events/outbox.go:98-192 | over any run, with failed transactions and untrusted snapshots, the events ever committed are the terminal changes, in order |
| Outbox.EdgesOfOneTask | agent/internal/events/outbox.go:119-179 | per task the events are the edges of its own status trace, less what the first snapshot would have fired |
| Outbox.MaintenanceIsInvisible | agent/internal/events/hygiene.go:85-147 | compaction steps anywhere in a run change neither the events nor the pending rows |
| AgentOutbox.OutboxStore.Observe | agent/internal/events/outbox.go:98-192 | the transaction over the tables: all of the snapshot's changes or none; untrusted snapshots are ignored; one event for each reported entry, saying what the entry says, and every task remembered as its last entry has it |
| AgentOutbox.OutboxStore.Pending | agent/internal/events/outbox.go:194-230 | the oldest pending events, as many as asked for and there are; limits outside 1..100 are refused |
| Emission.EachChangeIsOneEvent | agent/internal/events/outbox.go:119-151 | of a snapshot exactly the entries that are completed or failed, and not so in the baseline, become events, one each and in order, with the task's id, title, workspace and status, the kind for it, and the task's own time or else the observation's |
| Emission.FinishedTaskIsReportedOnce | agent/internal/events/outbox.go:119-151 | a task last seen running or waiting and now failed or completed gets exactly one event, which says so |
| Emission.SnapshotIsRemembered | agent/internal/events/outbox.go:152-172 | each task is remembered as its last entry has it, seen now, and no other row changes |
| Emission.ObserveFailsExactly | agent/internal/events/outbox.go:307-343 | the transaction fails if and only if an event to be written lacks an id, a time, a task id or a title, or its id is taken |
| AgentOutbox.OutboxStore.Ack | agent/internal/events/outbox.go:232-257 | removes exactly the named events, all or none, and keeps the order of the rest |
| AgentOutbox.OutboxStore.Maintain | agent/internal/events/hygiene.go:89-117 | blanks only terminal baselines unseen before the cutoff, the longest unseen first, at most one batch |
| AgentOutbox.OldestFirst | agent/internal/events/hygiene.go:100-112 | as many keys as the bound allows, none newer than a key left out |
| AgentRuntime.Delivery.DeliverOnce | agent/internal/remote/runtime.go:152-186 | one pass sends the head of the outbox, acknowledges it only after an accepted upload, leaves exactly the tail, and counts failures into the next delay |
| ExactlyOnce.AckDropsBatch | agent/internal/events/outbox.go:232-257 | with distinct ids, acknowledging a batch at the head removes that batch and nothing else |
| ExactlyOnce.AcceptedStillStored | agent/internal/hub/retention.go:157-190 | an accepted event that is not acknowledged is still in the table when the minimum covers a batch |
| ExactlyOnce.BatchInTwo | agent/internal/hub/store.go:152-169 | when the minimum covers a batch, the batch on the wire is a part that is still stored followed by a part that never was |
| ExactlyOnce.StoreAppendsRest | agent/internal/hub/store.go:134-174 | a repeated upload appends exactly the part of the batch that the hub had not accepted |
| ExactlyOnce.UploadIsExactlyOnceFifo | agent/internal/remote/runtime.go:152-186 | in every run with a minimum of at least 100 the hub has accepted a prefix of the emitted events, the outbox holds a suffix, they overlap by at most 100, none is missing, and no event has two numbers |
| Sharpness.DuplicatesExactlyBelowBatch | agent/internal/hub/store.go:152-156 | no run stores an event twice if and only if the retention minimum is at least 100 |
| Feed.HandleEvents | agent/internal/hub/server.go:210-250 | the floor of the store at the first read and the page of the store at the second make the page; bad cursors and limits are refused |
| Feed.ValidateForRequest | android/app/src/main/java/dev/eswink/aicontrolhud/EventPage.java:85-100 | accepts exactly the pages with ascending numbers above the cursor, the right next cursor and a newest number not behind it |
| Feed.PagesAreAccepted | agent/internal/hub/server.go:225-249 | every page passes the phone's checks, even with a stale floor |
| Feed.AcceptedExactly | android/app/src/main/java/dev/eswink/aicontrolhud/EventPage.java:85-100 | a page passes the phone's check if and only if it could be the answer from some table |
| Feed.NoSilentGap | android/app/src/main/java/dev/eswink/aicontrolhud/EventPage.java:102-108 | when the cursor does not predate retention the page is exactly the inserted events between the old and the new cursor |
| Feed.PageCompleteExactly | agent/internal/hub/server.go:229-234 | with any floor, a page is complete if and only if it is empty or the newest pruned row is at or below the cursor |
| Feed.SegmentByRank | android/app/src/main/java/dev/eswink/aicontrolhud/EventPage.java:102-108 | the rows between two cursors are a contiguous slice |
| Feed.SegmentsJoin | android/app/src/main/java/dev/eswink/aicontrolhud/MainActivity.java:332-347 | consecutive pages join into one contiguous piece |
| PhoneFeed.EveryPageIsAccepted | agent/internal/hub/server.go:210-250 | in every run, under any policy, the page that arrives passes the phone's checks |
| PhoneFeed.PhoneIsSafe | android/app/src/main/java/dev/eswink/aicontrolhud/MainActivity.java:332-347 | with a minimum of at least 1: the cursor is the last persisted one and not past the newest event, events are handled in ascending order, and, with receipt times in order or a tight policy, the untorn pages since a baseline are one contiguous piece of everything inserted |
| PhoneFeed.CursorNeverGoesBack | android/app/src/main/java/dev/eswink/aicontrolhud/MainActivity.java:332-347 | over a whole run the persisted cursor never decreases and never passes the newest event |
| Sharpness.SilentGapsExactlyAtZero | agent/internal/hub/retention.go:157-169 | among runs with receipt times in order and whole pages, none skips an event without a rebase if and only if the retention minimum is at least 1 |
| Cursor.EachRowHandledOnce | android/app/src/main/java/dev/eswink/aicontrolhud/MainActivity.java:332-347 | in every run, under any policy and any clock, rows are handled in ascending order, so none twice |
| Cursor.CursorKeptExactly | android/app/src/main/java/dev/eswink/aicontrolhud/MainActivity.java:332-347 | no run moves the persisted cursor back if and only if the retention minimum is at least 1 |
| Cursor.UpToDatePhoneStays | android/app/src/main/java/dev/eswink/aicontrolhud/MainActivity.java:332-347 | in every run with a minimum of at least 1, a phone at the newest number ever inserted keeps cursor and baseline and is given nothing |
| Twice.HandledTwiceExactlyBelowBatch | agent/internal/hub/store.go:152-156 | no run gives the phone an event of one id twice if and only if the retention minimum is at least 100 |
| Gaps.SilentGapsExactly | agent/internal/hub/retention.go:145-190 | with no assumption on the clock, no run with whole pages skips an event without a rebase if and only if the minimum is at least 1 and leaves at most one rank to the age cut |
| Gaps.TableIsSuffixExactly | agent/internal/hub/retention.go:145-190 | whatever the clock does, the table is a suffix of everything inserted in every run if and only if the policy leaves at most one rank to the age cut |
| Gaps.ClockBackLeavesHole | agent/internal/hub/retention.go:173-190 | the run that leaves a hole under every other policy |
| Gaps.TornPageSkips | agent/internal/hub/server.go:225-249 | under every policy that can prune by age, a run with receipt times in order in which a prune between the two reads makes the phone skip an event without a rebase |
| Retention.TightPruningCutsPrefix | agent/internal/hub/retention.go:145-190 | with at most one rank left to age, or too few rows, a batch leaves a suffix whatever the receipt times |
| PhoneApp.EventClient.SyncEvents | android/app/src/main/java/dev/eswink/aicontrolhud/MainActivity.java:332-347 | the cursor and limit asked for, what is handed on and the cursor persisted, and what a failed save leaves |
| PhoneApp.RebasedExactly | android/app/src/main/java/dev/eswink/aicontrolhud/EventPage.java:102-108 | a resumed poll starts over, at the newest number, if and only if the table ends below the cursor or its floor is more than one above it |
| PhoneApp.ResumedPollGoesOn | android/app/src/main/java/dev/eswink/aicontrolhud/MainActivity.java:332-384 | otherwise the cursor moves to the page's last row or stays, every row goes to the voice policy, and a summary that is owed stays owed until it is due |
| PhoneApp.FirstContactStartsAtNewest | android/app/src/main/java/dev/eswink/aicontrolhud/MainActivity.java:332-340 | a first contact handles nothing and persists the newest number |
| PhoneApp.EventClient.HandleEventSync | android/app/src/main/java/dev/eswink/aicontrolhud/MainActivity.java:349-390 | what is spoken and whether a summary is still owed |
| PhoneApp.SyncIsAdopt | android/app/src/main/java/dev/eswink/aicontrolhud/MainActivity.java:338-346 | the exchange is the step of the pipeline |
| PhoneApp.SpokenExactly | android/app/src/main/java/dev/eswink/aicontrolhud/NotificationPolicy.java:13-38 | a row is spoken if and only if its kind is switched on, it is not between 23:00 and 8:00 with quiet hours on, and it is at most ten minutes old and at most five minutes ahead |
| PhoneApp.SpokenInOrder | android/app/src/main/java/dev/eswink/aicontrolhud/MainActivity.java:365-377 | what is spoken comes in the order of the rows, each once |
| PhoneApp.OldExactly | android/app/src/main/java/dev/eswink/aicontrolhud/MainActivity.java:365-377 | a page makes a summary owed if and only if it has a row that only its age keeps from being spoken |
| PhoneApp.OwedExactly | android/app/src/main/java/dev/eswink/aicontrolhud/MainActivity.java:349-384 | a summary is owed if and only if an old event came in since the last baseline or finished catch-up |
| PhoneApp.OneSummaryPerCatchUp | android/app/src/main/java/dev/eswink/aicontrolhud/MainActivity.java:365-384 | a catch-up outside quiet hours ends in one summary exactly when it held an old event, and no old event is spoken by itself |
| EndToEnd.EmittedAreEdges | agent/internal/remote/runtime.go:122-186 | in every run of the whole system the emitted events are the terminal changes that the agent observed |
| EndToEnd.PhoneTakesSlicesOfEdges | android/app/src/main/java/dev/eswink/aicontrolhud/MainActivity.java:332-347 | from snapshots to phone: every handled event was an observed terminal change, none is handled twice, and, with receipt times in order or a tight policy and no torn page, what the phone took since a baseline is a contiguous slice of them |
| TurnLog.ReadTurnStates | agent/internal/collector/zcode/turn_log.go:74-174 | the interleaved fold gives each session the fold of its own lines, and no other session an entry |
| TurnLog.TailIsConservative | agent/internal/collector/zcode/turn_log.go:236-242 | with per-session times in order, a session active in a suffix of the lines is active in all of them |
| TurnLines.OpenExactly | agent/internal/collector/zcode/turn_log.go:104-114 | a session is open if and only if the last of its lines that start or finish a turn starts one |
| TurnLines.TaskRunsExactly | agent/internal/collector/zcode/turn_log.go:116-139 | a background task runs if and only if the last understood status of it is a word for running or waiting |
| TurnLines.SignalsMean | agent/internal/collector/zcode/turn_log.go:185-198 | the words for work and for an end, and that no other word says anything |
| TurnLines.GapsAreUnderscores | agent/internal/collector/zcode/collector.go:547-548 | a stretch of white space and dashes in a status word counts as one underscore |
| TurnLines.TrackedExactly | agent/internal/collector/zcode/turn_log.go:141-155 | the two tracking events count up to 1024 and down to zero, and nothing else counts |
| TurnLines.UpdatedExactly | agent/internal/collector/zcode/turn_log.go:102-171 | the last activity of a session is the time of its last line that is activity, for each kind of line and whether the session is at work |
| TurnLines.LiveExactly | agent/internal/collector/zcode/turn_log.go:236-242 | a session is live if and only if it is at work and its last activity lies within the window, half an hour unless configured, four hours at most |
| TurnLog.TailReadsLastEntries | agent/internal/collector/zcode/turn_log.go:244-274 | the bytes read from a tail decode to the last entries of the file, with no broken first line |
| TurnLog.SampleIsConservative | agent/internal/collector/zcode/turn_log.go:70-82 | reading the tail of the older file and the whole newer one is conservative |
| TurnLog.CutNewestFileRevives | agent/internal/collector/zcode/turn_log.go:70-82 | for every decoder that knows a line starting and a line ending a turn, and every limit: files whose sample calls the ended turn active |
| TurnLog.SampleConservativeExactly | agent/internal/collector/zcode/turn_log.go:70-82 | for all older files, all newer files of a size, all decoders and times, the sample is conservative if and only if the size is within the limit or the limit is zero |
| TurnLog.TasksAreTheRunning | agent/internal/collector/zcode/turn_log.go:116-139 | the background tasks are those whose last recognised status is running |
| TurnLog.TrackedIsLargestSuffix | agent/internal/collector/zcode/turn_log.go:141-155 | the tracking count stays in 0..1024 and, below the cap, is the largest surplus of starts over ends of any suffix |
| TurnLog.StartedAtBeginsSpan | agent/internal/collector/zcode/turn_log.go:102-171 | while a session is at work its start time is that of the event that began the unbroken span |
| UsageRows.CollectActiveTurns | agent/internal/collector/zcode/runtime_session.go:62-94 | the open fresh turns that no goal owns, the most recent first, as many as the limit allows, one left out no more recent than any taken; each is running, with the turn's own times |
| UsageRows.CollectUsageRows | agent/internal/collector/zcode/runtime_session.go:106-154 | over rows sorted by number the loop with its set of seen sessions shows what the per-session rule shows, up to the limit |
| UsageRows.CollectRuntimeSessionsExcluding | agent/internal/collector/zcode/runtime_session.go:36-162 | turns, then the rows of the sorted query, cut once at the limit; a task from a turn is running with the turn's times, any other has the status and time of its session's row with the largest number; sessions, and the four counts as the statuses occur |
| UsageRows.ShownExactly | agent/internal/collector/zcode/runtime_session.go:113-149 | before the cut at the limit, a session is listed if and only if no goal owns it and its turn is open and fresh or its row with the largest number alone is eligible |
| UsageRows.EachSessionOnce | agent/internal/collector/zcode/runtime_session.go:88-150 | no session is shown twice |
| UsageRows.NewestInTable | agent/internal/collector/zcode/runtime_session.go:96-103 | the largest row that the limited query returns for a session is its largest in the whole table |
| UsageRows.LaterExactly | agent/internal/collector/zcode/collector.go:635-650 | of two database numbers the larger is the later time if and only if they have one unit or it makes up for the smaller unit |
| UsageRows.EpochIs1970 | agent/internal/collector/zcode/collector.go:635-650 | database times count from the start of 1970 by the Gregorian calendar |
| UsageRows.OneTimeInAnyUnit | agent/internal/collector/zcode/collector.go:635-650 | a time in seconds, milliseconds and microseconds is one time |
| Listing.EligibleExactly | agent/internal/collector/zcode/runtime_session.go:113-149 | a usage row is eligible if and only if it is running or waiting, later than all activity of its session's turns, and within the window of ten minutes or the configured heartbeat, an hour at most |
| UsageRows.NewestIsLatestExactly | agent/internal/collector/zcode/runtime_session.go:96-129 | the row that decides has the latest time of its session if and only if no smaller number of the session is put behind by its unit |
| UsageRows.OlderRunningRowShown | agent/internal/collector/zcode/runtime_session.go:96-149 | a session that completed later, by a row in seconds, is listed by its running row in milliseconds |
| UsageRows.TallyCounts | agent/internal/collector/zcode/collector.go:564-583 | a summary holds how often each status occurs |
| Collector.GoalAtWork | agent/internal/collector/zcode/collector.go:237-314 | exactly when a goal is shown as running or waiting |
| Listing.GoalStatusExactly | agent/internal/collector/zcode/collector.go:270-314 | when a goal is listed, and when as failed, completed or waiting; all others that are listed run |
| Listing.GoalTimesExactly | agent/internal/collector/zcode/collector.go:270-340 | the start and the last update of a listed goal, its own or those of the turn that keeps it running |
| Listing.GoalsListedExactly | agent/internal/collector/zcode/collector.go:171-268 | which rows the listed goals come from, in their order |
| Collector.CollectGoals | agent/internal/collector/zcode/collector.go:171-268 | the first `limit` goals that have a task, their sessions and their counts |
| Collector.CollectTaskIndexExcluding | agent/internal/collector/zcode/collector.go:365-445 | listed and counted rows without the sessions shown live, the list cut and the counts not |
| Collector.MergeSnapshots | agent/internal/collector/zcode/collector.go:585-614 | first the primary's tasks, then the secondary's while there is room; counts and sessions of both |
| Collector.Collect | agent/internal/collector/zcode/collector.go:100-146 | what a collection returns for every combination of present, absent and failing sources |
| Listing.SucceedsExactly | agent/internal/collector/zcode/collector.go:100-146 | a collection succeeds if and only if the sources that must be read are, and something is live or the index can be read |
| Listing.LiveSurvivesIndex | agent/internal/collector/zcode/collector.go:127-138 | an index that cannot be read takes nothing from the live list |
| Listing.HistoryTold | agent/internal/collector/zcode/collector.go:384-412 | each history task is a listed row of no live session, with its status and time |
| Collector.LivePartsAreDisjoint | agent/internal/collector/zcode/collector.go:113-116 | goals and runtime sessions never show one session both ways, and no runtime session is shown twice |
| Collector.ListIsLiveThenHistory | agent/internal/collector/zcode/collector.go:127-146 | live tasks are a prefix, the list is within the limit, and no session is in both parts even when live tasks were cut |
| Collector.CountsAreConserved | agent/internal/collector/zcode/collector.go:585-607 | for each status the summary counts every task of the goal list, of the runtime list and of the whole index, whether or not the merge lists it |
| IndexRace.HistoryWithinCountedExactly | agent/internal/collector/zcode/collector.go:365-445 | whatever sessions are live, the history lists a status no more often than it counts it if and only if, for every task, the first rows listed for it, up to the limit, have no more in the status than the counting query has for it |
| IndexRace.NeverListsMoreThanCounted | agent/internal/collector/zcode/collector.go:365-445 | under that condition on the two query answers, no collection lists a status more often than it counts it |
| IndexRace.SameTableStillCounts | agent/internal/collector/zcode/collector.go:378-445 | two queries that saw the same table meet the condition, also when the list was cut |
| IndexRace.OneTaskExactly | agent/internal/collector/zcode/collector.go:378-445 | for an index of one task and no live source the condition is exact for the collection itself |
| IndexRace.ListedWithinCountedExactly | agent/internal/collector/zcode/collector.go:585-607 | in a collection the live part cancels: the comparison of list and counts is that of the history rows that found room and those counted |
| IndexRace.ChangedIndexListsMore | agent/internal/collector/zcode/collector.go:378-445 | a running task that goes away between the two queries is listed and not counted |
| StateCache.Server.HandleAgentState | agent/internal/hub/server.go:64-92 | store, then cache: the step of the model |
| StateCache.Server.HandleAgentHeartbeat | agent/internal/hub/server.go:94-122 | store, then the cached contact time if there is an entry |
| StateCache.Server.HandleAgentEvents | agent/internal/hub/server.go:124-156 | event batches advance the store only |
| StateCache.EventBatchIsContact | agent/internal/hub/store.go:134-174 | after a committed batch of the primary agent its stored contact is the receipt time of the batch, and its snapshot is the one before |
| StateCache.Server.LoadPrimaryState | agent/internal/hub/state_cache.go:43-53 | the cached answer, or the stored one, which then fills the cache |
| StateCache.CacheRefinesDatabase | agent/internal/hub/state_cache.go:11-53 | over every run with a monotone clock the cached snapshot is the stored one, its contact time is never later, and equal unless an event batch came since |
| StateCache.CachedAnswerIsConservative | agent/internal/hub/server.go:265-291 | what clients see from the cache is what they would see from the database, or the same tasks shown stale too early |
| StateCache.StaleExactly | agent/internal/hub/server.go:265-289 | a source that is fine is shown stale if and only if the contact is longer ago than allowed, everything else is shown as it is, and the whole is live exactly when both sources are shown fine |
| CacheRace.RightExactly | agent/internal/hub/server.go:83-90 | for every schedule of overlapping uploads, heartbeats, event batches, fills and restarts that leaves the cache filled: the cached state is right, whatever the handlers bring, if and only if its last writer used the database at or after the last upload |
| CacheRace.WholeHandlersAreHalves | agent/internal/hub/server.go:83-156 | each whole handler of the primary agent does to store and cache what its halves do one after the other |
| CacheRace.ContactRightExactly | agent/internal/hub/server.go:112-119 | the same for the cached contact time: right for all receipt times if and only if its last writer used the database at or after the last contact of any kind |
| CacheRace.InTurnHandlersAgree | agent/internal/hub/server.go:83-119 | handlers that write the cache in the order of their database accesses leave the state right once all have finished, and the contact time unless the last contact was an event batch |
| CacheRace.OvertakenHandlerDisagrees | agent/internal/hub/server.go:83-90 | two uploads that write the cache the other way round leave the older state in it |
| CacheRace.OvertakenHeartbeatIsAhead | agent/internal/hub/server.go:112-119 | two heartbeats that write the cache the other way round leave the first one's time in it, which may have been drawn later than the stored one |
| CacheRace.OvertakenFillIsHarmless | agent/internal/hub/state_cache.go:43-53 | a fill that read the upload back and finishes before the upload does no harm, though the last writer is not the last to use the database |
| Upgrade.Host.Stage | agent/cmd/ai-control-agent/service_upgrade.go:163-199 | stages only beside an installed target without a leftover backup, and changes neither |
| Upgrade.Host.Swap | agent/cmd/ai-control-agent/service_upgrade.go:233-254 | swapped, or nothing changed, or the old file is at the backup; swapped exactly when its calls work |
| Upgrade.Host.Rollback | agent/cmd/ai-control-agent/service_upgrade.go:255-265 | the old file back at the target exactly when its calls work, else still at the backup |
| Upgrade.Host.ServiceUpgrade | agent/cmd/ai-control-agent/service_upgrade.go:19-132 | for every fault and crash, what files, service and running executable each reported ending leaves; success, with the new executable running, when all calls work; the old service running again when the swap fails and the calls that undo it work; rollback when the new service does not start, with the new executable still running exactly when its stop failed and left it so |
| Upgrade.NeverLosesTheGoodBinary | agent/cmd/ai-control-agent/service_upgrade.go:72-125 | over any sequence of attempts, faults and crashes the last executable put in service is at the target or the backup |
| Upgrade.LeftoverBackupStays | agent/cmd/ai-control-agent/service_upgrade.go:183-188 | with a leftover backup every later attempt refuses and touches neither file |
| Jsonc.StripJSONComments | agent/internal/zcodepath/layout.go:135-188 | the index loop with its four flags writes what the mode machine writes |
| Jsonc.StripMeansGrammar | agent/internal/zcodepath/layout.go:135-188 | for every input and every reading of it as plain bytes, literals and comments, the output is the input with comments cut to their line breaks, and is the input itself if and only if it has no comment |
| Jsonc.Tokens | agent/internal/zcodepath/layout.go:135-188 | every input has such a reading |
| Jsonc.StripIsIdempotent | agent/internal/zcodepath/layout.go:135-188 | for every input, stripping twice is stripping once |
| Jsonc.StripKeepsBreaks | agent/internal/zcodepath/layout.go:146-161 | for every input the sequence of carriage returns and newlines is kept |
| SecretScan.ScanStream | scripts/ci-android-apk-secret-scan.py:39-50 | wherever the reads cut the stream, a marker is reported if and only if one occurs in the lower-cased whole, with a carry shorter than a marker |
| SecretScan.CaseIsIgnoredExactly | scripts/ci-android-apk-secret-scan.py:46 | two texts are alike to the scan if and only if they differ in the case of the 26 letters alone |
| SecretScan.FoundInWindow | scripts/ci-android-apk-secret-scan.py:46-50 | a marker occurs in what is read so far exactly when it occurred before or occurs in the carried tail and the new chunk |
| Backoff.Delay | agent/internal/remote/runtime.go:201-216 | the loop computes the doubled delay and no product above the larger of base and maximum |
| Backoff.DelayIsExponential | agent/internal/remote/runtime.go:201-216 | the delay is the capped exponential if and only if the exponential is not one below the maximum |
| Backoff.MoreFailuresWaitLonger | agent/internal/remote/runtime.go:201-216 | one more failure never shortens the delay |

## Left out

- HTTP, discovery, TLS, headers, JSON and the SQLite engine: tables are sequences and maps, transactions are all or nothing.
- Clocks, random ids and hashes are parameters; event ids are assumed fresh.
- Late processing of an upload after the agent has given up on it is assumed away.
- Liveness of the upload: the hub refuses over-long fields, and a refused batch stays at the head of the outbox.
- A second hub, a hub database reset or restore, and a phone cursor that is lost from memory after a failed save.
- Sequence numbers near the end of 64 bits: a transaction that would reach the last one is modelled as failing.
- Reading stored rows back: they are assumed to decode.
- Hub.Store.PruneEvents: takes the cutoff instant; the subtraction of the maximum age from the clock, and the order of agents in the sweep, are not modelled.
- Outbox statistics, the WAL checkpoint, the lower bound on the compaction age, and the rounding of SQLite's julianday.
- TurnLog.ReadTurnStates: lines come decoded; finding session, time and event name in a JSON line is not modelled, nor are names outside ASCII.
- UsageRows: titles, workspaces and durations of tasks; the check that the tables exist; the usage table is given in the order of the query, rows without a start time left out.
- Collector: both index queries are given as their answers; the index itself, and how it changes between them, is not modelled.
- StateCache: the fields of a snapshot beyond source status and tasks, and the cloning of snapshots.
- Upgrade.Host.ServiceUpgrade: after a stop call that fails nothing is promised of whether the service runs, because the program leaves it as the failed call did; whether a running executable can be removed is left to the environment, and where it cannot a rollback after a failed stop ends in the error for a failed rollback.
- Upgrade: file operations are atomic and durable; a source file that is the target's own scratch file, access control and service registration are not modelled.
- Speech, the text of messages, and the parsing of times on the phone.
- CommandCode usage, the Python server, the web and desktop views, packaging and installers.
- Jsonc: the byte order mark that is trimmed first, and the JSON parser after the stripper.
