# Models of the stateful cores of MindsDB

MindsDB keeps durable progress in its own database (job history, running queries, context variables, model
versions), coordinates several processes (scheduler workers, warm ML processes, restarted services) and rewrites or
parses what clients send (SQL trees, MongoDB messages, job scripts). This project models those parts in Dafny and
proves what they guarantee. Where an obvious guarantee fails, it says exactly when it holds.

`dafny verify dfyconfig.toml` checks everything.

| file | what it models |
|---|---|
| `JobSchedule.dfy` | when a job runs next, and how often it runs before its end date |
| `JobLock.dfy` | scheduler workers that share a database: history rows as leases, heartbeats, stale locks |
| `PartitionedQuery.dfy` | a query fetched batch by batch, with failures |
| `ResumedQuery.dfy` | executing it again after errors, in its own step or in others |
| `LastTracking.dfy`, `LimitedLast.dfy` | queries with `column > LAST`: stored values over runs, without and with LIMIT |
| `LastQuery.dfy` | the constant that stands for LAST in the tree |
| `WireFormat.dfy`, `OpMsg.dfy`, `WireFraming.dfy` | MongoDB Wire Protocol: integers, OP_MSG sections, header and socket reads |
| `ProcessPool.dfy` | the pool of warm ML processes and its cleaner |
| `QueryTree.dfy`, `TraversalLaws.dfy` | `query_traversal` and what it guarantees |
| `RemoveLasts.dfy`, `ConditionExtraction.dfy` | two rewrites of WHERE trees and what they mean |
| `ModelRegistry.dfy` | model versions and the active one |
| `BoundedCache.dfy` | file and Redis caches with eviction |
| `Pagination.dfy` | downloading a REST list page by page |
| `SplitSql.dfy` | splitting a script at its top-level semicolons |
| `Upsert.dfy` | writing documents into a vector store by id |
| `RestartLimiter.dfy` | limiting restarts of a failed process |

## What turned out different from what one would expect

- Runs of a job can start after its `end_at`, although `mindsdb/interfaces/jobs/README.md` (line 14) says they do
  not: the scheduler never looks at `end_at`, and when a planned time is already past, "now" is planned instead. A
  slot at `end_at` itself is always late, at most two runs of a job are, and the second exactly when the slot after
  the first late one is within `end_at` (`JobSchedule.NextStartIsLateIff`, `LateRunIsFollowedIff`,
  `AtMostTwoLateRuns`, `TwoRunsAfterEnd`).
- The lock on a job excludes exactly when the age that heartbeats allow and the time between the second reading of
  the job and the look at the clock add up to at most 30 seconds (`JobLock.ExclusiveIffPrompt`); a slower worker can
  delete the row of a slot that was finished meanwhile, and the slot is run again
  (`JobLock.SlowInspectionRunsSlotAgain`).
- The lock rests on the unique key (job_id, start_at) of the history (`mindsdb/interfaces/storage/db.py:334-336`). A
  null start time never collides, so two workers can run a job exactly if its next_run_at is null, as it is after a
  failed schedule update (`JobLock.RunsTwiceIffUnscheduled`, `UnscheduledJobIsRunTwice`).
- Rows tied on the track column across a batch boundary are never fetched (`PartitionedQuery.CompleteIffTiesFit`).
- A resumed query commits batches again if an error of another step of the query, for example of a nested SELECT
  that is fetched before, was the last thing recorded when its partitioned step goes on: the step then starts its
  table again (`ResumedQuery.BatchIsCommittedTwiceIff`, `FirstBatchAgain`). The same happens after an error of a later
  step.
- With `column > LAST` and LIMIT a row that the limit leaves out is never delivered if its value is not larger than
  all those delivered; with ORDER BY that column this happens only when the limit cuts through equal values
  (`LimitedLast.LimitLosesNothingIff`, `OrderedLimitLosesNothingIff`).
- If no row matched when LAST was first initialised, rows that arrive before the next run are never delivered
  (`LastTracking.EverythingAddedIsDeliveredIff`).
- The reader of kind 1 sections subtracts the length of the decoded name, not of its bytes, so a message with a
  non-ASCII section name is misread (`OpMsg.RoundTripIffAscii`).
- `query_traversal` drops the name of a common table expression whose query is replaced, and ignores a replacement
  of a window's function call (`TraversalLaws.ReplacementsTakePlaceIff`).
- `extract_comparison_conditions` looks through NOT, so that NOT x keeps rows it rejects
  (`ConditionExtraction.NotKeepsRejectedRow`); through two of them it is right again. When it is right is decided by
  a truth table (`RightIffRightInTable`), and by a few lines per node where no comparison occurs twice
  (`ExtractionIsRightIff`).
- Retraining or finetuning with `active = 1`, as `docs/mindsdb_sql/sql/api/retrain.mdx` (lines 24 and 44) describes
  it, leaves two active records, because only `True` switches the others off; the model can then not be looked up any
  more (`ModelRegistry.StepKeepsOneActiveIff`, `RetrainedWithOne`).
- Finetuning into a project without the model, and finishing a training with `active = 0` after its version was
  activated by hand, leave a model without an active version (`ModelRegistry.StepKeepsGoodIff`, `ActivatedTooEarly`,
  `FinetunedElsewhere`).
- The pagination loop ends after the first page when the declared page size is larger than what the server serves
  (`Pagination.ListItems`).
- `split_sql` drops an unclosed quote (`SplitSql.OnlySemicolonsAreLostIff`).
- `do_upsert` removes duplicate ids before it makes them text, so of ids such as 1 and "1" the last row wins
  (`Upsert.FirstDocumentWinsIff`).

## Assumptions

- Every commit is one atomic step; ids of rows and processes are never reused.
- Jobs: each commit, each query and each reading of the clock is a step of its own. How old the row of a live holder
  can get and how long a worker takes from reading a job again to looking at the clock are parameters (`Timing`). A
  worker may lock any job at any time, since `lock_record` does not look at the due time.
- Partitioned queries: the table does not change while the query is executed and resumed, the database breaks ties
  in the same order on every fetch, and track values are not null.
- Process pool: which processes are seen ready during the two scans is a parameter of a placement; a process may
  become ready between the scans, and becomes busy only under the lock.
- WHERE trees: AND, OR, NOT, TRUE, FALSE and NULL mean what they mean in SQL, with three truth values; everything
  else is decided by a judge of each row, who does not look at the case of the operator or the table part of the
  column, and about whom nothing else is assumed.
- WHERE trees are as the parser builds them: BETWEEN nodes, and only they, have the operator BETWEEN, and OR joins
  conditions, not a column and a constant.
- A vector store that has an `upsert` of its own overrides the documents of the given ids.
- Redis lists write times as decimal text; equally long numbers sort as text as they sort as numbers.

## Model

| member | source | states |
|---|---|---|
| `JobSchedule.JobRecord.UpdateTaskSchedule` | mindsdb/interfaces/jobs/jobs_controller.py:358-384 | the record changes exactly as the rescheduling rule says, given the successive readings of the clock; a missing next_run_at is an error that changes nothing |
| `JobSchedule.PlannedOnceMoreIff` | mindsdb/interfaces/jobs/jobs_controller.py:358-384 | after a run the job goes on exactly if it has a schedule and the slot one period later is not past end_at, if there is one; it is planned for that slot, or for the moment of planning if that slot has passed, and never in the past; otherwise it is deleted |
| `JobSchedule.PlannedMeanwhile` | mindsdb/interfaces/jobs/jobs_controller.py:361-363 | a job that was planned for later while it ran is left alone |
| `JobSchedule.PeriodsInMinutes` | mindsdb/interfaces/jobs/jobs_controller.py:54-62 | minutes, hours, days and weeks are what they are called |
| `JobSchedule.SlotsAdvance` | mindsdb/interfaces/jobs/jobs_controller.py:370-381 | over any number of runs, whatever the delays, the k-th scheduled time is at least k periods after the first |
| `JobSchedule.OnlyLastSlotNearEnd` | mindsdb/interfaces/jobs/jobs_controller.py:375-381 | every scheduled time except the last is at least a period before end_at, so only the last can lie after it |
| `JobSchedule.RunCountBound` | mindsdb/interfaces/jobs/jobs_controller.py:358-381 | a job with an end date runs at most floor((end_at - start) / period) + 1 times |
| `JobSchedule.PromptRunsKeepTheGrid` | mindsdb/interfaces/jobs/jobs_controller.py:370-381 | runs that finish within a period of their slot stay exactly on the grid start + k periods |
| `JobSchedule.SlotAfterEndIff` | mindsdb/interfaces/jobs/jobs_controller.py:375-381 | a slot after end_at is planned exactly when the next slot is within end_at but already past, and "now" is after end_at |
| `JobSchedule.NextStartIsLateIff` | mindsdb/interfaces/jobs/jobs_controller.py:346-354 | the next run starts after end_at whenever the scheduler looks exactly when its slot is not before end_at; end_at has no part in what is due |
| `JobSchedule.LateRunIsFollowedIff` | mindsdb/interfaces/jobs/jobs_controller.py:346-381 | after a run that started late another one is planned, past end_at, exactly when the slot after its own is within end_at |
| `JobSchedule.LateRunsAreLast` | mindsdb/interfaces/jobs/jobs_controller.py:346-381 | over every sequence of runs: the first late run is the last one, or the last but one in that case |
| `JobSchedule.AtMostTwoLateRuns` | mindsdb/interfaces/jobs/jobs_controller.py:346-381 | at most two runs of a job ever start after its end date |
| `JobSchedule.TwoRunsAfterEnd` | mindsdb/interfaces/jobs/jobs_controller.py:346-381 | a concrete job with two |
| `JobLock.InvStep` | mindsdb/interfaces/jobs/jobs_controller.py:386-419 | every step of every worker keeps the lease invariant: rows unique per job and slot, a live holder owns a fresh row, what workers remember of slots and old rows stays true; reading the job again, finding the competing row and looking at the clock are three steps |
| `JobLock.InvRun` | mindsdb/interfaces/jobs/scheduler.py:85-113 | so does every interleaving of ticks, reads, inserts, second readings, inspections, deletions, heartbeats, ends, broken-off runs and crashes of prompt workers |
| `JobLock.StepFrame` | mindsdb/interfaces/jobs/jobs_controller.py:386-419 | only the acting worker changes its phase; rows appear by an insert and go by a deletion only; jobs change only when they are added, dropped or finished |
| `JobLock.InsertLocksIff` | mindsdb/interfaces/jobs/jobs_controller.py:386-404 | an insert locks the job exactly if no row has its job and start time, or the start time is null; the row is new and of this moment |
| `JobLock.LockIsLeft` | mindsdb/interfaces/jobs/jobs_controller.py:406-419 | after a collision the competing row is deleted only if it was last touched more than 30 seconds before the worker looks at the clock, and the worker is free again in any case |
| `JobLock.HeartbeatRefreshes` | mindsdb/interfaces/jobs/scheduler.py:107-113 | a heartbeat sets the time of the worker's row to the current time and changes nothing else |
| `JobLock.HeldAsLongAsNeeded` | mindsdb/interfaces/jobs/scheduler.py:85-113 | a worker that sends heartbeats can hold its row for any length of time: from every reachable state in which no other worker holds up the clock, every later time is reached with the worker still executing the same row |
| `JobLock.WorkerIsFreed` | mindsdb/interfaces/jobs/jobs_controller.py:532-549 | after the end of a run, or when it breaks off, the worker is free again and the row stays; the end replans the job or stops its schedule, breaking off leaves it as it was |
| `JobLock.CrashIsForGood` | mindsdb/interfaces/jobs/scheduler.py:85-113 | a crashed worker takes no further step in any run |
| `JobLock.SchedulesAdvanceOverRuns` | mindsdb/interfaces/jobs/jobs_controller.py:532-549 | over any run the planned time of a job never goes back |
| `JobLock.MutualExclusion` | mindsdb/interfaces/jobs/jobs_controller.py:386-419 | two live prompt workers never execute the same job while its next_run_at is set |
| `JobLock.FinishedSlotNotRerun` | mindsdb/interfaces/jobs/jobs_controller.py:532-549 | a slot the schedule has moved past is never executed by anyone again |
| `JobLock.LiveRowsAreNotDeleted` | mindsdb/interfaces/jobs/jobs_controller.py:409-417 | deleting a row judged stale, even later, never removes the row of a live worker |
| `JobLock.ExclusiveIffPrompt` | mindsdb/interfaces/jobs/jobs_controller.py:386-419 | mutual exclusion holds over all runs exactly when heartbeat age and inspection time add up to at most the lease of 30 seconds |
| `JobLock.SlowInspectionRunsSlotAgain` | mindsdb/interfaces/jobs/jobs_controller.py:406-417 | for every other timing: a run in which two workers execute a scheduled job, one of them a slot that is over |
| `JobLock.RunsTwiceIffUnscheduled` | mindsdb/interfaces/jobs/jobs_controller.py:393-404 | from any state prompt workers reach, two idle workers can both come to execute a job with its next_run_at unchanged exactly when that is null |
| `JobLock.UnscheduledJobIsRunTwice` | mindsdb/interfaces/jobs/jobs_controller.py:534-540 | a run in which the schedule update fails and two workers then execute the job |
| `JobLock.DeadLockIsTakenOver` | mindsdb/interfaces/jobs/jobs_controller.py:406-419 | once the row of a crashed worker is old, any idle worker can take the job over |
| `PartitionedQuery.RunningQuery.GetPartitionQuery` | mindsdb/interfaces/query_context/context_controller.py:31-68 | the bound of the next batch, and the reset of the progress when the failed step was a different one |
| `PartitionedQuery.RunningQuery.SetProgress` | mindsdb/interfaces/query_context/context_controller.py:94-111 | an empty batch changes nothing; otherwise rows are counted and the track value only rises |
| `PartitionedQuery.FetchBatch` | mindsdb/api/executor/sql_query/steps/fetch_dataframe_partition.py:98-122 | an empty batch ends the loop; a failing fetch, or a failing sub-step when errors are not skipped, raises and leaves the progress as it was, so the batch is fetched again; a failing sub-step that may be skipped commits the batch without keeping its rows; otherwise the batch is committed and kept |
| `PartitionedQuery.FetchIterate` | mindsdb/api/executor/sql_query/steps/fetch_dataframe_partition.py:92-124 | the loop ends, returns the batches whose sub-steps worked, in order, and stores what its attempts committed; it raises exactly if a turn that it reaches on a non-empty batch or a fetch fails and errors are not skipped; without an error nothing is left to fetch |
| `PartitionedQuery.AttemptsCompose` | mindsdb/api/executor/sql_query/steps/fetch_dataframe_partition.py:98-122 | calls that each go on where the one before stopped, with no error of another step recorded in between, are one run of attempts |
| `ResumedQuery.LastPassIsARun` | mindsdb/interfaces/query_context/context_controller.py:52-63 | after every sequence of turns and recorded errors, of whatever steps, what is stored is what was committed before the last restart followed by a run of attempts from the start |
| `ResumedQuery.BatchIsCommittedTwiceIff` | mindsdb/interfaces/query_context/context_controller.py:52-63 | over every such sequence a new query commits a batch twice if and only if, after a commit, an error of another step is the last thing recorded before a turn and that turn or a later one succeeds |
| `ResumedQuery.NoRowTwice` | mindsdb/interfaces/query_context/context_controller.py:94-127 | otherwise no row is committed more often than it is in the table |
| `ResumedQuery.RowIsCommittedTwiceIff` | mindsdb/interfaces/query_context/context_controller.py:94-127 | in a table without equal rows a row is committed twice exactly in that case |
| `ResumedQuery.FinishedCommitsAll` | mindsdb/interfaces/query_context/context_controller.py:31-68 | a query with nothing left to fetch ends with all batches of its table, whatever happened before |
| `ResumedQuery.FinishedQueryIff` | mindsdb/interfaces/query_context/context_controller.py:31-127 | it has committed the whole table in order, no batch twice, exactly when no tie crosses a batch boundary and that case did not occur |
| `ResumedQuery.FirstBatchAgain` | mindsdb/interfaces/query_context/context_controller.py:52-63 | a concrete query of two rows that commits three |
| `ResumedQuery.Execute` | mindsdb/api/executor/sql_query/sql_query.py:225-266 | one execution, stopped before, in or after the loop of the partitioned step or not at all: a stop in another step keeps what is stored and records that step; the loop fails, with its own step recorded, exactly if one of its turns raises; the query is marked finished only if every step succeeds |
| `ResumedQuery.ExecuteAndResume` | mindsdb/api/executor/sql_query/sql_query.py:73-77 | executed and resumed after every error, the query stores the history of all executions, and the two equivalences above hold of it |
| `PartitionedQuery.AboveOfOrdered` | mindsdb/interfaces/query_context/context_controller.py:44-66 | filtering by the track value and ordering commute |
| `PartitionedQuery.RunStaysOnPlan` | mindsdb/interfaces/query_context/context_controller.py:94-111 | over every run of failing and succeeding attempts, what is committed and what is left make up the same list of batches |
| `PartitionedQuery.RunFinishes` | mindsdb/api/executor/sql_query/steps/fetch_dataframe_partition.py:98-122 | every success takes one batch off; enough successes finish the query |
| `PartitionedQuery.BatchesAndLost` | mindsdb/interfaces/query_context/context_controller.py:44-66 | batches and lost rows together are the table, each row once |
| `PartitionedQuery.CompleteIffTiesFit` | mindsdb/interfaces/query_context/context_controller.py:44-66 | the batches deliver the whole table in order exactly when no tie crosses a batch boundary |
| `PartitionedQuery.DistinctTracksFit` | mindsdb/interfaces/query_context/context_controller.py:44-66 | distinct track values never lose a row |
| `PartitionedQuery.MissedRowsTie` | mindsdb/interfaces/query_context/context_controller.py:94-111 | over every run: processed_rows is the number of committed rows, no row is committed twice, and a missed row ties with the last row of a full committed batch |
| `PartitionedQuery.RunCommitsUpToTrack` | mindsdb/interfaces/query_context/context_controller.py:94-111 | without ties across boundaries the committed rows are at all times exactly the ordered rows up to the track value |
| `PartitionedQuery.FinishedRunIsCompleteIff` | mindsdb/interfaces/query_context/context_controller.py:94-111 | a finished query has committed every row once, in order, exactly when no tie crosses a boundary |
| `PartitionedQuery.TiedRowIsLost` | mindsdb/interfaces/query_context/context_controller.py:62-66 | two tied rows and batches of one row: the second is never committed |
| `LastTracking.QueryContext.HandleContextVars` | mindsdb/interfaces/query_context/context_controller.py:193-211 | the stored value if there is one, else the value initialised from the table, which is stored |
| `LastTracking.QueryContext.ResultCallback` | mindsdb/interfaces/query_context/context_controller.py:247-280 | no rows change nothing; otherwise the maximum of the column is stored |
| `LastTracking.QueryContext.Run` | mindsdb/interfaces/query_context/context_controller.py:166-216 | one run delivers and stores what the specification of a run says, with rows arriving in between |
| `LastTracking.SelectReturnsTheExtension` | mindsdb/interfaces/query_context/context_controller.py:211-280 | with LAST at the maximum of an earlier table the query returns exactly the rows added since, and the stored value becomes the new maximum |
| `LastTracking.DeliveredAfterBaseline` | mindsdb/interfaces/query_context/context_controller.py:166-216 | over all runs of a query without LIMIT on a growing table, exactly the rows after the baseline are delivered, each once and in order |
| `LastTracking.EverythingAddedIsDeliveredIff` | mindsdb/interfaces/query_context/context_controller.py:197-207 | all rows added after the first look are delivered exactly when there was a matching row at the first look, or there is none now |
| `LastTracking.StoredValueNeverDecreases` | mindsdb/interfaces/query_context/context_controller.py:247-280 | the stored value never decreases |
| `LimitedLast.LimitLosesNothingIff` | mindsdb/interfaces/query_context/context_controller.py:231-280 | whatever rows the limit lets through, they and the rows of the next query are together all rows above LAST exactly when the rows left out are larger than those let through |
| `LimitedLast.OrderedLimitLosesNothingIff` | mindsdb/interfaces/query_context/context_controller.py:231-280 | with ORDER BY the column, exactly when the limit does not separate equal values |
| `LimitedLast.DeliveredInPortions` | mindsdb/interfaces/query_context/context_controller.py:166-280 | over all runs on a growing table with distinct values, ORDER BY the column and LIMIT n deliver the rows after the baseline in order, each once, n at a time |
| `LastQuery.FindLastColumns` | mindsdb/interfaces/query_context/last_query.py:78-120 | no LAST, exactly one, or an error when there are several |
| `LastQuery.LastQuery.constructor` | mindsdb/interfaces/query_context/last_query.py:94-122 | LAST is replaced in the tree by a new empty constant; the copy kept as key shows every comparison with its column, operator and literal, and NULL in place of LAST |
| `LastQuery.LastQuery.ToRendered` | mindsdb/interfaces/query_context/last_query.py:199-204 | the key of the record does not depend on the value filled in |
| `LastQuery.LastQuery.ApplyValues` | mindsdb/interfaces/query_context/last_query.py:222-231 | writing the linked constant makes the tree show the value at the LAST condition and leaves everything else |
| `LastQuery.LastQuery.GetInitQuery` | mindsdb/interfaces/query_context/last_query.py:233-266 | the first-value query has "is not null" in place of the condition, and the tree is restored with the same constant in it |
| `LastQuery.LastQuery.Runs` | mindsdb/interfaces/query_context/last_query.py:222-266 | over any sequence of runs the tree shows the last value, under the same key |
| `WireFormat.CharCountIsByteCountIff` | mindsdb/api/mongo/server.py:76-79 | a decoded string has as many characters as bytes exactly when it is ASCII |
| `WireFormat.IntRoundTrip` | mindsdb/api/mongo/server.py:71-73 | reading a packed signed 32-bit integer gives it back |
| `WireFormat.ByteOrder` | mindsdb/api/mongo/server.py:71-73 | four bytes are read as a signed integer, the lowest byte first |
| `WireFormat.CharCountOfString` | mindsdb/api/mongo/server.py:76-79 | text written as UTF-8 is decoded to as many characters as it was written from |
| `WireFormat.AcceptedIsString` | mindsdb/api/mongo/server.py:76-79 | the bytes that are decoded at all are the UTF-8 texts of Unicode scalar values |
| `WireFormat.DecodeAllOfJoin` | mindsdb/api/mongo/server.py:85-87 | documents written one after the other are split again by their lengths |
| `WireFormat.JoinOfDecodeAll` | mindsdb/api/mongo/server.py:85-87 | decoding loses no byte |
| `OpMsg.Handle` | mindsdb/api/mongo/server.py:133-165 | the section loop computes the recursive reading of the message, with the same errors |
| `OpMsg.ChecksumByFirstByte` | mindsdb/api/mongo/server.py:133-165 | on any buffer: the last four bytes are left out of the sections exactly if the first byte is odd |
| `OpMsg.OneDocument` | mindsdb/api/mongo/server.py:137-162 | the bytes 1 0 0 0 0, any document and any four bytes are read as flags 1 and this document; 0 0 0 0 0 and any document as flags 0 and this document |
| `OpMsg.OneSequence` | mindsdb/api/mongo/server.py:144-157 | a concrete message with a document sequence, byte by byte |
| `OpMsg.ReadSection` | mindsdb/api/mongo/server.py:144-157 | a section with an ASCII name, wherever it stands in the buffer, is read back and the reader stands right after it |
| `OpMsg.MisreadSection` | mindsdb/api/mongo/server.py:151-157 | a section with a non-ASCII name is never read back with the reader inside the buffer |
| `OpMsg.RoundTripIffAscii` | mindsdb/api/mongo/server.py:133-165 | reading undoes writing, with or without checksum, exactly when all section names are ASCII |
| `WireFraming.ReadBytes` | mindsdb/api/mongo/server.py:314-324 | however the socket cuts the stream, exactly the wanted bytes are returned and consumed, or the connection ends |
| `WireFraming.ReadRequest` | mindsdb/api/mongo/server.py:276-287 | one turn of the connection loop takes the first request of the stream |
| `WireFraming.Serve` | mindsdb/api/mongo/server.py:276-291 | the loop yields the requests of the whole stream, whatever the chunks |
| `WireFraming.HowAStreamEnds` | mindsdb/api/mongo/server.py:276-301 | what makes the loop end: a header or body that is cut off, or an opcode that is not known |
| `WireFraming.FramesThenMore` | mindsdb/api/mongo/server.py:276-291 | frames are taken off the front of a stream one by one, whatever follows |
| `WireFraming.OneRequest` | mindsdb/api/mongo/server.py:281-287 | a concrete request, byte by byte |
| `WireFraming.HeaderRoundTrip` | mindsdb/api/mongo/server.py:281-284 | the four header fields are read back |
| `WireFraming.FourBytesHoldIff` | mindsdb/api/mongo/server.py:71-73 | the numbers a header can carry are those that four bytes hold |
| `WireFraming.FramesRoundTrip` | mindsdb/api/mongo/server.py:276-291 | any sequence of frames sent back to back is recovered |
| `WireFraming.MessagesRoundTrip` | mindsdb/api/mongo/server.py:133-291 | any sequence of OP_MSG messages is recovered down to its sections exactly where the names are ASCII |
| `WireFraming.ReplyIsReadBack` | mindsdb/api/mongo/server.py:181-196 | a reply is one well-formed frame that answers the request and carries the document |
| `WireFraming.ReplyBytesAre` | mindsdb/api/mongo/server.py:181-196 | the bytes of a reply, byte by byte for the header and flags |
| `ProcessPool.ProcessCache.Init` | mindsdb/integrations/libs/process_cache.py:211-245 | the first call gives the preloaded handlers their keep-alive number of new processes, whatever they had, and leaves the others alone; later calls do nothing |
| `ProcessPool.ProcessCache.ApplyAsync` | mindsdb/integrations/libs/process_cache.py:337-370 | a task goes to the first ready process with the model's marker, else the first ready one, else a new one; other handlers are untouched |
| `ProcessPool.PlacementIsExclusive` | mindsdb/integrations/libs/process_cache.py:345-369 | a task goes to the first process the first scan sees ready that has the model's marker; if there is none, to the first the second scan sees ready; if there is none, to a new one. The chosen process held nothing and afterwards holds this task and the marker, every other process is as before, and the pool grows only when every process was busy |
| `ProcessPool.ChooseIsPlace` | mindsdb/integrations/libs/process_cache.py:345-366 | the place of a task, on any list of processes and any two scans of it: the first ready one with the marker, else the first ready one, else a new one |
| `ProcessPool.DoneFreesOne` | mindsdb/integrations/libs/process_cache.py:345-369 | the end of a task frees the process it ran on and changes no other |
| `ProcessPool.PoolStaysBounded` | mindsdb/integrations/libs/process_cache.py:337-400 | over every run no process holds two tasks and there are at most max(keep-alive, peak of outstanding tasks) processes |
| `ProcessPool.ProcessCache.Clean` | mindsdb/integrations/libs/process_cache.py:376-400 | one pass of the cleaner over all handlers |
| `ProcessPool.CleanerStopsOne` | mindsdb/integrations/libs/process_cache.py:379-400 | a pass stops exactly one process that is ready, marked and past its time, if there is one, never any other, and fills up to keep-alive with fresh ones |
| `ProcessPool.PassOverExpired` | mindsdb/integrations/libs/process_cache.py:379-400 | a pass over a pool whose marked processes are all past their time takes one marked process off |
| `ProcessPool.CleanerConverges` | mindsdb/integrations/libs/process_cache.py:372-400 | after as many passes as there were marked processes, max(initially unmarked, keep-alive) unmarked ones are left |
| `ProcessPool.CleaningKeepsBound` | mindsdb/integrations/libs/process_cache.py:379-400 | cleaning keeps the bound and the keep-alive floor |
| `ProcessPool.ProcessCache.RemoveProcessesForHandler` | mindsdb/integrations/libs/process_cache.py:413-430 | the handler's processes go, the others stay |
| `ProcessPool.ProcessCache.Shutdown` | mindsdb/integrations/libs/process_cache.py:402-411 | no handler keeps a process |
| `QueryTree.QueryTraversal` | mindsdb/integrations/utilities/query_traversal.py:4-244 | the traversal, kind by kind and with its loops, computes one uniform walk over the places of a node: result, replacement and visits in order |
| `QueryTree.TraverseEach` | mindsdb/integrations/utilities/query_traversal.py:45-52 | a list is rebuilt with the result of every element in its position |
| `QueryTree.TraverseQueries` | mindsdb/integrations/utilities/query_traversal.py:54-59 | a replaced query of a common table expression takes the place of the whole expression |
| `QueryTree.TraverseRules` | mindsdb/integrations/utilities/query_traversal.py:222-231 | the rules of a CASE are rebuilt pairwise |
| `QueryTree.TraverseWindow` | mindsdb/integrations/utilities/query_traversal.py:119-132 | the function call of a window is walked, but a replacement of it is dropped |
| `QueryTree.TraverseRows` | mindsdb/integrations/utilities/query_traversal.py:152-160 | the rows of an INSERT are rebuilt item by item |
| `QueryTree.TraverseChanges` | mindsdb/integrations/utilities/query_traversal.py:178-185 | a column of an UPDATE keeps its value unless the callback replaces it |
| `TraversalLaws.PlacesAreGroups` | mindsdb/integrations/utilities/query_traversal.py:35-244 | for every kind of node, position by position: the walk has exactly the children of the node, flagged as table, target and sub-query as their place is, and no more |
| `TraversalLaws.KeepingVisitsAll` | mindsdb/integrations/utilities/query_traversal.py:4-244 | a callback that never replaces leaves the tree unchanged and is shown every node exactly once, in preorder, the right side of a join before the left |
| `TraversalLaws.VisitsAreWellPlaced` | mindsdb/integrations/utilities/query_traversal.py:29-33 | for every callback and visit: the stack is the path of ancestors, the node is flagged as a table or a target if and only if its place under its parent is one, the parent query is the nearest query on the path |
| `TraversalLaws.FlagsOfVisit` | mindsdb/integrations/utilities/query_traversal.py:29-244 | the same read off for one visit |
| `TraversalLaws.ReplacementsTakePlaceIff` | mindsdb/integrations/utilities/query_traversal.py:35-132 | every answer takes the place of its node exactly when none is given for a query of a named common table expression and none changes a window's function call |
| `TraversalLaws.WindowReplacementIsLost` | mindsdb/integrations/utilities/query_traversal.py:119-120 | a concrete replacement that is ignored |
| `TraversalLaws.CteReplacementLosesName` | mindsdb/integrations/utilities/query_traversal.py:56-59 | a concrete replacement that takes the name away |
| `RemoveLasts.RemoveLastsKeepsMeaning` | mindsdb/interfaces/query_context/context_controller.py:218-229 | for every tree and every compositional semantics with 0 = 0 true, the rewritten query means the original with each `column op LAST` taken for true, under AND, OR, NOT and in subqueries |
| `RemoveLasts.RemoveLastsLeavesNone` | mindsdb/interfaces/query_context/context_controller.py:218-229 | no such comparison is left anywhere |
| `RemoveLasts.HullAndChildrenTell` | mindsdb/interfaces/query_context/context_controller.py:218-229 | a semantics in this sense may tell any two trees apart |
| `ConditionExtraction.ExtractComparisonConditions` | mindsdb/integrations/utilities/sql_utils.py:93-130 | the callback collects the conditions of all nodes in preorder; the first node it cannot express ends it with an error |
| `ConditionExtraction.ExtractionFailsIff` | mindsdb/integrations/utilities/sql_utils.py:99-127 | extraction fails exactly if somewhere in the tree, under NOT or OR or in a subquery too, stands a comparison that is not one of a column with a constant or a list of constants, or a BETWEEN that is not one of a column and two constants |
| `ConditionExtraction.AndIsSplit` | mindsdb/integrations/utilities/sql_utils.py:101-104 | an AND, written in any case, adds no condition of its own; its sides follow one another |
| `ConditionExtraction.OneWhere` | mindsdb/integrations/utilities/sql_utils.py:99-127 | a concrete WHERE and its conditions |
| `ConditionExtraction.KindsCondition` | mindsdb/integrations/utilities/sql_utils.py:111-116 | a concrete IN list and its condition |
| `ConditionExtraction.FilterDataframe` | mindsdb/integrations/utilities/sql_utils.py:186-208 | the rows kept are those on which every condition holds, in their order; an error exactly if a BETWEEN has fewer than two bounds |
| `ConditionExtraction.SupportedIsExtracted` | mindsdb/integrations/utilities/sql_utils.py:93-130 | on every tree of AND, comparisons with constants and BETWEEN extraction succeeds, and its profile agrees |
| `ConditionExtraction.ListsAreExtracted` | mindsdb/integrations/utilities/sql_utils.py:93-208 | with IN lists as well, conditions and tree agree on every row of a database that reads a constant that carries a list like the tuple of its values |
| `ConditionExtraction.NoWhereKeepsAll` | mindsdb/integrations/utilities/sql_utils.py:186-208 | without a WHERE there are no conditions and every row is kept |
| `ConditionExtraction.AgreeingIsRight` | mindsdb/integrations/utilities/sql_utils.py:93-208 | if the profile of a tree agrees, the conditions extracted from it keep exactly its rows, for every table, whatever comparisons occur how often |
| `ConditionExtraction.ExtractionIsRightIff` | mindsdb/integrations/utilities/sql_utils.py:93-208 | where no comparison occurs twice, conditions and tree agree on all rows if and only if the profile agrees |
| `ConditionExtraction.RightIffRightInTable` | mindsdb/integrations/utilities/sql_utils.py:93-208 | for every tree, conditions and tree agree on all rows if and only if they do on every line of the truth table over its comparisons |
| `ConditionExtraction.DoubleNegationAgrees` | mindsdb/integrations/utilities/sql_utils.py:99-127 | a double negation has the profile of what it negates |
| `ConditionExtraction.NotKeepsRejectedRow` | mindsdb/integrations/utilities/sql_utils.py:99-127 | for NOT over any supported tree a row is kept that the tree rejects |
| `ConditionExtraction.NotIsDropped` | mindsdb/integrations/utilities/sql_utils.py:99-127 | NOT x yields the conditions of x |
| `ModelRegistry.Registry.CreateModel` | mindsdb/interfaces/model/model_controller.py:297-310 | refused for a missing project or a name in use; else an active first record |
| `ModelRegistry.Registry.RetrainModel` | mindsdb/interfaces/model/model_controller.py:312-345 | needs the one active record; adds an inactive record with the next version, with the option `active` as given: true, any other truthy value, or off |
| `ModelRegistry.Registry.FinetuneModel` | mindsdb/integrations/libs/ml_exec_base.py:335-401 | needs a finished base of that name in any project, of the version asked for or else active, and at most one record of the model to go on from; adds an inactive record with the next version and the option as given |
| `ModelRegistry.Registry.FinishTraining` | mindsdb/integrations/libs/ml_handler_process/learn_process.py:136-150 | the record's own flag; then, only if the option is true itself, the newest finished version becomes the only active one: no finished record of the model has a larger id |
| `ModelRegistry.FinishActivatesLatest` | mindsdb/integrations/libs/ml_handler_process/learn_process.py:136-150 | after the end of a training with the option true exactly one record of the model is active, a finished one, and no finished one is newer |
| `ModelRegistry.RetrainingLeads` | mindsdb/integrations/libs/ml_handler_process/learn_process.py:136-150 | retraining a model whose newest finished version is active: with the option absent or true exactly the new version is active when its training ends, with a false one the old version stays, with another truthy value both are |
| `ModelRegistry.TrainingEndsOnce` | mindsdb/integrations/libs/ml_handler_process/learn_process.py:136-161 | a training ends once; one that fails marks its record and changes nothing else |
| `ModelRegistry.Registry.SetModelActiveVersion` | mindsdb/interfaces/model/model_controller.py:439-464 | the version becomes the only active one |
| `ModelRegistry.Registry.DeleteModelVersion` | mindsdb/interfaces/model/model_controller.py:466-488 | removes one inactive version, and only that; an error if there is not exactly one, or it is active |
| `ModelRegistry.Registry.DeleteModel` | mindsdb/interfaces/model/model_controller.py:155-198 | removes all versions |
| `ModelRegistry.LookupFindsAtMostOne` | mindsdb/interfaces/model/functions.py:126-166 | lookups of the active record or of a version never find two |
| `ModelRegistry.StepKeepsOneActiveIff` | mindsdb/interfaces/model/model_controller.py:297-488 | of all operations, exactly the end of a training with a truthy `active` other than true, next to another active record, gives a model two active records |
| `ModelRegistry.RunsHaveOneActiveIff` | mindsdb/interfaces/model/model_controller.py:297-488 | from an empty registry, no model has two active records at any time of a run exactly when no such step is in it |
| `ModelRegistry.StepKeepsGoodIff` | mindsdb/interfaces/model/model_controller.py:297-488 | exactly one active record and distinct versions for every model are kept exactly by the operations that are not one of three described ones |
| `ModelRegistry.RunsStayGoodIff` | mindsdb/interfaces/model/model_controller.py:297-488 | the same over every run from an empty registry |
| `ModelRegistry.RetrainedWithOne` | mindsdb/integrations/libs/ml_handler_process/learn_process.py:136-150 | create, retrain with `active = 1`: two active records |
| `ModelRegistry.ActivatedTooEarly` | mindsdb/integrations/libs/ml_handler_process/learn_process.py:136-150 | a run from an empty registry to a model without active version, and then a duplicate version number |
| `ModelRegistry.FinetunedElsewhere` | mindsdb/integrations/libs/ml_exec_base.py:345-401 | a run from an empty registry in which a finetune creates a model without an active version |
| `BoundedCache.FileCache.Set` | mindsdb/utilities/cache.py:139-173 | afterwards at most max_size + 5 files; what is evicted is older than what stays, exactly max_size stay; a really newest entry survives and holds the value |
| `BoundedCache.FileCache.Get` | mindsdb/utilities/cache.py:183-192 | the last value written under the sanitised name, or nothing |
| `BoundedCache.FileCache.Delete` | mindsdb/utilities/cache.py:194-199 | removes that file only; an error if there is none |
| `BoundedCache.PlainNamesStayApart` | mindsdb/utilities/cache.py:157-160 | names of letters, digits, `_`, `-` and `.` are their own file names, so different ones never share a file; in any other name exactly the other characters become underscores |
| `BoundedCache.RedisCache.Set` | mindsdb/utilities/cache.py:213-247 | the same for Redis, and values and index keep the same keys |
| `BoundedCache.RedisCache.Get` | mindsdb/utilities/cache.py:249-255 | the last value set, or nothing |
| `BoundedCache.RedisCache.Delete` | mindsdb/utilities/cache.py:257-264 | removes the key from values and index, and nothing else |
| `BoundedCache.RedisCache.NamesStayApart` | mindsdb/utilities/cache.py:236-237 | different names have different keys, behind the name of the category |
| `BoundedCache.OldestEntries` | mindsdb/utilities/cache.py:139-156 | sorting by time and cutting selects the oldest entries down to the maximum |
| `BoundedCache.EqualTimesKeepOrder` | mindsdb/utilities/cache.py:153-155 | of two files written at the same time the one listed first is deleted first |
| `Pagination.ListItems` | mindsdb/integrations/libs/api_handler_generator.py:503-566 | the loop ends and returns the first items up to the limit, 20 if none is given, without gap or repeat, exactly when the download does not stop early; otherwise the first page |
| `SplitSql.PiecesAreStatements` | mindsdb/interfaces/jobs/jobs_controller.py:27-30 | every piece is non-empty, has closed quotes and no semicolon outside them |
| `SplitSql.OnlySemicolonsAreLostIff` | mindsdb/interfaces/jobs/jobs_controller.py:27-30 | the pieces concatenate to the text without its top-level semicolons exactly when all quotes are closed |
| `SplitSql.SplitOfJoined` | mindsdb/interfaces/jobs/jobs_controller.py:27-30 | splitting undoes joining statements with semicolons |
| `SplitSql.QuotesProtectSemicolons` | mindsdb/interfaces/jobs/jobs_controller.py:27-30 | semicolons between single or double quotes do not split, nor does the other quote there |
| `SplitSql.UnclosedQuoteSplits` | mindsdb/interfaces/jobs/jobs_controller.py:27-30 | a quote that is never closed ends the statement before it and is left out |
| `Upsert.VectorStore.DoUpsert` | mindsdb/integrations/libs/vectordatabase_handler.py:280-343 | whether the store can upsert, update or neither, it ends up overridden by the prepared rows, everything else untouched |
| `Upsert.EitherWay` | mindsdb/integrations/libs/vectordatabase_handler.py:320-343 | update and delete-then-insert lead to the same store |
| `Upsert.GivenIdsAreKept` | mindsdb/integrations/libs/vectordatabase_handler.py:297-305 | a given id is kept, a missing one is made from the content, everything else stays |
| `Upsert.LastOfTheFirstWins` | mindsdb/integrations/libs/vectordatabase_handler.py:307-313 | of the rows that are the first with their id, the last with a given text of it is what is stored |
| `Upsert.FirstDocumentWinsIff` | mindsdb/integrations/libs/vectordatabase_handler.py:295-313 | every id gets the first row that has it exactly when different ids look different as text |
| `RestartLimiter.TrunkProcessData.RequestRestartAttempt` | mindsdb/__main__.py:85-104 | although old times are trimmed, the decision is the one over all attempts: granted exactly if there is no limit, or no more attempts than the limit so far, or the attempt as many places back as the limit says is older than the interval |
| `RestartLimiter.WindowsAreBounded` | mindsdb/__main__.py:85-104 | no window of the interval's length holds more granted restarts than the limit; all of time, if the interval is 0 |
| `RestartLimiter.QuietIsGranted` | mindsdb/__main__.py:96-104 | after a quiet interval a restart is granted |

## Left out

- Syntax trees are values in `QueryTree.dfy`: the traversal returns the changed node instead of writing its fields, so the ancestors in a visit are shown as they were before the change; sharing of nodes is not modelled there.
- QueryTree.QueryTraversal: does not model Python lists as nodes, nor absent lists apart from empty ones, because they have no place of their own in the tree.
- QueryTree.TraverseEach: does not model a callback that returns a list for a select target, which is spliced in, because then there is no one node that takes the place of the target.
- TraversalLaws.KeepingVisitsAll: covers the kinds of nodes of the tree type; lists as nodes are not among them.
- Select fields that the traversal does not visit (limit, offset, distinct), and aliases.
- LastQuery.FindLastColumns: looks for `column op LAST` only, because LAST inside a function or a cast gets no first-value query; the search for the table of the column is not modelled. Several LAST conditions are always an error.
- LastQuery.LastQuery.constructor: the query is a list of comparisons, because only the linked constant is written later.
- LastQuery.LastQuery.GetInitQuery: the targets, order and limit of the first-value query are not built, because they take no part in the restoring of the tree.
- LAST values of mixed types (conversions to float and text), the mirrored context of conditional jobs, and operators other than `>`.
- Month periods and the parsing of schedule texts and dates; filling of variables into job statements.
- Partitioned queries in threads, NULL track values, plans with two partitioned steps, which share one track value, and processes that die between the sub-steps of a batch and the storing of its progress.
- OpMsg.Handle: keeps the sections as a list where the source merges them into one dictionary, because the dictionary is a function of the list in which a later section of the same name wins.
- OpMsg.RoundTripIffAscii: compares sections as a list, so it tells messages apart that merge to the same dictionary.
- WireFraming.MessagesRoundTrip: the same over a stream.
- OP_INSERT and OP_QUERY messages, TLS, the value of the checksum, and the content of BSON documents beyond their length; a declared size that would not move the reader forward is an error.
- ConditionExtraction.SupportedIsExtracted: does not count `IN (...)` as supported, because `filter_dataframe` puts the list into a constant (`sql_utils.py:198-201`) and what a renderer makes of that is not known from the code here; ListsAreExtracted covers it under an assumption.
- ConditionExtraction.FilterDataframe: leaves what a constant that carries a list means to the judge, for the same reason.
- ConditionExtraction.ExtractionIsRightIff: is about trees without repeated comparisons, because a profile cannot tell repeated ones apart; RightIffRightInTable covers all trees.
- Start-up, memory and termination of operating system processes; ids of new processes.
- Soft deletion of model records in the cloud, `delete_model` with a version, `rename_model`, the moment between the two commits at the end of a training, and values of `active` that the boolean column refuses.
- File contents and locks of the file cache, characters beyond ASCII in file names, data frames; the dictionary of a category that is given the same key by two names is the intended sharing.
- Condition push-down of the REST list, and servers whose list changes during the download.
- What a vector store does with two inserts of the same id beyond keeping the last.
- SQL parsing, rendering and execution, HTTP, and the command dispatch.
