# Verified models of DevGodzilla's stateful kernels

DevGodzilla plans, executes and tracks software work. Most of it hands work from one service to the next; this project
models the parts that carry an algorithm or keep a state over many calls, and proves what they are there for.

- **Task dependencies** (`DependencyGraph`, `TaskTable`, `TaskRuns`): tasks name the tasks that block them. An update is
  guarded by a depth-first search whose visited set is shared by all proposed blockers. The search is proved to end on
  every graph, to look up each id at most once and to report exactly the first blocker that leads back. Over every run of
  create, update and delete calls the graph stays acyclic exactly when each create would have passed the same guard, and
  acyclic means that the tasks can be put in a working order.
- **Event names** (`Strings`, `EventNames`, `EventNameLaws`, `EventCategories`): the scanner's two regex passes are proved equal to one
  local rule over three neighbouring characters; the printer and the scanner undo each other on an exactly stated set of names;
  and each category is characterised by the names it takes.
- **The event log** (`Paging`, `EventLog`, `EventFilter`): what filtering by name variants selects, and what a reader gets
  that asks for what follows the last id it saw while events keep coming.
- **The job worker** (`Backoff`, `WorkerModel`, `WorkerLaws`, `WorkerEffects`, `WorkerRuntime`): claim, run, requeue with a capped
  exponential delay, or finish or fail. The objects are proved to follow a step machine, and every run of that machine is
  proved to lose no job, to bound the attempts, to agree with the run registry and to end when drained.
- **Relational state** (`ProjectDeletion`, `ProjectIntegrity`, `AgentAssignments`, `StatusUpdates`): deleting a project
  statement by statement against one simultaneous purge, and exactly when a deletion leaves references to rows it took;
  agent assignments against the history of calls; compare-and-set on status columns, with and without a guard.
- **Smaller kernels** (`LogBuffer`, `DeepMerge`, `BlockDedup`, `ChunkedCall`): a bounded log and its polling reader, the deep
  merge of JSON objects, the removal of overlapping block reports, and a command run in chunks under a time budget.

## Where the code does less than one might expect

These are facts of the modelled code, each stated as a theorem with the exact condition or a concrete input.

- `create_task` has no guard: a first row with `blocked_by=[1]` blocks itself (`TaskRuns.CreateCanCloseCycle`). Callers that
  name only issued ids are safe (`TaskRuns.ReachableTablesAreSane`).
- Two acronyms in a row, such as `qa_ci`, do not survive printing and scanning (`EventNameLaws.AdjacentAcronymsMerge`).
- Requesting the event type `1_2` also selects events of type `12` (`EventFilter.CollisionExample`), and a request list with
  an empty name selects too much or too little (`EventFilter.FilterExact`).
- An update of a row that does not exist is refused if the row's own id is among its blockers, where carrying it out would
  change nothing (`TaskRuns.MissingRowRefused`); every other refusal is justified (`TaskRuns.RefusalExact`).
- `list_events_since_id` filters by category after its LIMIT, so a caller that pages with it can stop too early: with a
  limit of one, `protocol_failed` before `protocol_started` hides the latter from a caller that wants planning events
  (`EventLog.CategoryPagingStops`; exactly when, in `EventLog.CategoryPagingExact`). The event stream filters on its own
  side and loses nothing (`EventLog.StreamStaysOnTrack`).
- Names that start with `step_qa_` count as execution, never as qa (`EventCategories.CategoryExact`).
- A block report without match text, if it is the most confident one, removes all others (`BlockDedup.BlankTextTakesAll`).
- A job without an id never finishes: marking its run raises inside the guarded block, so it is retried until it fails,
  although its work was done each time (`WorkerLaws.ErrorExact`).
- A job run that names only a step run survives the deletion of that step's project (`ProjectIntegrity.StrayJobDangles`).
  Which references a deletion cuts is stated on the rows before it (`ProjectIntegrity.DeletionExact`).
- A status write without an expected status lets two callers win the same status (`StatusUpdates.UnguardedBreaks`). The
  balance of a status holds exactly when no such write hits the row while it is in that status (`StatusUpdates.StatusBalance`).
- The log buffer counts from 1 again after a restart. A reader that comes back with its old cursor is not given the entries
  numbered up to that cursor (`LogBuffer.StaleCursorLoses`).
- The deep merge is not associative in general; a scalar between two objects breaks it unless the later object has all keys
  of the earlier one (`DeepMerge.AssociativeExact`).

## Model

Paths are relative to the root of the repository.

| member | source | states |
|---|---|---|
| TaskTable.Tasks.HasCycle | devgodzilla/db/database.py:2657-2676 | ends on every graph; each id is expanded at most once; the path stays within the visited ids; true only if the target is reached; false leaves the path as it was, and every newly visited id has all its successors visited |
| TaskTable.Tasks.CheckCircularTaskDependencies | devgodzilla/db/database.py:2650-2680 | passes if and only if no proposed blocker reaches the guarded id by stored edges; otherwise reports the first one in the list that does; looks up each id at most once over all proposed blockers together |
| TaskTable.Tasks.CreateTask | devgodzilla/db/database.py:2568-2611 | exactly one row is added, under the next id of a counter that never goes back, with the given columns and blockers; all other rows stay |
| TaskTable.Tasks.UpdateTask | devgodzilla/db/database.py:2682-2716 | refused exactly when a proposed blocker reaches the row's id; otherwise the named writable columns of that row hold their arguments, its other columns and all other rows stay; a missing id changes nothing and is reported |
| TaskTable.Tasks.DeleteTask | devgodzilla/db/database.py:2723-2725 | removes the row and only it; every other row stays as it was, and the id is not issued again |
| TaskTable.UpdatableColumns | devgodzilla/db/database.py:2690-2695 | of the columns of devgodzilla/db/schema.py:311-334, an update may write all but the identity, the project and the two time stamps |
| DependencyGraph.RewireExact | devgodzilla/db/database.py:2678-2680 | replacing one list of blockers keeps an acyclic graph acyclic if and only if no new blocker reaches the rewired id beforehand |
| DependencyGraph.AcyclicIffOrdered | devgodzilla/db/database.py:2650-2651 | a graph is acyclic if and only if its tasks can be listed so that each comes after the existing ones that block it |
| DependencyGraph.SomeTaskIsUnblocked | devgodzilla/db/database.py:2650-2651 | a non-empty acyclic graph has a member blocked by no existing one |
| TaskRuns.CreateExact | devgodzilla/db/database.py:2568-2611 | a create keeps the graph acyclic if and only if none of its blockers reaches the id it is about to get |
| TaskRuns.CreateCanCloseCycle | devgodzilla/db/database.py:2591-2610 | a first row that names id 1 blocks itself |
| TaskRuns.UpdateSafe | devgodzilla/db/database.py:2682-2716 | an update keeps the graph acyclic for all arguments, issued ids or not |
| TaskRuns.RefusalExact | devgodzilla/db/database.py:2678-2688 | carrying out a refused update would have closed a cycle if and only if its row exists |
| TaskRuns.MissingRowRefused | devgodzilla/db/database.py:2687-2688 | an update that is refused although it would change nothing |
| TaskRuns.RunExact | devgodzilla/db/database.py:2568-2725 | over every run, every state is acyclic if and only if every create passes the guard that updates go through |
| TaskRuns.ReachableTablesAreSane | devgodzilla/db/database.py:2568-2725 | from the empty table, with callers naming issued ids only, every state is acyclic, has a working order and, when not empty, an unblocked row |
| EventNameLaws.AcronymPassLocal | devgodzilla/events_catalog.py:82 | the greedy, backtracking first substitution cuts exactly between two upper-case letters that a lower-case one follows |
| EventNameLaws.WordPassLocal | devgodzilla/events_catalog.py:83 | the second substitution cuts exactly between a lower-case letter or digit and an upper-case letter |
| EventNameLaws.PassesCompose | devgodzilla/events_catalog.py:82-83 | the second pass over the first one's output is both rules at once: inserted underscores change nothing |
| EventNameLaws.CamelToSnakeIsLocal | devgodzilla/events_catalog.py:79-84 | on names without underscores the whole conversion is one rule over three characters; the replace of double underscores does nothing |
| EventNameLaws.NormalIffNoUpper | devgodzilla/events_catalog.py:92-97 | the fixed points of the normalisation are exactly the names without upper-case letters |
| EventNameLaws.NormalizeIdempotent | devgodzilla/events_catalog.py:92-118 | normalising twice is normalising once, and a name has the category of its normal form |
| EventNameLaws.NormalizeKeepsLetters | devgodzilla/events_catalog.py:92-97 | normalising keeps all characters but case, in order; it puts in underscores only where there were none |
| EventNameLaws.RoundTripExact | devgodzilla/events_catalog.py:79-97 | for every name, printing and normalising gives it back if and only if it is made of non-empty parts without upper-case letters each of which the scanner can tell from the one before |
| EventNameLaws.OrdinaryNamesRoundTrip | devgodzilla/events_catalog.py:76-97 | names of lower-case words of letters and digits, with no acronym and no digit in second place right after an acronym, survive |
| EventNameLaws.AdjacentAcronymsMerge | devgodzilla/events_catalog.py:76-97 | no pair of acronyms survives |
| EventNameLaws.SplitJoin | devgodzilla/events_catalog.py:88 | splitting at underscores undoes joining |
| EventNameLaws.VariantsExact | devgodzilla/events_catalog.py:100-105 | a stored type is among the variants of a request if and only if it is the request's normal form, or the request is ambiguous and it is its camel-case form |
| EventNameLaws.LegacyVariantsExact | devgodzilla/events_catalog.py:100-105 | a stored name with upper-case letters is found by exactly the requests that equal it or whose normal form prints as it |
| EventNameLaws.VariantsMeanTheSame | devgodzilla/events_catalog.py:100-105 | all variants of a request normalise to the same type if and only if its normal form survives printing and scanning, or prints as nothing |
| EventNameLaws.ShoutsAcronyms | devgodzilla/events_catalog.py:76-89 | of words of two or more letters, exactly five are printed in capitals |
| EventCategories.CategoryExact | devgodzilla/events_catalog.py:108-118 | for every name and each category, the prefixes and names that put it there; step_qa_ never leads to qa, because step_ comes first |
| EventCategories.OtherExact | devgodzilla/events_catalog.py:108-118 | what none of those conditions covers is other, and only that |
| EventFilter.FilterExact | devgodzilla/db/database.py:1508-1517 | the filter selects exactly the stored types equal to a requested type's normal form, for all stored types, if and only if no request is empty and none is ambiguous with a type not requested |
| EventFilter.LetterFirstIsSafe | devgodzilla/db/database.py:1508-1517 | a request whose first part starts with a letter is never ambiguous |
| EventFilter.CollisionExample | devgodzilla/events_catalog.py:100-105 | a request that selects a type it does not mean |
| EventLog.Events.AppendEvent | devgodzilla/db/database.py:1463-1499 | appends one row with a fresh, higher id and the normal form of the type; its project is the one given, or else that of its run, if the run exists; fails exactly when neither run nor project is given |
| EventLog.Events.ListEventsSinceId | devgodzilla/db/database.py:1591-1640 | every returned event follows the id, is of the run asked for, of the project asked for by its own project or else its run's, and of a requested type and category; every such row is among the selected ones, and returned unless the clamped limit cuts them short |
| EventLog.SelectedExact | devgodzilla/db/database.py:1603-1617 | the selection, condition by condition, for every event and query |
| EventLog.KeeperExact | devgodzilla/db/database.py:1636-1639 | an event is kept if and only if no category is asked for, or its category is the normal form of one |
| EventLog.ResumeAfter | devgodzilla/db/database.py:1602-1603 | asking again from a returned row gives exactly the rows after it |
| EventLog.MatchingIncreasing | devgodzilla/db/database.py:1631 | the selected rows come in strictly rising id order, so none twice |
| EventLog.MatchingMembers | devgodzilla/db/database.py:1602-1617 | the selected rows are exactly the table's rows after the id that satisfy the query |
| EventLog.Events.Poll | devgodzilla/api/routes/events.py:92-109 | one round: the next selected events up to the clamped limit, each meeting what is asked for; those of the wanted categories are sent, and the cursor moves over all of them |
| EventLog.Events.Stream | devgodzilla/api/routes/events.py:79-115 | on a table that does not grow, polling until an empty page ends and sends, once each, exactly the events after the start that are of the run, project, a type and a category asked for, for every limit and start |
| EventLog.StreamStaysOnTrack | devgodzilla/api/routes/events.py:79-115 | under every interleaving of appended events and polls, what was sent and what is still to come are together the selected events of the wanted categories after the start, in order and once each |
| EventLog.EmptyPollMeansComplete | devgodzilla/api/routes/events.py:91-115 | whenever a poll brings nothing, all of them have been sent |
| EventLog.PagesFollowPull | devgodzilla/db/database.py:1634-1640 | what a caller sees that pages with the query's own category filter |
| EventLog.CategoryPagingExact | devgodzilla/db/database.py:1634-1640 | such paging is complete if and only if no stretch of other selected events as long as the limit comes before one of the category |
| EventLog.CategoryPagingStops | devgodzilla/db/database.py:1634-1640 | two events for which it is not |
| Paging.PullExact | devgodzilla/db/database.py:1630-1640 | the same for any table and any filter applied after a limit |
| WorkerLaws.RequeueDelays | archive/tasksgodzilla/jobs.py:80-83 | over every run, the delays a job was requeued with are the first retry intervals RQ is given, in order and at most one per retry, and they sum to the closed form |
| Backoff.TotalDelay | archive/tasksgodzilla/worker_runtime.py:186 | n delays take 2^(n+1)-2 seconds up to five, and 62 plus a minute for each further one |
| WorkerRuntime.RunRegistry.StartRun | archive/tasksgodzilla/run_registry.py:47-111 | a run is created or set back to running with the attempt number, keeping its error |
| WorkerRuntime.RunRegistry.MarkSucceeded | archive/tasksgodzilla/run_registry.py:113-142 | marks an existing run; raises, changing nothing, when there is none |
| WorkerRuntime.RunRegistry.MarkFailed | archive/tasksgodzilla/run_registry.py:144-165 | marks an existing run with the error; raises, changing nothing, when there is none |
| WorkerRuntime.Worker.TryJob | archive/tasksgodzilla/worker_runtime.py:114-177 | the guarded block: what it leaves in job and registry, and which error it ends with |
| WorkerRuntime.Worker.HandleError | archive/tasksgodzilla/worker_runtime.py:184-241 | back to the end of the queue with the delay for its attempts, and no write, if retryable and below the limit; else failed with the error, its event before the protocol is blocked, and its step failed |
| WorkerRuntime.Worker.RunJobWithHandling | archive/tasksgodzilla/worker_runtime.py:95-250 | the objects follow the step machine |
| WorkerRuntime.Worker.DrainOnce | archive/tasksgodzilla/worker_runtime.py:246-250 | claims one job object and handles it; an empty claim changes nothing |
| WorkerRuntime.Worker.DrainAll | archive/tasksgodzilla/worker_runtime.py:304-308 | in whatever order jobs are claimed, and with empty claims while delays run, the loop ends within the executions left in the queue, with every job finished or failed and none missing |
| WorkerLaws.ErrorExact | archive/tasksgodzilla/run_registry.py:121-129 | an execution ends without error if and only if the job returns and has an id |
| WorkerLaws.RunStarted | archive/tasksgodzilla/run_registry.py:65-98 | an execution sets one run, the job's or a fresh one, to running with its attempt number and touches no other |
| WorkerLaws.JobsConserved | archive/tasksgodzilla/worker_runtime.py:201-250 | an enqueue adds one job, a drain neither loses nor duplicates any |
| WorkerLaws.StepKeepsInv | archive/tasksgodzilla/worker_runtime.py:95-250 | each step keeps: outcomes before the last were all retryable, a failure is a non-retryable error or the last attempt and carries the message of that attempt, run records match, ids differ |
| WorkerLaws.WorkerSafety | archive/tasksgodzilla/worker_runtime.py:95-250 | after every run: queued, finished and failed jobs are the enqueued ones, none was executed more than max_attempts times (once if that is below one), records are SUCCEEDED or FAILED accordingly, requeue delays are a prefix of the retry intervals, and the failure writes are those of the failed jobs |
| WorkerEffects.FailureWrites | archive/tasksgodzilla/worker_runtime.py:208-231 | after every run: a protocol was blocked once for each failed job that names it, right after an event with the job's id and attempts; a step was failed once for each failed job that names it; no other such write was made |
| WorkerLaws.DrainReducesWork | archive/tasksgodzilla/worker_runtime.py:246-250 | each drain lowers the total of executions left, whatever the outcome |
| WorkerLaws.DrainingEnds | archive/tasksgodzilla/worker_runtime.py:304-308 | no run of drains is longer than that total |
| ProjectDeletion.Database.DeleteProject | devgodzilla/db/database.py:793-845 | the ordered deletes with their subqueries remove what one simultaneous purge of the starting tables removes |
| ProjectDeletion.PurgeExact | devgodzilla/db/database.py:793-845 | for each table, the rows that purge takes: what names the project, one of its protocol runs, or a job of either, as the table's statement says; rows that stay are unchanged |
| ProjectIntegrity.DeletionExact | devgodzilla/db/database.py:793-845 | for every database of the schema's shape, dangling references included: a deletion leaves no reference to a row it took if and only if no row outside the project names one of its protocol runs, sprints or tasks or a step of one of its protocol runs |
| ProjectIntegrity.DoomedIffOwned | devgodzilla/db/database.py:793-845 | where references that lead somewhere stay inside a project, the deleted rows are exactly those the project owns |
| ProjectIntegrity.DeletionIsLocal | devgodzilla/db/database.py:793-845 | then all other rows are unchanged and each of their references that led to a row still does |
| ProjectIntegrity.IntactStays | devgodzilla/db/database.py:793-845 | a project-local database without dangling references has none afterwards |
| ProjectIntegrity.DeletionsAreLocal | devgodzilla/db/database.py:793-845 | after any sequence of deletions exactly the rows owned by the deleted projects are gone, the others are unchanged, and no reference to a deleted row is left |
| ProjectIntegrity.StrayJobDangles | devgodzilla/db/database.py:813-820 | a job run that names only a step run outlives it |
| AgentAssignments.Assignments.UpsertAgentAssignment | devgodzilla/db/database.py:1324-1403 | keeps one row per project or global scope and process, holding what was written last, global rows included |
| AgentAssignments.Assignments.DeleteAgentAssignment | devgodzilla/db/database.py:1405-1410 | forgets the project's assignment of one process and no other |
| AgentAssignments.Assignments.UpsertAgentAssignmentSettings | devgodzilla/db/database.py:1421-1433 | sets whether a project inherits, and nothing else |
| AgentAssignments.Assignments.ListAgentAssignments | devgodzilla/db/database.py:1281-1322 | lists each row of the scope that says something, and for an inheriting project each such global row whose process it has none for itself, and nothing else; over any calls, the last-written ones |
| AgentAssignments.Assignments.AssignAndList | devgodzilla/db/database.py:1281-1403 | an assignment just written is listed as it is if and only if its agent, prompt or model is a non-empty string or a flag or metadata is given; otherwise the inherited global one is, if any |
| AgentAssignments.FindUpdated | devgodzilla/db/database.py:1345-1363 | updating the row found for a scope and process changes no other lookup |
| AgentAssignments.FindWithout | devgodzilla/db/database.py:1405-1410 | deleting keeps one row per key and changes one lookup |
| AgentAssignments.EmptyHidesNothing | devgodzilla/db/database.py:1312-1320 | an empty project assignment does not hide the inherited one |
| StatusUpdates.Storage.UpdateStepStatus | archive/tasksgodzilla/storage.py:1302-1354 | succeeds if and only if the row exists and is in the expected status, if a non-empty one is given; then the status is the new one, supplied columns are filled in and the others stay; other rows, and all rows on failure, stay as they were |
| StatusUpdates.Storage.UpdateProtocolStatus | archive/tasksgodzilla/storage.py:1218-1236 | the same for protocol runs |
| StatusUpdates.StatusLedger | archive/tasksgodzilla/storage.py:1302-1354 | over every run of guarded and unguarded writes: what was in a status or entered it is still in it, was claimed out of it, or was overwritten by an unguarded write |
| StatusUpdates.StatusBalance | archive/tasksgodzilla/storage.py:1315-1346 | entries into a status minus claims out of it account for whether the row is in it if and only if no unguarded write hit the row in that status; runs of guarded writes have none |
| StatusUpdates.OneWinner | archive/tasksgodzilla/storage.py:1315-1346 | of racing writes, guarded or not, at most one takes the row out of the status, and exactly one if the row was in it and anyone tried |
| StatusUpdates.ColumnsKeepLastValue | archive/tasksgodzilla/storage.py:1318-1344 | each column holds the last value a successful write supplied, or its first value |
| StatusUpdates.UnguardedBreaks | archive/tasksgodzilla/storage.py:1332-1346 | one silent overwrite lets two callers win the same status |
| LogBuffer.RingBufferHandler.Emit | devgodzilla/logging.py:203-231 | the buffer is the last entries of the history, up to capacity, with ids counting from 1 to the counter |
| LogBuffer.RingBufferHandler.GetLogsSince | devgodzilla/logging.py:233-246 | exactly the buffered entries after the id whose level is the one asked for and whose source contains the one asked for, in order |
| LogBuffer.RingBufferHandler.GetRecent | devgodzilla/logging.py:248-261 | the newest entries of that level and source, as many as the limit allows, in order; a limit of zero gives all, a negative one leaves out that many of the oldest |
| LogBuffer.RingBufferHandler.GetLastId | devgodzilla/logging.py:263-266 | the number of entries ever logged |
| LogBuffer.RingBufferHandler.Poll | devgodzilla/api/routes/logs.py:39-44 | for every cursor, level and source: what is logged after the cursor, wanted and still buffered; the cursor moves over it |
| LogBuffer.FetchExact | devgodzilla/logging.py:233-246 | in terms of the history: what the filter wants of everything after the cursor that is not overwritten, for cursors beyond the counter too |
| LogBuffer.ReaderExact | devgodzilla/api/routes/logs.py:27-53 | under every interleaving, for every filter, start and capacity: the reader has each wanted entry up to its last poll once and in order if and only if none was overwritten between two polls |
| LogBuffer.ReceivedOrLost | devgodzilla/api/routes/logs.py:27-53 | each wanted entry up to the last poll was received or overwritten before a poll, once |
| LogBuffer.ReaderFromStart | devgodzilla/api/routes/logs.py:27-53 | a reader of everything is complete if and only if at most capacity entries come between its polls |
| LogBuffer.StaleCursorLoses | devgodzilla/api/routes/logs.py:69-71 | a reader with a cursor from before a restart: the wanted entries numbered up to that cursor are withheld, each other one is received or overwritten |
| DeepMerge.Merge | windmill/import_to_windmill.py:52-60 | the loop over the override's keys computes the merge and leaves its arguments alone |
| DeepMerge.MergeAt | windmill/import_to_windmill.py:52-60 | the value at every path: override wins unless both sides are objects, and hides what it cuts off |
| DeepMerge.AbsorbedExact | windmill/import_to_windmill.py:52-60 | merging c over a gives c if and only if c has all keys of a, recursively in common objects |
| DeepMerge.MergeSelf | windmill/import_to_windmill.py:52-60 | merging with itself or with the empty object changes nothing |
| DeepMerge.MergeAgain | windmill/import_to_windmill.py:52-60 | applying an override twice is applying it once |
| DeepMerge.AssociativeExact | windmill/import_to_windmill.py:52-60 | the triples for which the merge is associative, both directions |
| DeepMerge.ScalarBetweenObjects | windmill/import_to_windmill.py:52-60 | a triple for which it is not |
| BlockDedup.SortLaws | devgodzilla/engines/block_detector.py:291 | the sort permutes, descends by confidence and keeps the order of equals |
| BlockDedup.IsDuplicate | devgodzilla/engines/block_detector.py:302-307 | finds whether the text overlaps any seen text, in whichever order the set is walked |
| BlockDedup.DeduplicateBlocks | devgodzilla/engines/block_detector.py:278-313 | the nested loops compute the greedy selection |
| BlockDedup.DedupLaws | devgodzilla/engines/block_detector.py:278-313 | the result is an antichain in descending confidence, every input overlaps a kept block of at least its confidence, and a second pass changes nothing |
| BlockDedup.DedupTexts | devgodzilla/engines/block_detector.py:297-307 | no kept text, stripped and in lower case, occurs in another; each dropped one contains or occurs in a kept one of at least its confidence |
| BlockDedup.CaseAndBlanksIgnored | devgodzilla/engines/block_detector.py:299 | no two kept texts differ in case and outer blanks only |
| BlockDedup.BlankTextTakesAll | devgodzilla/engines/block_detector.py:297-307 | a block without text is kept only if it is the first by confidence, and then alone |
| ChunkedCall.RunAttempts | archive/tasksgodzilla/engines_opencode.py:216-282 | every attempt before the last timed out or spoke of a timeout, without an answer; so did the last only if it is the last allowed one or the budget is spent; attempts begin within the budget, the loop ends by budget plus one chunk plus 25 seconds, and with nothing but timeouts starts floor(budget/chunk)+1 attempts, up to 50 |
| ChunkedCall.CallViaCli | archive/tasksgodzilla/engines_opencode.py:216-350 | the same for the call; it succeeds if and only if the last attempt gave a zero return code and output that is not blank, with that output; otherwise an exception, the absence of any completed attempt, or the last completed one decides the error |

## Left out

- SQL engines, connection pools, locking between the guard's reads and the following write, JSON encoding, timestamps: tables are values, a transaction is one step, ids come from a growing counter.
- The Postgres database class: it repeats the SQLite one with other placeholders.
- The event stream's reader: its query and the protocol_runs table it joins with stay the same while it reads; events are only added, with rising ids.
- `list_events` and `list_recent_events`: the same filters with another order and no cursor.
- Non-ASCII names: every character outside ASCII is taken to be its own upper and lower case, which Python's conversions do not do.
- `EventLog.PagesFollowPull`: the repository has no caller that pages with the category filter of the query; the law is about the interface.
- `RedisQueue` claim and requeue rebuild the job with attempts 0, so the bounds on attempts are about a queue that hands the same job object back.
- The RQ entry point of the worker, metrics, log files and the resolution of a job's project: they do not touch the queue or the registry's status.
- `WorkerLaws.WorkerSafety`: assumes that ids drawn for jobs and runs are unused and that database calls other than marking a missing run succeed; status writes are recorded in order, not applied to rows.
- `WorkerRuntime.Worker.DrainAll`: delays are not clock times; assumes that after any claim a later one is given the oldest queued job, and that nothing is enqueued meanwhile.
- Foreign-key enforcement: SQLite leaves it off by default, so only the state at the end of a deletion is judged.
- `UpdateTask` arguments of other types than a list of ids for blocked_by, and the update time column.
- The `blocks` column: the code does not keep it as the inverse of `blocked_by`.
- Category filters other than by name, prefix precedence of categories as a specification, and the confidence scores themselves: they enter as given numbers.
- Log records whose formatting fails, and the cleaning of their metadata.
- Key order of Python dictionaries: objects are compared without it.
- `ChunkedCall.RunAttempts`: only attempts and pauses take time; the clock does not go back and an attempt takes at most its timeout.
- API routes, adapters, configuration, prompts, frontend, migrations: plumbing.
