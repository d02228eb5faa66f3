# YT-Downloader job table, modelled in Dafny

This project models the background worker of YT-Downloader, the `Downloader` class in `downloader.py`, as a state machine over its `jobs` table. A job row holds:

- the search fields: query, language, is-series, always-series, minimum and maximum length in minutes, folder name;
- a status;
- an item id, the `yt_id` a search resolved;
- a parent reference.

The worker's loop runs cycles. Each cycle has two passes:

- The **resolution pass** reads every pending row without an item id, in id order. It searches for the row and keeps the candidates whose duration fits the row's bounds. Then one of three things happens:
  - nothing survives: the row becomes waiting;
  - the row is not a series: it takes the first survivor's item id and becomes queued;
  - the row is a series: one queued child row per survivor is inserted with a duplicate-skipping insert, and the row becomes active.
- The **dispatch pass** reads every queued row, in id order. It marks the row running, fetches it, and marks it done or failed. It then announces the outcome with one `job_updated` event.

Beside the worker, a **series monitor** per always-series parent polls the search again. It inserts new children and never writes the parent. It stops when the parent is gone, cancelled or no longer always-series.

## Layout

- `job_model.dfy` (`JobModel`) holds:
  - the row, candidate, event and state types;
  - the store invariant `Wf`: item ids are unique, and row ids lie below the next id;
  - the status graph `FollowsGraph`.
- `duration_filter.dfy` (`DurationFilter`) holds the duration filter that both the pass and the monitor use, and the filtering loop.
- `job_store.dfy` (`JobStore`) holds the store operations the worker issues: selection in id order, the status update, and `INSERT OR IGNORE`.
- `resolution.dfy`, `dispatch.dfy` and `series_monitor.dfy` each give one operation as a pure definition over the state, with the lemmas that state what that operation does.
- `scheduler.dfy` (`Scheduler`) composes the operations. A cycle is a resolution pass, followed by a dispatch pass when the resolution pass did not raise. A run is any interleaving of cycles and monitor polls. The lemmas there quantify over such runs.
- `downloader.dfy` (`Engine`) is the worker object itself. The class `Downloader` has these fields:
  - the table `jobs`;
  - the next row id `nextId`;
  - the sent `events`;
  - `hasSink`, which says whether an event sink is attached.

  Its methods run the passes with while loops. Each method is proved to leave exactly the state the pure definition gives. The four pass methods, `ResolvePass`, `DispatchPass`, `RunCycle` and `MonitorStep`, also keep `Valid()`. The helper methods `Send`, `ProgressHook`, `UpdateStatus`, `InsertJob`, `InsertChildRows` and `DownloadJob` state only their new state.

## Modelling decisions

- **Inputs.** Search results are a function from the query (text, language, limit) to a sequence of candidates. A fetch outcome is a function from the request (watch URL, folder) to "fetched" or "failed with an error text". Both carry the progress reports the fetcher passed to the progress hook.
- **Item-id uniqueness.** The table's schema is not part of this model. It is taken to declare `yt_id` UNIQUE, with NULLs never clashing, because the duplicate-skipping inserts only deduplicate under that constraint. Consequences:
  - An insert whose non-null item id is already present is a silent no-op.
  - A non-series update that would repeat an item id raises.
  - The catch-all around the cycle then ends the cycle. Writes committed before it stay. The remaining parents and the whole dispatch pass are skipped. One `log` error event is sent if a sink is attached.
  - The parent that raised stays pending without an item id. It is then the lowest unresolved row, so the next cycle raises at it again before writing anything. While the search keeps returning the same results, the worker never dispatches another queued row (`Scheduler.StuckWorkerStarves`).
- **Missing values.**
  - A NULL minimum or maximum length is modelled as 0, which the filter treats the same way (no bound).
  - A NULL folder name is modelled as the empty string, which gets the default folder `misc`.
  - A NULL item id is formatted as `None` in the watch URL, as Python's f-string does.
- **Events.** They are appended to `events` only when a sink is attached, which is the `if self.socketio` test. Delivery failures are swallowed in the source, so they are not modelled.

Where the code and the system's written design disagree, the model follows the code:

- A waiting parent is never picked up again: the selection asks for `pending`.
- A search failure yields no candidates, because the search wrapper swallows exceptions. The parent then becomes waiting rather than staying pending.
- Children of the resolution pass copy the parent's is-series flag. Children of the monitor always have it set.
- A download does not re-check that its row is still queued.
- The monitor does not check is-series, only always-series.
- A failed download is not retried.
- A cycle error does not stay within one cycle. The design assumes the loop survives per-cycle errors and every queued job eventually finishes. Suppose the same non-series query is submitted twice. The second parent's update at `downloader.py:66` repeats an existing item id and raises into the handler at `downloader.py:79`. Every later cycle raises at that parent first, so the dispatch loop at `downloader.py:77-78` never runs again (`Scheduler.StuckWorkerStarves`).

## Model

| member | source | states |
|---|---|---|
| DurationFilter.Seconds | downloader.py:34 | the duration compared, a missing one counting as 0; its meaning is stated by `SurvivesIff` and `MissingDurationDropped` |
| DurationFilter.Survives | downloader.py:35-38 | the two `continue` tests, negated; their inclusive-bound form is stated by `SurvivesIff` |
| DurationFilter.Filtered | downloader.py:33-39 | the survivors in search order, never more than the candidates; which are kept is stated by `FilteredMembers` and `FirstSurvivor` |
| DurationFilter.SurvivesIff | downloader.py:33-39 | a candidate survives iff its duration in seconds is at least 60 times a set minimum and at most 60 times a set maximum, a bound of 0 being no bound |
| DurationFilter.MissingDurationDropped | downloader.py:34-36 | a candidate without a duration counts as 0 seconds, so any positive minimum drops it |
| DurationFilter.FilteredMembers | downloader.py:33-39 | a candidate is kept iff it is one of the inputs and survives the bounds |
| DurationFilter.FilteredEmptyIff | downloader.py:33-40 | the filter keeps nothing exactly when no candidate survives |
| DurationFilter.FirstSurvivor | downloader.py:33-39 | the first kept candidate is the first survivor in search order, and no earlier candidate survives |
| DurationFilter.FilterCandidates | downloader.py:32-39 | the appending loop builds exactly the filtered sequence |
| JobStore.IdsWhere | downloader.py:24-27 | the ids in a range of the rows meeting a condition are listed exactly, in strictly ascending order |
| JobStore.Select | downloader.py:24-28 | the selection lists exactly the rows meeting the condition, in strictly ascending id order |
| JobStore.SetStatus | downloader.py:41-42 | a status update changes only that row's status; a missing row stays missing |
| JobStore.InsertOrIgnore | downloader.py:48-58 | the insert is a no-op iff a row already has the non-null item id; otherwise it adds the row under the next id; existing rows never change; the item id is present afterwards; uniqueness is kept |
| JobStore.ChildOf | downloader.py:55-57 | a child copies the parent's search fields, is queued, carries the candidate's item id and points back at the parent |
| JobStore.InsertChildren | downloader.py:46-60 | the insert loop adds at most one row per candidate, each a child for one of the candidates; keeps existing rows; keeps uniqueness |
| JobStore.InsertChildrenCovers | downloader.py:46-60 | after the insert loop, every candidate item id is in the table |
| JobStore.InsertChildrenPresent | downloader.py:46-60 | inserting candidates whose item ids are all present changes nothing |
| JobStore.InsertChildrenIdempotent | downloader.py:168-181 | repeating the insert loop with the same candidates, each with an item id, inserts nothing more |
| JobStore.MissingIdInsertedTwice | downloader.py:57 | a candidate without an item id is inserted on every attempt, since NULLs never clash |
| Resolution.Unresolved | downloader.py:26 | the pass's WHERE: status pending and no item id; the rows it selects are stated by `Select` |
| Resolution.QueryFor | downloader.py:31 | the search of the pass: the row's query and language, limit 10 |
| Resolution.ResolveParent | downloader.py:30-68 | resolving one parent either commits, keeping the id bound and the log and never dropping a row, or stops at a uniqueness violation |
| Resolution.ResolveNoSurvivors | downloader.py:40-44 | with no survivor the parent becomes waiting, and nothing is inserted or otherwise changed |
| Resolution.ResolveSingle | downloader.py:64-68 | not a series: the parent takes the first survivor's item id and becomes queued, with nothing inserted; the update raises iff that item id is already in the table |
| Resolution.ResolveSeries | downloader.py:45-63 | a series: the parent becomes active; each new row is a queued child copying the parent's fields, for a survivor; every surviving item id is present; at most one new row per survivor |
| Resolution.ResolveParentFrame | downloader.py:40-68 | one committed resolution changes no other existing row; every item id it writes is admitted by the filter; store invariant and status graph kept |
| Resolution.FrameNoSurvivors | downloader.py:40-44 | with no survivor the resolution commits and keeps `CommitFrame`, the frame stated by `ResolveParentFrame` |
| Resolution.FrameSeries | downloader.py:45-63 | a series resolution commits and keeps `CommitFrame` |
| Resolution.FrameSingle | downloader.py:64-68 | a committed single-video resolution keeps `CommitFrame` |
| Resolution.SeriesKeepsWf | downloader.py:45-63 | a series resolution commits and keeps item ids unique: the inserts skip present ids and the status update writes no item id |
| Resolution.SeriesChildrenAdmitted | downloader.py:45-58 | every row a series resolution adds is a queued child of the parent with its query and language, holding an item id of a surviving candidate |
| Resolution.ResolveFrom | downloader.py:29-68 | the loop over the parent snapshot keeps the id bound and the log, and never drops a row |
| Resolution.ResolvePass | downloader.py:24-68 | the pass keeps the id bound and the log, and never drops a row; what it does to each selected row is stated by `ResolvePassCompleted` and `AbortLeavesStuck` |
| Resolution.ResolveFromUntouched | downloader.py:29-68 | rows outside the snapshot are not touched |
| Resolution.ResolveFromWf | downloader.py:29-68 | the pass keeps item ids unique |
| Resolution.ResolveFromWrites | downloader.py:29-68 | every item id written, into an old or a new row, is a candidate of that row's own search that the filter admits; new rows are queued children of a snapshot parent |
| Resolution.ResolveFromFollowsGraph | downloader.py:29-68 | every row keeps its status or takes one transition pending to waiting, queued or active; item ids are only filled in where NULL |
| Resolution.ResolvePassTouchesOnlyUnresolved | downloader.py:24-29 | waiting, active and all other rows that are not pending-without-item-id are left unchanged |
| Resolution.ResolvePassSound | downloader.py:24-68 | the pass keeps the store invariant, follows the status graph, and writes only admitted item ids |
| Resolution.ResolvedRow | downloader.py:40-68 | the row a committed resolution leaves: waiting, active, or queued with the first survivor's item id; never pending, same parent reference |
| Resolution.ResolveParentRow | downloader.py:40-68 | a committed resolution leaves the parent exactly as `ResolvedRow` of its own candidates |
| Resolution.CompletedResolvesAll | downloader.py:29-68 | a loop over distinct rows that ran to the end leaves every one of them as its own search and the filter decide |
| Resolution.ResolvePassCompleted | downloader.py:24-68 | a pass that did not raise leaves no selected row unresolved; each ends waiting, active, or queued with its first survivor's item id |
| Resolution.ResolveParentLeavesPending | downloader.py:40-68 | a committed resolution leaves the parent waiting, queued or active, never pending |
| Resolution.ResolveFromAbortsAt | downloader.py:29-68 | a pass that raised stopped at one snapshot row; the rows before it are no longer pending; that row is still unresolved, and resolving it raises again |
| Resolution.StuckPassWritesNothing | downloader.py:24-68 | when the lowest unresolved row is one whose resolution raises, the pass raises at once and writes nothing |
| Resolution.StuckIgnoresLog | downloader.py:79-85 | sending the error event does not change whether the pass is stuck |
| Resolution.AbortLeavesStuck | downloader.py:24-68 | after a pass that raised, the row it stopped at is the lowest unresolved row and resolving it raises again |
| Dispatch.WatchUrl | downloader.py:109 | the watch URL is the fixed prefix followed by the item id |
| Dispatch.WatchUrlInjective | downloader.py:109 | distinct item ids give distinct watch URLs |
| Dispatch.DistinctItemIdsDistinctRequests | downloader.py:109-112 | in a table with unique item ids, two distinct rows with item ids are fetched with distinct requests |
| Dispatch.RequestFor | downloader.py:90-109 | the fetch of a row: its watch URL and destination folder; its parts are stated by `WatchUrl` and `DestFolder` |
| Dispatch.DestFolder | downloader.py:90 | the folder is the row's folder name when it has one, otherwise the default, and never empty |
| Dispatch.QueuedRows | downloader.py:74-75 | the dispatch snapshot lists each queued row exactly once, ascending by id, with its item id and folder |
| Dispatch.MarkRunning | downloader.py:95 | the first write of a download: the row becomes running |
| Dispatch.FinalStatus | downloader.py:113-128 | failed when the fetch raised, otherwise done |
| Dispatch.UpdateEvent | downloader.py:119-135 | the `job_updated` event a download ends with: done, or failed with the error text |
| Dispatch.ProgressEvents | downloader.py:137-143 | one `download_progress` event per report, in order |
| Dispatch.Emit | downloader.py:131-135 | events reach the log only when a sink is attached |
| Dispatch.Finish | downloader.py:113-135 | the end of a download: progress events, then the final status, then the `job_updated` event |
| Dispatch.DownloadOne | downloader.py:88-135 | one download: mark running, fetch, finish; its effect is stated by `DownloadOneSteps`, `DownloadOneEvents` and `DownloadOneUpdates` |
| Dispatch.DispatchFrom | downloader.py:77-78 | the downloads of the snapshot rows in turn; stated by `DispatchFromTable`, `DispatchFromEvents` and `DispatchFromUpdateOrder` |
| Dispatch.DispatchPass | downloader.py:74-78 | the dispatch pass over the rows queued at its start; stated by `DispatchPassTable`, `DispatchPassEvents` and `DispatchPassUpdateOrder` |
| Dispatch.DownloadOneSteps | downloader.py:88-135 | a queued row passes through running, and each write is one transition; it ends done iff the fetch succeeded, and failed iff it raised |
| Dispatch.ProgressHasNoUpdates | downloader.py:137-143 | progress events are never `job_updated` events |
| Dispatch.DownloadOneEvents | downloader.py:113-135 | one download appends to the log, with exactly one `job_updated` event about its row when a sink is attached, and none about any other row |
| Dispatch.DispatchFromTable | downloader.py:77-78 | with distinct rows, each ends in the status its fetch decides, other rows are unchanged, and no row is added |
| Dispatch.DispatchFromEvents | downloader.py:77-78 | with distinct rows, each gets exactly one `job_updated` event when a sink is attached, and no other row gets one |
| Dispatch.DispatchFromFrame | downloader.py:77-78 | downloads add and remove no row and only append to the log |
| Dispatch.DispatchLogWithoutSink | downloader.py:119-135 | without a sink nothing is emitted |
| Dispatch.DispatchPassTable | downloader.py:74-78 | every row queued at the start ends done or failed as the fetch of its watch URL and folder decides, with no other field changed; other rows unchanged; no row added; uniqueness kept |
| Dispatch.DispatchPassOthers | downloader.py:74-78 | the pass adds no row, keeps the next id, and leaves every row not queued at its start unchanged |
| Dispatch.DispatchPassQueued | downloader.py:74-78 | every row queued at the start ends done or failed as its fetch decides, with no other field changed |
| Dispatch.DispatchPassEvents | downloader.py:74-135 | each row queued at the start gets exactly one `job_updated` event, done or failed with the fetch's error, when a sink is attached; no other row gets one; without a sink the log is unchanged |
| Dispatch.DispatchPassEventsOthers | downloader.py:74-135 | a row not queued at the start gets no `job_updated` event from the pass |
| Dispatch.DispatchPassEventsQueued | downloader.py:74-135 | a row queued at the start gets exactly its own `job_updated` event when a sink is attached, and none without |
| Dispatch.UpdatesFor | downloader.py:77-78 | one `job_updated` event per row, each as that row's fetch decides and about that row, in the rows' order |
| Dispatch.ProgressIsNoUpdate | downloader.py:137-143 | progress events never count among the `job_updated` events |
| Dispatch.DownloadOneUpdates | downloader.py:113-135 | with a sink attached, one download adds exactly its own `job_updated` event to the log's updates |
| Dispatch.DispatchFromUpdateOrder | downloader.py:77-78 | with a sink attached, the downloads append their `job_updated` events in the order of the rows |
| Dispatch.DispatchPassUpdateOrder | downloader.py:74-78 | with a sink attached, the pass appends one `job_updated` event per row queued at its start, exactly those rows, in strictly ascending id order, each as its fetch decides |
| SeriesMonitor.MonitorQuery | downloader.py:158 | the monitor's search: the parent's query and language, limit 20 |
| SeriesMonitor.MonitorInserts | downloader.py:161-181 | the monitor's insert loop keeps the id bound and the log, and never drops a row |
| SeriesMonitor.MonitorIteration | downloader.py:147-181 | one monitor iteration keeps the id bound and the log, and never drops a row |
| SeriesMonitor.MonitorInsertsFiltered | downloader.py:161-167 | the monitor's inline filter is the shared duration filter, so its loop inserts exactly the survivors in order |
| SeriesMonitor.MonitorStops | downloader.py:153-157 | the monitor stops iff the parent is absent, cancelled or not always-series, and then writes nothing |
| SeriesMonitor.MonitorOnlyInserts | downloader.py:158-181 | existing rows, the parent's included, are unchanged; each new row is a queued series child of the parent for an admitted candidate; every admitted item id is present; uniqueness kept |
| SeriesMonitor.MonitorIdempotent | downloader.py:158-181 | polling again with the same results, all with item ids, inserts nothing more |
| Scheduler.Cycle | downloader.py:19-85 | a cycle keeps the id bound, never drops a row and only appends to the log |
| Scheduler.Step | downloader.py:19-85 | a step, cycle or monitor poll, keeps the id bound, never drops a row and only appends to the log |
| Scheduler.Run | downloader.py:18-86 | any sequence of steps keeps the id bound, never drops a row and only appends to the log |
| Scheduler.CycleAbortSkipsDispatch | downloader.py:79-85 | a cycle whose resolution raised leaves every queued row as it was and appends exactly the error event when a sink is attached |
| Scheduler.CycleCompletesQueued | downloader.py:71-78 | after a cycle that did not raise, every row its resolution left queued is done or failed as its fetch decides |
| Scheduler.ResolvePassKeeps | downloader.py:24-68 | the resolution pass keeps uniqueness and parent references, leaves cancelled rows alone, and adds rows only as children of non-cancelled rows |
| Scheduler.DispatchPassKeeps | downloader.py:74-78 | the dispatch pass keeps the same facts |
| Scheduler.StepSound | downloader.py:19-184 | every step keeps uniqueness and parent references, leaves cancelled rows alone, and adds rows only as children of non-cancelled rows |
| Scheduler.CycleKeeps | downloader.py:19-85 | a cycle keeps these facts whether or not its resolution raised |
| Scheduler.RunKeepsItemIdsUnique | downloader.py:47-60 | across any interleaving of cycles and monitor polls, no two rows share a non-null item id |
| Scheduler.CancelledParentSpawnsNothing | downloader.py:156-157 | once a row is cancelled between steps, no sequence of whole cycles and polls changes it, and no later row has it as its parent |
| Scheduler.RunKeepsParents | downloader.py:45-68 | no sequence of steps changes a row's parent reference |
| Scheduler.AbortedCycleStaysStuck | downloader.py:64-85 | after a cycle whose resolution raised, the next cycle's resolution raises again at the same row |
| Scheduler.StuckWorkerStarves | downloader.py:18-86 | once stuck, any number of further cycles with the same search results change no row and dispatch nothing, and the worker stays stuck |
| Engine.Downloader.constructor | downloader.py:10-14 | a worker starts over a well-formed table with an empty event log and the given sink flag |
| Engine.Downloader.Send | downloader.py:82-83 | an event is appended iff a sink is attached |
| Engine.Downloader.ProgressHook | downloader.py:137-143 | each progress report becomes one `download_progress` event when a sink is attached |
| Engine.Downloader.UpdateStatus | downloader.py:95 | the status update leaves the state `SetStatus` gives |
| Engine.Downloader.InsertJob | downloader.py:48-58 | the insert leaves the state `InsertOrIgnore` gives, and reports whether a row was added |
| Engine.Downloader.InsertChildRows | downloader.py:46-60 | the series insert loop leaves the state `InsertChildren` gives |
| Engine.Downloader.ResolveParent | downloader.py:29-68 | resolving one parent leaves the state the pure `ResolveParent` commits, or, when the single-video update raises, changes nothing |
| Engine.Downloader.ResolvePass | downloader.py:24-68 | the resolution loop leaves the state and the completion flag the pure pass gives, and keeps item ids unique |
| Engine.Downloader.DownloadJob | downloader.py:88-135 | one download leaves the table and log `DownloadOne` gives |
| Engine.Downloader.DispatchPass | downloader.py:72-78 | the dispatch loop leaves the state the pure pass gives, and keeps item ids unique |
| Engine.Downloader.RunCycle | downloader.py:19-85 | one loop iteration leaves the state `Cycle` gives, and keeps item ids unique |
| Engine.Downloader.MonitorStep | downloader.py:147-181 | one monitor iteration leaves the state and stop flag the pure iteration gives, and keeps item ids unique |

## Left out

- SQLite plumbing: connections, cursors and commits become atomic updates of the in-memory table. Each statement is one step. Timestamps (`created_at`, `updated_at`) are wall-clock values and have no column in the model.
- The search and download libraries and the network: search results and fetch outcomes are function parameters. The search wrapper in `utils_search.py` is not part of this model; the 10 and 20 result limits are passed to it as part of the query and not applied again. Within one pass the same query is assumed to return the same results.
- The fetcher's options: format, output template, retries, `ignoreerrors`. Only whether the fetch raised, with its error text, and its progress reports are modelled. Progress reports are opaque text.
- Durations are integers. The fetcher may report fractional seconds; floating point is not modelled.
- Filesystem work: joining the download root and creating the folder. Only the choice of folder is modelled. A failing `os.makedirs` would raise out of the dispatch pass into the catch-all; that path is not modelled.
- Scheduling: the unbounded `while` loops, `time.sleep`, the `running` flag and the threads are not modelled. The model runs single iterations and quantifies over sequences of them.
- Event delivery: the sink's own exceptions are swallowed by the source. Events are appended to a log.
- Cancellation: the status is set from outside the worker and is not modelled as an operation. The model states what the worker does to rows already cancelled.
- Interleaving inside a step: each cycle and each monitor poll is atomic, and other writers change the table only between steps. The model does not capture a cancellation that lands mid-step, after the snapshot was read. In the source such a cancellation is overwritten or ignored:
  - a row cancelled after the dispatch snapshot (`downloader.py:74-75`) is still set to running and then done or failed (`downloader.py:95`, `116`, `128`);
  - a pending parent cancelled after the selection (`downloader.py:24-28`) is still written (`downloader.py:41`, `61`, `66`), and series children are still inserted for it (`downloader.py:48`);
  - a monitor that read its parent (`downloader.py:150`) before the cancellation still inserts children (`downloader.py:169`).
- Fetches of NULL item ids: a fetch outcome is a function of the request. Two queued rows with NULL item ids in the same folder send the same request, with the URL ending in `None`. Within one pass the model therefore forces them to the same outcome, which the real fetcher need not give. Rows with item ids never share a request (`Dispatch.DistinctItemIdsDistinctRequests`).
- Other store failures: any error other than the item-id uniqueness violation is not modelled. The ignored exceptions around the inserts cannot arise under the model's store, because an `INSERT OR IGNORE` never raises on a duplicate.
- `app.py` is a placeholder web app with no job logic and is not part of this model.
