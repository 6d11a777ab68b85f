# Minkube: manager, workers and their task life cycle

Minkube is a small container orchestrator. A manager takes tasks over HTTP, keeps them in a pending
queue, a task map, a list sorted by start time and a pair of worker indexes, sends them to workers in
round robin, and merges what the workers report back into its state. A worker gives every task it is
sent a new ID, queues it, starts and stops containers from one run loop, and watches the running ones
from one monitor. This project models both processes and proves what their runs keep.

## How it is built

* **Objects.** A task is shared by pointer between a queue, a map and a list, and its fields, the sort key
  among them, are written through any of those pointers. `Tasks` has the class and, beside it, heaps as
  values (`map<Task, TaskData>`), so that a whole process is one immutable value in which aliasing can
  still be seen.
* **Sections.** `ManagerState` and `WorkerState` give, as functions on such values, what each lock-protected
  section does. The classes of `ManagerService` and `WorkerService` do the same in place, with loops,
  and each method is proved to take `Abs()` to what the function says.
* **Runs.** `ManagerRuns`, `WorkerRuns` and `Cluster` interleave the sections in any order. `SendWork` is
  eight events (dequeue, read health, read readiness, pick, and, without a lock, mark the task, read its
  state and copy it, then the answer), a stop request two, a pass of the worker's loop two to four. Clock
  readings, fresh IDs and objects, Docker's and the network's outcomes and the contents of reports are
  parameters of the events. A run is the list of states and the list of events between them; a theorem
  about runs covers all of them.
* **Layers.** The theorems of `ManagerRuns` and `Sends` hold whatever the workers report. `WorkerMutex` adds
  who holds the worker's mutex to the runs of `WorkerRuns`. `Cluster` adds the workers and the reports on
  their way, and proves what needs the workers' cooperation: above all that the sorted list stays sorted
  although reconcile overwrites start times in place and never sorts again.
* **Pieces.** `SortedList` (insertion is a stable sort), `Reconcile` (what a merge changes, idempotence,
  commutation), `Cleanup` (independence of map order), `Selection` (filter and fairness), `Health`,
  `DockerLog` (the log frame parser), `Queues` (first in, first out), `Pagination`, `Requests`.

## Where the code falls short of what it is for

The model does what the code does. Each point has its exact condition, proved for all runs or inputs, and
where that is not plain from the condition a lemma that reaches it.

* A stop request at the manager does not reach a worker. The manager only posts tasks, a worker resets what
  it accepts to Pending (`WorkerService.Worker.AcceptTask`), and its run loop begins to stop a task only
  after a stop request for it at the worker itself (`WorkerRuns.BeginStopNeedsRequest`).
* `SendWork` overwrites the Completed state of a stopped task, so its post says Scheduled unless a stop
  request or a report comes between the mark and the reading (`Cluster.PostIsStartExactly`; a run in which
  one does: `Sends.PostCarriesCompleted`).
* A submitted task never becomes Running or Failed at the manager under the ID its submitter was given
  (`Cluster.SubmittedTaskNeverRuns`), because the worker renames it and reports it as another task.
* On a worker, `runTask` holds the mutex that `StopTask` locks again. So no stop ever finishes
  (`WorkerMutex.NoStopEverFinishes`), and from the first one on the worker only queues tasks
  (`WorkerMutex.StopBlocksWorker`, reached in `WorkerMutex.StopIsReached`). The theorems of `WorkerRuns`
  cover runs in which stops go through as well, so they do not depend on this.
* A send loses its task exactly if it drops it and the task is neither queued again nor assigned
  (`ManagerRuns.HeldTaskIsLostExactlyByDrop`). It drops it at the first reading exactly if no worker's latest
  health check succeeded (`Sends.ReadHealthyDropsExactly`), so always before the first success
  (`Sends.SendBeforeFirstSuccessDrops`), and at the second exactly if each worker that was up at the first
  has by then failed six times in a row (`Sends.ReadReadyDropsExactly`).
* Cleanup leaves the sorted list alone. List and map hold the same tasks, each once, exactly while they are
  equally long (`ManagerRuns.SortedListRefinesTaskMap`); the list names the tasks of the map and the
  cleaned ones (`ManagerRuns.ListedExactlyMapAndCleaned`), and a cleaned task that is still reported is
  listed twice (`ManagerRuns.ReadoptedTaskIsListedTwice`).
* The workers' lists are the inverse of the owner map exactly until a send is accepted for a task that is
  assigned already (`Sends.InverseUntilResend`, reached in `Sends.ResentTaskIsListedTwice`).
* A report whose state the manager already has changes nothing, even if its container or times differ
  (`Reconcile.AgreesExactlyWhen`); so the manager can miss when a task ended (`Cluster.EndTimeIsMissed`).
* The container-log parser takes a stream that ends right after a header with a non-empty payload for a
  complete one (`DockerLog.NilExactlyOnCleanStops`, `DockerLog.CutIsMissedExactlyAfterHeader`).
* The worker's cap of 1000 on `limit` tests the default instead of the given value: a limit above 1000
  results exactly if one was given (`Pagination.ParseWorker`). The manager's own check does enforce it.
* `.github/copilot-instructions.md` calls Completed and Failed terminal. On a worker each turns into the
  other at exactly the steps `WorkerRuns.EndStateChangesExactly` names; runs that do so are
  `WorkerRuns.CompletedTurnsFailed` and `WorkerRuns.FailedTurnsCompleted`, neither of which needs a stop to
  finish.

## Model

| member | source | states |
|---|---|---|
| Cluster.SortedTasksStaysSorted | internal/manager/manager.go:375-400 | in every reachable state of the manager with any number of workers the sorted list is ordered by start time, although reconcile writes start times in place |
| Cluster.CopiesAgreeOnStart | internal/worker/service/worker.go:144-184 | the manager's objects, the workers' tasks and the reports on their way agree on the start time of an ID: it is final before the task can be reported |
| Cluster.SubmittedTaskNeverRuns | internal/worker/http/handlers.go:60-67 | under an ID the manager issued, no task is ever Running or Failed at the manager or has a container there, since workers rename what they accept |
| Cluster.WorkersShareNoId | internal/worker/http/handlers.go:60 | no ID is a task of two workers, and a worker's task IDs are ones it issued |
| Cluster.PostIsStartExactly | internal/manager/manager.go:470-478 | the posted event says Scheduled, and carries a Scheduled task, iff between the unlocked mark and the reading, or the copy, no stop request for the task and no report of it got the lock |
| Cluster.EndTimeIsMissed | internal/manager/manager.go:376-383 | a run after which every report is merged and the manager still has another end time than the worker |
| Cluster.StepKeepsInv | internal/manager/manager.go:323-427 | every step of the manager, of any worker and of the network keeps the invariant that ties start times and issuers of IDs to all copies |
| Cluster.StartKeepsWorker | internal/worker/service/worker.go:144-184 | a start gives an ID its start time for the first time, and files the task with exactly that time |
| Cluster.ManagerPart | cmd/manager/main.go:37-43 | what a run of the cluster does to the manager is a run of the manager alone, so every theorem of ManagerRuns holds in it |
| Cluster.WorkerPart | cmd/worker/main.go:43-46 | what it does to one worker is a run of that worker alone, so every theorem of WorkerRuns holds in it |
| ManagerRuns.IndexesAreCoherent | internal/manager/manager.go:126-145 | whatever the interleaving and the reports: an owner is a configured worker whose list has the ID, owners and events are for IDs of the task map, the map files objects under their own IDs, every task of the map is listed |
| ManagerRuns.SortedListRefinesTaskMap | internal/manager/manager.go:131-143 | in every run the sorted list is the objects of the task map, each exactly once, iff list and map are equally long, and they are until cleanup removes something |
| ManagerRuns.ListedExactlyMapAndCleaned | internal/manager/manager.go:188-208 | in every run an ID is listed exactly if the map has it or cleanup removed it |
| ManagerRuns.ReadoptedTaskIsListedTwice | internal/manager/manager.go:384-401 | a run in which one task of the map is listed as two objects |
| ManagerRuns.NothingIsLostWithoutDrops | internal/manager/manager.go:444-535 | if no drop exit was taken, every ID ever passed to AddTask is pending, in flight, assigned, or was removed by cleanup |
| ManagerRuns.RunIsAccounted | internal/manager/manager.go:444-535 | in all runs every added ID is pending, in flight, assigned, cleaned, or was dropped |
| ManagerRuns.HeldTaskIsLostExactlyByDrop | internal/manager/manager.go:464-468 | the task SendWork holds is lost by a step exactly when the step finds no worker or gets an undecodable error and the task is neither queued again nor assigned |
| ManagerRuns.EarlySendLosesTask | internal/manager/manager.go:464-468 | a run of three steps that loses a task: no health check came before the send |
| ManagerRuns.TaskMapLossIsCleanup | internal/manager/manager.go:188-207 | an ID that left the task map between two moments of a run was removed by a cleanup in between, at which its task was completed and had started more than 24 hours before |
| Sends.ReadHealthyDropsExactly | internal/manager/manager.go:242-256 | over every run, a send drops its task at the reading of health iff no configured worker's latest check had succeeded |
| Sends.ReadReadyDropsExactly | internal/manager/manager.go:259-273 | over every run, a send that found healthy workers drops its task at the later reading of readiness iff each of them has failed its last six checks by then |
| Sends.SendBeforeFirstSuccessDrops | internal/manager/manager.go:82-87 | until some health check has succeeded, every send drops the task it took |
| Sends.PendingIsFirstInFirstOut | internal/manager/manager.go:446-454 | over every run the tasks that sends took, followed by those pending, are the tasks ever queued in the order in which they were queued, so the k-th taken is the k-th queued |
| Sends.AdditionIsFiled | internal/manager/manager.go:130-143 | whatever queues a task also files it under its ID and puts it into the list, and no other entry of the map changes |
| Sends.RecordIsWhatWasPosted | internal/manager/manager.go:526-533 | over a run, what an accepted send records is the event as it was built for that post, with the copy of the task made then, filed for the object that was sent |
| Sends.TaskAfter | internal/manager/http/handlers.go:240 | at the manager a stop request and the mark of a send write the state of their task and nothing else, a report of it neither its ID nor its spec, and no other step writes a task |
| Sends.OnlyReportsWriteMore | internal/manager/manager.go:379-382 | over a run without a report of it, a task keeps everything but its state, its container included |
| Sends.AcceptedSendStaysOnRecord | internal/manager/manager.go:526-533 | at every moment after an accepted send its task is assigned, in the list of the worker it went to and has an event, unless a cleanup in between found it expired |
| Sends.RecordedTasksAreAssigned | internal/manager/manager.go:528-531 | in every run each event on record is of the task it is filed under, and that task is assigned |
| Sends.InverseBreaksExactlyByResend | internal/manager/manager.go:529-530 | a step takes the workers' lists out of correspondence with the owner map iff it records a send of a task that is assigned already |
| Sends.InverseUntilResend | internal/manager/manager.go:529-530 | over a run the lists are the inverse of the owner map up to a moment iff no such send came before it |
| Sends.ResentTaskIsListedTwice | internal/manager/http/handlers.go:240-242 | a run in which a stop request has a task sent to a second worker and both workers' lists have it |
| Sends.BuildingStep | internal/manager/manager.go:470-478 | while the event is built, without the lock, a step makes the task other than Scheduled iff it is a stop request for it or a report of it |
| Sends.PostCarriesCompleted | internal/manager/manager.go:470-478 | a run in which the posted event says Completed |
| Sends.SendsAreSharedFairly | internal/manager/manager.go:224-234 | over any stretch of a run in which who is healthy and ready does not change, each schedulable worker gets floor or ceiling of its share of the picks, whatever happens in between |
| Sends.FirstPickIsTheSecond | internal/manager/manager.go:228-232 | in every run the first send to pick a worker takes the second schedulable one, if there are two: the index starts at 0 and moves first |
| ManagerRuns.StepKeepsCoherent | internal/manager/manager.go:126-145 | every event keeps the indexes coherent |
| ManagerRuns.StepKeepsExact | internal/manager/manager.go:131-143 | every event that removes nothing keeps list and map in exact agreement |
| Coherence.MergeKeepsSorted | internal/manager/manager.go:375-400 | a merge whose start times are the recorded ones keeps the list sorted without sorting it |
| Coherence.DisagreeingReportUnsorts | internal/manager/manager.go:379-382 | without that agreement it does not: a concrete report that breaks the order |
| Coherence.MergeKeepsCoherent | internal/manager/manager.go:366-421 | any report, from a configured worker, keeps the indexes coherent |
| Coherence.CleanKeepsCoherent | internal/manager/manager.go:188-208 | removing any set of tasks keeps the indexes coherent |
| Coherence.ExactListIsTaskMap | internal/manager/manager.go:131-143 | one object per ID, each listed once, makes the list a permutation of the map's values |
| Reconcile.MergeEntry | internal/manager/manager.go:375-416 | after a merge each reported ID has the reported state, and the reported container and times if its state differed; an unknown ID is adopted as a copy owned by the reporter |
| Reconcile.AgreesExactlyWhen | internal/manager/manager.go:376-383 | the manager agrees with the report on all reported fields iff the ID was new, its state differed, or they agreed before |
| Reconcile.MergeFrame | internal/manager/manager.go:369-419 | IDs a report does not name keep their entry, their data and their owner |
| Reconcile.MergeIsIdempotent | internal/manager/manager.go:369-419 | the same report again changes nothing at all |
| Reconcile.MergeTaskLists | internal/manager/manager.go:403-413 | the reporter's list gains exactly the orphans it lacked, each once, in report order; no other list changes |
| Reconcile.MergeSortedList | internal/manager/manager.go:397-400 | the sorted list gains one object per orphan and loses nothing |
| Reconcile.LockOrderIsIrrelevant | internal/manager/manager.go:323-427 | however many goroutines there are, any two orders in which they get the lock leave the same maps, lists and task data and the same entries in the sorted list, if the reports are of distinct workers and share no ID |
| Cleanup.CleanUpIsOrderIndependent | internal/manager/manager.go:188-208 | every iteration order over the task map gives the same state |
| Cleanup.CleanUpRemovesExactlyExpired | internal/manager/manager.go:182-209 | exactly the tasks that are completed and started more than 24 hours ago leave the maps; each owner's list loses one occurrence of each, and keeps the rest in order; nothing else changes |
| Cleanup.CleanStep | internal/manager/manager.go:190-206 | one turn of the loop after a set of turns is the removal of the larger set |
| Cleanup.RemoveFirstsLosesOneEach | internal/manager/manager.go:194-200 | each removed ID loses exactly one occurrence where it has one; the other IDs keep their order |
| Cleanup.RemoveFirstAt | internal/manager/manager.go:195-200 | the occurrence the scan cuts out is the first |
| SortedList.InsertAllIsStableSort | internal/manager/manager.go:155-165 | inserting any arrival sequence gives a sorted permutation of it with equal start times in arrival order |
| SortedList.InsertConserves | internal/manager/manager.go:160-162 | on any list, sorted or not, insertion is in bounds and neither loses nor invents an entry |
| SortedList.SearchIsUpperBound | internal/manager/manager.go:157-159 | on an ascending list the binary search finds the first later start time |
| SortedList.EnlistDisplacesAtMostSameId | internal/manager/manager.go:136-143 | the added object is in the list, and the one entry it can displace is the first with its ID |
| Health.HealthOfHistory | internal/manager/manager.go:547-564 | after any history of checks the failure count is the length of the worker's trailing run of downs, it is Unhealthy, and not ready, iff that exceeds 5, and healthy iff its last check was up |
| Health.ChecksAreIndependent | internal/manager/manager.go:547-564 | checks of other workers do not affect a worker's record |
| Health.HealthyImpliesReady | internal/manager/manager.go:557-563 | in one snapshot a healthy worker is ready and has no failures |
| Selection.SchedulableIsFilter | internal/manager/manager.go:242-288 | the schedulable list is the configured list, in order, without the workers that are not both healthy and ready |
| Selection.FilterAround | internal/manager/manager.go:245-249 | each worker that passes is kept where it stands between the others, as often as it is configured, and each other one goes |
| Selection.SelectFailsIffNoneEligible | internal/manager/manager.go:211-235 | selection fails iff no configured worker is healthy and ready, else picks such a one; the index is in range from any earlier value |
| Selection.ChosenWorkerRecord | internal/manager/manager.go:216-231 | with health and readiness read at two times, the chosen worker was healthy at the first and had failed at most five checks in a row at the second |
| Selection.RoundRobinIsFair | internal/manager/manager.go:230-231 | from any start, k selections over n distinct workers pick each floor(k/n) or ceil(k/n) times |
| Selection.EachRoundVisitsAll | internal/manager/manager.go:230-231 | any n consecutive selections over n entries are a rotation of the list: each entry is visited once |
| WorkerRuns.StartedAtMostOnce | internal/worker/service/worker.go:117-131 | over every interleaving a container start is attempted at most once per task ID, and exactly for the IDs on file |
| WorkerRuns.TasksAreLiveOrWaiting | internal/worker/service/worker.go:83-202 | a filed task is Running, Completed or Failed; any other is Pending, unfiled, and once in the queue or in the loop's hand |
| WorkerRuns.StartedTasksStayLive | internal/worker/service/worker.go:154-178 | over every run no task returns to Pending or Scheduled, and a started task keeps its container, start time, ID and spec |
| WorkerRuns.FiledTaskAfter | internal/worker/http/handlers.go:215 | all that a step writes to a filed task: a stop request its state, the end of its stop, a recorded error and a monitor that misses its container also its end time; never its container |
| WorkerRuns.WaitingTaskAfter | internal/worker/service/worker.go:117-131 | a task that waits for its start is written by that start only |
| WorkerRuns.SnapshotListsExactlyRunning | internal/worker/service/worker.go:236-243 | the monitor lists exactly the filed tasks that are Running |
| WorkerRuns.InspectedWasRunning | internal/worker/service/worker.go:236-248 | over every run, what the monitor inspects was filed and Running at its last listing, and is inspected once per listing |
| WorkerRuns.QueueIsFirstInFirstOut | internal/worker/service/worker.go:95-101 | over every run the tasks the loop took, followed by those queued, are the tasks ever queued in the order in which they were queued |
| WorkerRuns.EndStateChangesExactly | internal/worker/service/worker.go:253-288 | a Failed task is completed exactly by a stop request for it or the end of its stop, a Completed one failed exactly by an error recorded for it or a monitor that misses its container |
| WorkerRuns.CompletedTurnsFailed | internal/worker/service/worker.go:248-254 | a run in which the monitor fails a completed task |
| WorkerRuns.FailedTurnsCompleted | internal/worker/http/handlers.go:208-217 | a run in which a stop request completes a failed task |
| WorkerRuns.BeginStopNeedsRequest | internal/worker/http/handlers.go:215-217 | over every run, whenever the run loop begins to stop a task, a stop request for its ID reached this worker before |
| WorkerRuns.StepKeepsInv | internal/worker/service/worker.go:83-288 | every step of the handlers, the run loop and the monitor keeps the worker's invariant |
| WorkerRuns.PassOutcome | internal/worker/service/worker.go:56-142 | how a whole pass of the run loop leaves the task it took, for every state and outcome |
| WorkerMutex.LockedRunIsRun | internal/worker/service/worker.go:115-116 | what the mutex admits, with lock and unlock forgotten, is a run of the worker |
| WorkerMutex.NoStopEverFinishes | internal/worker/service/worker.go:185-187 | with the mutex as it is, no stop ever gets past the second lock |
| WorkerMutex.StopBlocksWorker | internal/worker/service/worker.go:115-134 | once the loop begins a stop nobody locks the mutex again, and nothing happens but accepting tasks, which stay queued |
| WorkerMutex.BlockedExactlyAfterBeginStop | internal/worker/service/worker.go:132-134 | the loop is blocked iff it began a stop before |
| WorkerMutex.StopIsReached | internal/worker/service/worker.go:132-134 | a run that the mutex admits and that blocks the worker |
| ManagerService.Manager.New | internal/manager/manager.go:73-103 | a new manager holds nothing, with every worker unhealthy, ready and without failures |
| ManagerService.Manager.AddTask | internal/manager/manager.go:126-145 | queue, map and list after an addition are those of the specification |
| ManagerService.Manager.FindTaskInSortedList | internal/manager/manager.go:146-153 | the scan finds the first entry with the ID, or -1 |
| ManagerService.Manager.SearchPosition | internal/manager/manager.go:157-159 | the search loop finds the position of the specification, on any list |
| ManagerService.Manager.ShiftIn | internal/manager/manager.go:160-162 | growing the slice, shifting the tail in place and writing the slot inserts at the index |
| ManagerService.Manager.InsertSorted | internal/manager/manager.go:155-165 | search and shift together are the specified insertion |
| ManagerService.Manager.StartTask | internal/manager/http/handlers.go:93-116 | a submission makes a new pending object and adds it |
| ManagerService.Manager.MarkStopped | internal/manager/http/handlers.go:225-241 | a stop marks the object of the map completed, or finds none |
| ManagerService.Manager.CleanUpTasks | internal/manager/manager.go:182-209 | the loop, in whatever order the map yields keys, removes exactly the expired tasks |
| ManagerService.Manager.RemoveTask | internal/manager/manager.go:192-206 | the scan and cut for one expired task |
| ManagerService.Manager.MergeReport | internal/manager/manager.go:366-421 | the loop over a report updates and adopts in place as the specified merge, with new objects |
| ManagerService.Manager.MergeTask | internal/manager/manager.go:375-417 | one reported task |
| ManagerService.Manager.GetHealthyWorkers | internal/manager/manager.go:242-256 | the loop collects exactly the healthy workers in order |
| ManagerService.Manager.GetReadyWorkers | internal/manager/manager.go:259-273 | the loop collects exactly the ready workers in order |
| ManagerService.Manager.WorkersInBoth | internal/manager/manager.go:276-288 | the two loops intersect in the order of the second list |
| ManagerService.Manager.SelectWorker | internal/manager/manager.go:211-235 | the choice and the new index when nothing comes in between |
| ManagerService.Manager.SendWork | internal/manager/manager.go:444-535 | a send that nothing interrupts is its eight events in a row |
| ManagerService.Manager.CommitSend | internal/manager/manager.go:526-533 | the four writes after a 201 answer |
| ManagerService.Manager.MarkWorkerDown | internal/manager/manager.go:547-556 | a failed check on the three health maps |
| ManagerService.Manager.MarkWorkerUp | internal/manager/manager.go:557-564 | a passed check on the three health maps |
| WorkerService.Worker.AcceptTask | internal/worker/http/handlers.go:60-67 | an accepted task is a new object with a new ID, pending, at the end of the queue |
| WorkerService.Worker.RequestStop | internal/worker/http/handlers.go:208-217 | a stop request marks the filed task completed and queues the same object |
| WorkerService.Worker.RunOnce | internal/worker/service/worker.go:56-142 | a pass of the run loop that nothing interrupts is its events in a row |
| WorkerService.Worker.StartTask | internal/worker/service/worker.go:117-131 | the start branch on the shared object, the map and the loop |
| WorkerService.Worker.StopTask | internal/worker/service/worker.go:185-202 | the effect of a stop once it has the mutex |
| WorkerService.Worker.UpdateTaskState | internal/worker/service/worker.go:281-288 | state and end time of a filed task, nothing for an unknown ID |
| WorkerService.Worker.RunningTasks | internal/worker/service/worker.go:236-243 | the monitor's scan lists exactly the running tasks, each once |
| WorkerService.Worker.InspectTask | internal/worker/service/worker.go:248-268 | a listed task whose container is gone or exited is marked failed |
| DockerLog.ProcessDockerStream | internal/worker/service/worker.go:289-332 | the read loop makes the calls and returns the outcome of the specified parse, for every response, stream, fault and callback |
| DockerLog.ParseInvertsEncode | internal/worker/service/worker.go:298-331 | parsing the encoding of any list of frames calls back with exactly those frames in order and returns no error |
| DockerLog.EachEntryCostsEightBytes | internal/worker/service/worker.go:298-300 | every call of the callback has consumed at least eight bytes |
| DockerLog.PrefixEmitsPrefix | internal/worker/service/worker.go:298-331 | what is emitted on a prefix of any stream is a prefix of what is emitted on the whole |
| DockerLog.NilExactlyOnCleanStops | internal/worker/service/worker.go:300-324 | the parser returns nil iff the stream stops at a frame boundary or right after a header whose non-empty payload is wholly absent |
| DockerLog.CutIsMissedExactlyAfterHeader | internal/worker/service/worker.go:315-320 | a stream cut inside a frame is taken for complete iff the cut is at the frame's start or right after its header; anywhere else it is an error |
| DockerLog.FaultDecidesOutcome | internal/worker/service/worker.go:300-322 | for every stream and a callback that never refuses: a reader's error is returned as it is, and without one the outcome is nil or the unexpected end |
| DockerLog.BrokenStreamIsReported | internal/worker/service/worker.go:303-322 | a stream that breaks gives its error and exactly the entries that the same bytes give without the error |
| DockerLog.CallbackOnlyCutsShort | internal/worker/service/worker.go:329-331 | a refusing callback gets the same entries up to and including the first it refuses, and its error is returned |
| Pagination.ManagerPage | internal/manager/http/handlers.go:153-192 | the clamped slice copied by the loop is the page, with the least page count and the test for a next page |
| Pagination.WorkerPage | internal/worker/http/handlers.go:153-186 | the worker's arithmetic gives the same page, its page count and tests |
| Pagination.PagesTile | internal/manager/http/handlers.go:155-182 | for every limit, pages 1 to the manager's page count give the list in order, none is longer than the limit, and pages past the count are empty |
| Pagination.HasNextIffLaterPage | internal/manager/http/handlers.go:190 | a next page is announced iff some later page is not empty |
| Pagination.HandlersAgree | internal/worker/http/handlers.go:155-183 | the two has_next tests agree and the page counts differ only on the empty list, 1 against 0 |
| Pagination.ParseWorker | internal/worker/http/handlers.go:130-144 | the worker falls back to its defaults and takes any positive limit, so the result exceeds 1000 iff the given one does |

## Left out

- Docker calls, image pulls, HTTP transport, JSON, routing, logging and tickers: their outcomes are parameters of the events.
- Real time: a clock reading is any integer number of nanoseconds; Go's monotonic clock part, which can make comparisons of local and decoded times disagree after a clock change, is not modelled.
- `uuid.New`: IDs are fresh by assumption, across the manager and all workers.
- `ToValidUTF8`: any function from bytes to bytes.
- Locks: a locked section is one step; nested read locks are not modelled, and lock and unlock are separate only for the worker's mutex in `WorkerMutex`.
- Data races inside a section: an unlocked read or write of `SendWork` comes between whole sections of other threads, not between two writes of one section.
- Process crashes: a nil Docker client or a nil request in the failure paths of `runTask` and `SendWork` is taken not to happen.
- Integer overflow of `page * limit` and of memory in bytes: integers are unbounded.
- Host ports, port bindings, restart policy and retry counters of a task: nothing in the modelled code decides on them.
- Wrong element types in the queues: the queues are typed.
- `Worker.GetTasks`: its mismatched unlock is outside the atomic steps.
- Tiling of worker pages across requests: each request lists a map in another order, so only a single listing is compared.
- The link between a post and its acceptance: a worker accepts tasks at any time, whether or not the manager hears of it.
- API keys, permissions, rate limits, the web UI, statistics and the scheduler stub: wiring and plain data.
