/**
 The manager's state as one value, and what each of its lock-protected sections does to it.
 */
module ManagerState {
  import opened Tasks
  import opened SortedList
  import opened Health

  datatype TaskEvent = TaskEvent(id: Id, state: State, timestamp: Time, task: TaskData)

  datatype MState = MState(
    heap: Heap,                          // the task objects the manager has created
    queue: seq<Task>,                    // PendingTasks
    db: map<Id, Task>,                   // TaskDb
    sorted: seq<Task>,                   // SortedTasks
    events: map<Id, TaskEvent>,          // EventDb
    workers: seq<Worker>,                // Workers
    workerTasks: map<Worker, seq<Id>>,   // WorkersTaskMap
    owner: map<Id, Worker>,              // TaskWorkerMap
    health: Record,                      // WorkerHealth, WorkerState, WorkerHealthCheckFailures
    last: nat)                           // lastWorker

  function New(workers: seq<Worker>): MState {
    MState(map[], [], map[], [], map[], workers, map w | w in workers :: [], map[], Initial(workers), 0)
  }

  /** `WorkersTaskMap[w]`, with Go's nil slice for a missing key. */
  function TasksOf(s: MState, w: Worker): seq<Id> {
    if w in s.workerTasks then s.workerTasks[w] else []
  }

  function SetState(h: Heap, o: Task, st: State): Heap {
    h[o := At(h, o).(state := st)]
  }

  // ---------- Adding, stopping and sending ----------

  function AddTask(s: MState, o: Task): MState {
    s.(queue := s.queue + [o],
       db := s.db[At(s.heap, o).id := o],
       sorted := Enlist(s.heap, s.sorted, o))
  }

  /** `StartTaskHandler`: a new object, then `AddTask`. */
  function Submit(s: MState, o: Task, d: TaskData): MState {
    AddTask(s.(heap := s.heap[o := d]), o)
  }

  /** The locked section of `StopTaskHandler`; `AddTask` follows it under a second lock. */
  function MarkStopped(s: MState, id: Id): MState
    requires id in s.db
  {
    s.(heap := SetState(s.heap, s.db[id], Completed))
  }

  /** The end of `SendWork` after a 201 answer. */
  function Commit(s: MState, o: Task, w: Worker, te: TaskEvent): MState {
    var id := At(s.heap, o).id;
    s.(events := s.events[id := te],
       workerTasks := s.workerTasks[w := TasksOf(s, w) + [id]],
       owner := s.owner[id := w],
       db := s.db[id := o])
  }

  // ---------- Merging a worker's report ----------

  /** The fields a report overwrites. */
  function Updated(d: TaskData, e: TaskData): TaskData {
    d.(state := e.state, containerID := e.containerID, start := e.start, end := e.end)
  }

  function AddIfMissing(ids: seq<Id>, id: Id): seq<Id> {
    if id in ids then ids else ids + [id]
  }

  /** A reported task the manager knows: its object is overwritten when the states differ. */
  function Refresh(h: Heap, t: Task, e: TaskData): Heap {
    if At(h, t).state != e.state then h[t := Updated(At(h, t), e)] else h
  }

  /** A reported task the manager does not know: `o` becomes its copy. */
  function Adopt(s: MState, w: Worker, e: TaskData, o: Task): MState {
    var h := s.heap[o := e];
    s.(heap := h,
       db := s.db[e.id := o],
       owner := s.owner[e.id := w],
       sorted := Insert(h, s.sorted, o),
       workerTasks := s.workerTasks[w := AddIfMissing(TasksOf(s, w), e.id)])
  }

  /** One reported task; `o` is the object made for it when the manager does not know its ID. */
  function MergeOne(s: MState, w: Worker, e: TaskData, o: Task): MState {
    if e.id in s.db then s.(heap := Refresh(s.heap, s.db[e.id], e)) else Adopt(s, w, e, o)
  }

  /** A whole report, in order; `objs[i]` is the object for `report[i]`. */
  function Merge(s: MState, w: Worker, report: seq<TaskData>, objs: seq<Task>): MState
    requires |objs| == |report|
  {
    var n := |report|;
    if n == 0 then s
    else MergeOne(Merge(s, w, report[..n - 1], objs[..n - 1]), w, report[n - 1], objs[n - 1])
  }

  /** The objects offered to a merge are new: none is in the heap, no two are the same. */
  ghost predicate NewObjects(h: Heap, objs: seq<Task>) {
    && (forall o :: o in objs ==> o !in h)
    && (forall i, j :: 0 <= i < j < |objs| ==> objs[i] != objs[j])
  }

  ghost predicate DistinctIds(report: seq<TaskData>) {
    forall i, j :: 0 <= i < j < |report| ==> report[i].id != report[j].id
  }

  // ---------- Cleanup ----------

  /** `TASK_RETENTION_HOURS`, in nanoseconds. */
  const RETENTION: Time := 24 * 3600 * 1000000000

  predicate Expired(s: MState, id: Id, cutoff: Time) {
    id in s.db && At(s.heap, s.db[id]).state == Completed && At(s.heap, s.db[id]).start < cutoff
  }

  function RemoveFirst(ids: seq<Id>, id: Id): seq<Id> {
    if |ids| == 0 then []
    else if ids[0] == id then ids[1..]
    else [ids[0]] + RemoveFirst(ids[1..], id)
  }

  /** What the cleanup loop does to one expired task. */
  function CleanOne(s: MState, id: Id): MState {
    var workerTasks :=
      if id in s.owner && id in TasksOf(s, s.owner[id]) then
        s.workerTasks[s.owner[id] := RemoveFirst(TasksOf(s, s.owner[id]), id)]
      else s.workerTasks;
    s.(workerTasks := workerTasks, owner := s.owner - {id}, events := s.events - {id}, db := s.db - {id})
  }

  /** `ids` without the first occurrence of each member of `gone`. */
  function RemoveFirsts(ids: seq<Id>, gone: set<Id>): seq<Id> {
    if |ids| == 0 then []
    else if ids[0] in gone then RemoveFirsts(ids[1..], gone - {ids[0]})
    else [ids[0]] + RemoveFirsts(ids[1..], gone)
  }

  /** The members of `ids` that `w` owns. */
  function OwnedBy(s: MState, ids: set<Id>, w: Worker): set<Id> {
    set id | id in ids && id in s.owner && s.owner[id] == w
  }

  /** Removing a set of tasks at once. */
  function Clean(s: MState, ids: set<Id>): MState {
    s.(db := s.db - ids,
       events := s.events - ids,
       owner := s.owner - ids,
       workerTasks := map w | w in s.workerTasks :: RemoveFirsts(s.workerTasks[w], OwnedBy(s, ids, w)))
  }

  function Victims(s: MState, cutoff: Time): set<Id> {
    set id | id in s.db && Expired(s, id, cutoff)
  }

  function CleanUp(s: MState, now: Time): MState {
    Clean(s, Victims(s, now - RETENTION))
  }
}
