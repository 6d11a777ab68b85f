/**
 A worker's state as one value, and what its handlers, run loop and monitor do to it.
 */
module WorkerState {
  import opened Tasks

  /** Where the run loop stands between two lock-protected sections. */
  datatype RunLoop =
    | Idle
    | Taken(o: Task)        // dequeued, not yet looked at
    | Stopping(o: Task)     // inside `StopTask`; `runTask` still holds the mutex
    | Failing(id: Id)       // about to mark the task failed after an error

  datatype WState = WState(
    heap: Heap,               // the task objects the worker has created
    queue: seq<Task>,         // Queue
    tasks: map<Id, Task>,     // TaskIds
    loop: RunLoop,
    watch: set<Task>,         // what the monitor has yet to inspect in this cycle
    started: seq<Id>)         // the IDs for which a container start was attempted, in order

  const NEW_WORKER := WState(map[], [], map[], Idle, {}, [])

  /** The events of one worker. `now` is the clock; the rest are outcomes the environment decides. */
  datatype WEvent =
    | Accept(o: Task, d: TaskData)              // POST /tasks
    | StopRequest(id: Id)                       // DELETE /tasks/{id}
    | Take                                      // the loop dequeues
    | Start(now: Time, ok: bool, containerID: string)
    | BeginStop                                 // the loop took a Completed task
    | FinishStop(now: Time, ok: bool)           // container stopped and removed, or an error
    | Reject                                    // the loop took a task in any other state
    | MarkFailed(now: Time)                     // the loop records the error
    | Snapshot                                  // the monitor lists the running tasks
    | Inspect(o: Task, gone: bool, now: Time)   // the monitor checks one of them

  predicate Live(st: State) {
    st == Running || st == Completed || st == Failed
  }

  /** `updateTaskState`. */
  function SetTaskState(s: WState, id: Id, st: State, now: Time): WState {
    if id in s.tasks then
      s.(heap := s.heap[s.tasks[id] := At(s.heap, s.tasks[id]).(state := st, end := now)])
    else s
  }

  /** The handler gives every task it decodes a new ID, the current time and state Pending. */
  function AcceptTask(s: WState, o: Task, d: TaskData): WState {
    s.(heap := s.heap[o := d], queue := s.queue + [o])
  }

  function RequestStop(s: WState, id: Id): WState {
    if id in s.tasks then
      var o := s.tasks[id];
      s.(heap := s.heap[o := At(s.heap, o).(state := Completed)], queue := s.queue + [o])
    else s
  }

  /** `StartTask`, the attempt to start a container included; an error leaves the task failed. */
  function StartTask(s: WState, o: Task, now: Time, ok: bool, containerID: string): WState {
    var d := At(s.heap, o);
    var d' := if ok then d.(start := now, containerID := containerID, state := Running)
              else d.(start := now, state := Failed);
    s.(heap := s.heap[o := d'],
       tasks := s.tasks[d.id := o],
       started := s.started + [d.id],
       loop := if ok then Idle else Failing(d.id))
  }

  /** The effect of `StopTask` once it has the mutex. */
  function StopTask(s: WState, o: Task, now: Time, ok: bool): WState {
    var d := At(s.heap, o).(end := now, state := Completed);
    s.(heap := s.heap[o := d],
       tasks := s.tasks[d.id := o],
       loop := if ok then Idle else Failing(d.id))
  }

  function RunningTasks(s: WState): set<Task> {
    set id | id in s.tasks && At(s.heap, s.tasks[id]).state == Running :: s.tasks[id]
  }

  ghost predicate CanStep(s: WState, e: WEvent) {
    match e
    case Accept(o, d) =>
      && o !in s.heap && d.state == Pending
      && (forall x :: x in s.heap ==> s.heap[x].id != d.id)    // uuid.New
    case StopRequest(id) => true
    case Take => s.loop.Idle? && |s.queue| > 0
    case Start(now, ok, containerID) =>
      s.loop.Taken? && (At(s.heap, s.loop.o).state == Pending || At(s.heap, s.loop.o).state == Scheduled)
    case BeginStop => s.loop.Taken? && At(s.heap, s.loop.o).state == Completed
    case FinishStop(now, ok) => s.loop.Stopping?
    case Reject =>
      s.loop.Taken? && (At(s.heap, s.loop.o).state == Running || At(s.heap, s.loop.o).state == Failed)
    case MarkFailed(now) => s.loop.Failing?
    case Snapshot => s.watch == {}
    case Inspect(o, gone, now) => o in s.watch
  }

  function Step(s: WState, e: WEvent): WState {
    match e
    case Accept(o, d) => AcceptTask(s, o, d)
    case StopRequest(id) => RequestStop(s, id)
    case Take => if |s.queue| > 0 then s.(queue := s.queue[1..], loop := Taken(s.queue[0])) else s
    case Start(now, ok, containerID) =>
      if s.loop.Taken? then StartTask(s, s.loop.o, now, ok, containerID) else s
    case BeginStop => if s.loop.Taken? then s.(loop := Stopping(s.loop.o)) else s
    case FinishStop(now, ok) => if s.loop.Stopping? then StopTask(s, s.loop.o, now, ok) else s
    case Reject => if s.loop.Taken? then s.(loop := Failing(At(s.heap, s.loop.o).id)) else s
    case MarkFailed(now) =>
      if s.loop.Failing? then SetTaskState(s, s.loop.id, Failed, now).(loop := Idle) else s
    case Snapshot => s.(watch := RunningTasks(s))
    case Inspect(o, gone, now) =>
      var t := if gone then SetTaskState(s, At(s.heap, o).id, Failed, now) else s;
      t.(watch := t.watch - {o})
  }

  /** The worker after the switch of `runTask`, when nothing comes between its sections. */
  function AfterSwitch(s: WState, now: Time, ok: bool, containerID: string): WState
    requires s.loop.Taken?
  {
    match At(s.heap, s.loop.o).state
    case Pending => Step(s, Start(now, ok, containerID))
    case Scheduled => Step(s, Start(now, ok, containerID))
    case Completed => Step(Step(s, BeginStop), FinishStop(now, ok))
    case _ => Step(s, Reject)
  }

  /** The worker after a whole pass of the run loop. */
  function AfterRun(s: WState, now: Time, ok: bool, containerID: string): WState {
    if |s.queue| == 0 then s
    else
      var u := AfterSwitch(Step(s, Take), now, ok, containerID);
      if u.loop.Failing? then Step(u, MarkFailed(now)) else u
  }
}
