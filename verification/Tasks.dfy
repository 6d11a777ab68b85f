/**
 Tasks, as the manager and the workers hold them.

 Both processes share a task by pointer between a queue, a map and a list, and write its fields
 through any of those pointers. `Task` is that shared object; `TaskData` is the value of its
 fields (what JSON carries from a worker to the manager); `Heap` is the value of a set of
 objects at one moment, which lets the state of a process be one immutable value in which
 aliasing is still visible.
 */
module Tasks {

  /** A UUID. Only equality of IDs is ever used. */
  type Id = nat

  /** A point in time, in nanoseconds. */
  type Time = int

  /** The address of a worker, `host:port`. */
  type Worker = string

  datatype State = Pending | Scheduled | Running | Completed | Failed

  /** The fields of a task that nothing writes after it was created. */
  datatype TaskSpec = TaskSpec(correlationID: string, name: string, image: string, memory: int, disk: int)

  datatype TaskData = TaskData(
    id: Id, spec: TaskSpec, containerID: string, state: State, start: Time, end: Time)

  /** The zero `time.Time`. */
  const ZERO_TIME: Time := 0

  class Task {
    const id: Id
    const spec: TaskSpec
    var containerID: string
    var state: State
    var startTime: Time
    var endTime: Time

    constructor (d: TaskData)
      ensures Data() == d
    {
      id, spec := d.id, d.spec;
      containerID, state, startTime, endTime := d.containerID, d.state, d.start, d.end;
    }

    function Data(): TaskData
      reads this
    {
      TaskData(id, spec, containerID, state, startTime, endTime)
    }
  }

  type Heap = map<Task, TaskData>

  /** What `At` answers for an object outside the heap; no reachable state asks for one. */
  const NO_TASK := TaskData(0, TaskSpec("", "", "", 0, 0), "", Pending, ZERO_TIME, ZERO_TIME)

  function At(h: Heap, o: Task): TaskData {
    if o in h then h[o] else NO_TASK
  }

  /** The start times of a list of objects, in order. */
  function StartTimes(h: Heap, xs: seq<Task>): seq<Time> {
    seq(|xs|, i requires 0 <= i < |xs| => At(h, xs[i]).start)
  }
}
