/**
 A worker, as the object whose handlers, run loop and monitor update its fields and its shared task
 objects in place. Each method is one lock-protected section, proved to do what the function of
 `WorkerState` says.
 */
module WorkerService {
  import opened Tasks
  import S = WorkerState

  class Worker {
    var queue: seq<Task>
    var taskIds: map<Id, Task>

    /** The task objects made so far, the run loop's and the monitor's locals, and the start attempts. */
    ghost var tasks: set<Task>
    ghost var loop: S.RunLoop
    ghost var watch: set<Task>
    ghost var started: seq<Id>

    ghost function Heap(): Heap
      reads this, tasks
    {
      map t | t in tasks :: t.Data()
    }

    ghost function Abs(): S.WState
      reads this, tasks
    {
      S.WState(Heap(), queue, taskIds, loop, watch, started)
    }

    ghost predicate Valid()
      reads this, tasks
    {
      && (forall t :: t in queue ==> t in tasks)
      && (forall id :: id in taskIds ==> taskIds[id] in tasks && taskIds[id].id == id)
      && (loop.Taken? || loop.Stopping? ==> loop.o in tasks)
      && (forall t :: t in watch ==> t in tasks)
    }

    constructor ()
      ensures Valid() && tasks == {} && Abs() == S.NEW_WORKER
    {
      queue, taskIds := [], map[];
      tasks, loop, watch, started := {}, S.Idle, {}, [];
      new;
      assert Heap() == map[];
    }

    /** `StartTaskHandler`: whatever ID, state and start time the request carried are replaced. */
    method AcceptTask(te: TaskData, newId: Id, now: Time) returns (t: Task)
      requires Valid()
      modifies this
      ensures Valid() && fresh(t) && tasks == old(tasks) + {t}
      ensures Abs() == S.Step(old(Abs()), S.Accept(t, te.(id := newId, state := Pending, start := now)))
    {
      t := new Task(te.(id := newId, state := Pending, start := now));
      assert t !in tasks;
      tasks := tasks + {t};
      queue := queue + [t];
      assert Heap() == old(Heap())[t := t.Data()];
    }

    /** `StopTaskHandler`; answers whether the worker has the task. */
    method RequestStop(id: Id) returns (found: bool)
      requires Valid()
      modifies this`queue, tasks
      ensures Valid() && (found <==> id in taskIds)
      ensures Abs() == S.Step(old(Abs()), S.StopRequest(id))
    {
      found := id in taskIds;
      if found {
        var t := taskIds[id];
        t.state := Completed;
        queue := queue + [t];
        assert Heap() == old(Heap())[t := At(old(Heap()), t).(state := Completed)];
      }
    }

    /** The first section of `runTask`. */
    method TakeTask() returns (t: Task)
      requires Valid() && loop.Idle? && |queue| > 0
      modifies this
      ensures Valid() && tasks == old(tasks) && t == old(queue)[0] && loop == S.Taken(t)
      ensures Abs() == S.Step(old(Abs()), S.Take)
    {
      t := queue[0];
      queue := queue[1..];
      loop := S.Taken(t);
      assert Heap() == old(Heap());
    }

    /** The second section of `runTask` for a task to start; `ok` and `containerID` are Docker's answer. */
    method StartTask(t: Task, now: Time, ok: bool, containerID: string)
      requires Valid() && loop == S.Taken(t) && (t.state == Pending || t.state == Scheduled)
      modifies this, t
      ensures Valid() && tasks == old(tasks)
      ensures Abs() == S.Step(old(Abs()), S.Start(now, ok, containerID))
    {
      if t.state == Pending {
        t.state := Scheduled;
      }
      assert Heap() == old(Heap())[t := t.Data()];
      RecordStart(t, now, ok, containerID);
    }

    /** `StartTask`: the fields it writes and the map entry it makes, with or without an error. */
    method RecordStart(t: Task, now: Time, ok: bool, containerID: string)
      requires Valid() && t in tasks
      modifies this, t
      ensures Valid() && tasks == old(tasks)
      ensures Abs() == S.StartTask(old(Abs()), t, now, ok, containerID)
    {
      t.startTime := now;
      started := started + [t.id];
      if ok {
        t.containerID := containerID;
        t.state := Running;
      } else {
        t.state := Failed;
      }
      taskIds := taskIds[t.id := t];
      loop := if ok then S.Idle else S.Failing(t.id);
      assert Heap() == old(Heap())[t := t.Data()];
    }

    /** `StopTask`, once it has the mutex. */
    method StopTask(t: Task, now: Time, ok: bool)
      requires Valid() && loop == S.Stopping(t)
      modifies this, t
      ensures Valid() && tasks == old(tasks)
      ensures Abs() == S.Step(old(Abs()), S.FinishStop(now, ok))
    {
      t.endTime := now;
      t.state := Completed;
      taskIds := taskIds[t.id := t];
      loop := if ok then S.Idle else S.Failing(t.id);
      assert Heap() == old(Heap())[t := t.Data()];
    }

    /** `updateTaskState`. */
    method UpdateTaskState(id: Id, newState: State, now: Time)
      requires Valid()
      modifies tasks
      ensures Valid()
      ensures Abs() == S.SetTaskState(old(Abs()), id, newState, now)
    {
      if id in taskIds {
        var t := taskIds[id];
        t.state := newState;
        t.endTime := now;
        assert Heap() == old(Heap())[t := t.Data()];
      }
    }

    /** The locked scan of `MonitorTasks`: the running tasks, each once, in whatever order the map has. */
    method RunningTasks() returns (list: seq<Task>)
      requires Valid()
      modifies this`watch
      ensures Valid() && (set t | t in list) == watch && |list| == |watch|
      ensures Abs() == S.Step(old(Abs()), S.Snapshot)
    {
      list := [];
      var todo := taskIds.Keys;
      ghost var seen: set<Task> := {};
      while todo != {}
        invariant todo <= taskIds.Keys
        invariant seen == set id | id in taskIds && id !in todo && taskIds[id].state == Running :: taskIds[id]
        invariant (set t | t in list) == seen && |list| == |seen|
        decreases todo
      {
        var id :| id in todo;
        todo := todo - {id};
        if taskIds[id].state == Running {
          assert taskIds[id] !in seen;
          list := list + [taskIds[id]];
          seen := seen + {taskIds[id]};
        }
      }
      watch := seen;
      assert watch == S.RunningTasks(old(Abs()));
      assert Heap() == old(Heap());
    }

    /** One pass of the `RunTasks` loop with no other section in between. */
    method RunOnce(now: Time, ok: bool, containerID: string)
      requires Valid() && loop.Idle?
      modifies this, tasks
      ensures Valid() && tasks == old(tasks)
      ensures Abs() == S.AfterRun(old(Abs()), now, ok, containerID)
    {
      if |queue| == 0 {
        return;
      }
      var t := TakeTask();
      var failed := HandleTask(t, now, ok, containerID);
      if failed {
        UpdateTaskState(t.id, Failed, now);
        SetLoop(S.Idle);
      }
    }

    /** The switch of `runTask` on the state of the task it took; answers whether an error came back. */
    method HandleTask(t: Task, now: Time, ok: bool, containerID: string) returns (failed: bool)
      requires Valid() && loop == S.Taken(t)
      modifies this, t
      ensures Valid() && tasks == old(tasks)
      ensures Abs() == S.AfterSwitch(old(Abs()), now, ok, containerID)
      ensures loop == if failed then S.Failing(t.id) else S.Idle
    {
      failed := !ok;
      match t.state {
        case Pending => StartTask(t, now, ok, containerID);
        case Scheduled => StartTask(t, now, ok, containerID);
        case Completed =>
          SetLoop(S.Stopping(t));
          StopTask(t, now, ok);
        case _ =>
          SetLoop(S.Failing(t.id));
          failed := true;
      }
    }

    /** The run loop moves on without writing anything shared. */
    ghost method SetLoop(l: S.RunLoop)
      requires Valid() && (l.Taken? || l.Stopping? ==> l.o in tasks)
      modifies this`loop
      ensures Valid() && Abs() == old(Abs()).(loop := l)
    {
      loop := l;
      assert Heap() == old(Heap());
    }

    /** The body of the monitor's loop for one listed task. */
    method InspectTask(t: Task, gone: bool, now: Time)
      requires Valid() && t in watch
      modifies this`watch, tasks
      ensures Valid()
      ensures Abs() == S.Step(old(Abs()), S.Inspect(t, gone, now))
    {
      if gone {
        UpdateTaskState(t.id, Failed, now);
      }
      watch := watch - {t};
      assert Heap() == if gone then S.SetTaskState(old(Abs()), t.id, Failed, now).heap else old(Heap());
    }
  }
}
