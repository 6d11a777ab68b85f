/**
 The manager, as the object whose methods update its fields in place. Each method is one
 lock-protected section, or the loop inside one, and is proved to do to the fields and to the shared
 task objects what the function of `ManagerState` says.
 */
module ManagerService {
  import opened Tasks
  import opened SortedList
  import opened Health
  import opened Selection
  import S = ManagerState
  import opened Reconcile
  import C = Cleanup
  import M = ManagerRuns

  /** The manager after a whole `SendWork` with no other section in between. */
  function AfterSend(s: S.MState, eventId: Id, now: Time, answer: M.Answer): S.MState {
    var g := M.Next(M.Next(Selecting(s), M.SendMark), M.SendReadState);
    M.Next(M.Next(g, M.SendReadTask(eventId, now)), M.SendAnswer(answer)).s
  }

  /** The send events up to the choice of a worker. */
  function Selecting(s: S.MState): M.Manager {
    var g := M.Next(M.Manager(s, M.Idle, multiset{}, {}, {}, {}), M.SendDequeue);
    M.Next(M.Next(M.Next(g, M.SendReadHealthy), M.SendReadReady), M.SendPick)
  }

  lemma SelectingCases(s: S.MState)
    requires |s.queue| > 0
    ensures var g, c := Selecting(s), Select(s.workers, s.health, s.health, s.last);
            && g.s == s.(queue := s.queue[1..], last := if c.Chosen? then c.last else s.last)
            && g.sending == if c.Chosen? then M.Chose(s.queue[0], c.worker) else M.Idle
  {
  }

  lemma AfterSendCases(s: S.MState, eventId: Id, now: Time, answer: M.Answer)
    requires |s.queue| > 0
    ensures var t, o := s.(queue := s.queue[1..]), s.queue[0];
            var c, h := Select(s.workers, s.health, s.health, s.last), S.SetState(s.heap, o, Scheduled);
            AfterSend(s, eventId, now, answer)
            == if c.NoWorker? then t
               else
                 var u := t.(last := c.last, heap := h);
                 match answer
                 case Accepted => S.Commit(u, o, c.worker, S.TaskEvent(eventId, Scheduled, now, At(h, o)))
                 case Retry => S.AddTask(u, o)
                 case Undecodable => u
  {
    SelectingCases(s);
    var g := Selecting(s);
    if g.sending.Chose? {
      var h := M.Next(M.Next(g, M.SendMark), M.SendReadState);
      assert h.sending == M.Stated(s.queue[0], g.sending.w, Scheduled);
    }
  }

  class Manager {
    var pendingTasks: seq<Task>
    var taskDb: map<Id, Task>
    var sortedTasks: seq<Task>
    var eventDb: map<Id, S.TaskEvent>
    const workers: seq<Worker>
    var workersTaskMap: map<Worker, seq<Id>>
    var workerHealth: map<Worker, bool>
    var workerState: map<Worker, WorkerState>
    var workerHealthCheckFailures: map<Worker, int>
    var taskWorkerMap: map<Id, Worker>
    var lastWorker: nat

    /** The task objects made so far. */
    ghost var tasks: set<Task>

    ghost function Heap(): Heap
      reads this, tasks
    {
      map t | t in tasks :: t.Data()
    }

    function Checks(): Record
      reads this
    {
      Record(workerHealth, workerState, workerHealthCheckFailures)
    }

    /** The whole state, as a value. */
    ghost function Abs(): S.MState
      reads this, tasks
    {
      S.MState(Heap(), pendingTasks, taskDb, sortedTasks, eventDb, workers, workersTaskMap, taskWorkerMap,
               Checks(), lastWorker)
    }

    ghost predicate Valid()
      reads this, tasks
    {
      && (forall t :: t in pendingTasks ==> t in tasks)
      && (forall t :: t in sortedTasks ==> t in tasks)
      && (forall id :: id in taskDb ==> taskDb[id] in tasks && taskDb[id].id == id)
    }

    constructor New(workers: seq<Worker>)
      ensures Valid() && tasks == {}
      ensures Abs() == S.New(workers)
    {
      var lists, up, state, failures := NewMaps(workers);
      this.workers := workers;
      pendingTasks, taskDb, sortedTasks, eventDb, taskWorkerMap, lastWorker := [], map[], [], map[], map[], 0;
      tasks := {};
      workersTaskMap, workerHealth, workerState, workerHealthCheckFailures := lists, up, state, failures;
      new;
      assert Heap() == map[];
    }

    static method NewMaps(workers: seq<Worker>)
      returns (lists: map<Worker, seq<Id>>, up: map<Worker, bool>,
               state: map<Worker, WorkerState>, failures: map<Worker, int>)
      ensures lists == S.New(workers).workerTasks
      ensures Record(up, state, failures) == Health.Initial(workers)
    {
      lists, up, state, failures := map[], map[], map[], map[];
      for i := 0 to |workers|
        invariant lists == map w | w in workers[..i] :: []
        invariant up == map w | w in workers[..i] :: false
        invariant state == map w | w in workers[..i] :: Ready
        invariant failures == map w | w in workers[..i] :: 0
      {
        assert workers[..i + 1] == workers[..i] + [workers[i]];
        lists := lists[workers[i] := []];
        up := up[workers[i] := false];
        state := state[workers[i] := Ready];
        failures := failures[workers[i] := 0];
      }
      assert workers[..|workers|] == workers;
    }

    // ---------- The sorted list ----------

    method FindTaskInSortedList(id: Id) returns (index: int)
      requires Valid()
      ensures index == FindTask(Heap(), sortedTasks, id)
    {
      for i := 0 to |sortedTasks|
        invariant forall j :: 0 <= j < i ==> At(Heap(), sortedTasks[j]).id != id
      {
        if sortedTasks[i].id == id {
          return i;
        }
      }
      return -1;
    }

    /** `sort.Search` for the first task that starts after `newTask`. */
    method SearchPosition(list: seq<Task>, newTask: Task) returns (index: nat)
      requires newTask in tasks && forall t :: t in list ==> t in tasks
      ensures index == Position(Heap(), list, newTask)
    {
      var n := |list|;
      ghost var keys, k := StartTimes(Heap(), list), newTask.startTime;
      var lo, hi := 0, n;
      while lo < hi
        invariant 0 <= lo <= hi <= n
        invariant Search(keys, k, lo, hi) == Search(keys, k, 0, n)
      {
        var mid := (lo + hi) / 2;
        assert list[mid] in list;
        if list[mid].startTime > newTask.startTime {
          hi := mid;
        } else {
          lo := mid + 1;
        }
      }
      index := lo;
    }

    /** Grows the slice by one slot, shifts the tail into it, and writes the new task. */
    static method ShiftIn(list: seq<Task>, index: nat, newTask: Task) returns (r: seq<Task>)
      requires index <= |list|
      ensures r == InsertAt(list, index, newTask)
    {
      var n := |list|;
      var slice := new Task[n + 1](i requires 0 <= i <= n => if i < n then list[i] else newTask);
      for i := n downto index
        invariant slice[..i] == list[..i]
        invariant slice[i + 1..] == list[i..]
      {
        slice[i + 1] := slice[i];
      }
      slice[index] := newTask;
      r := slice[..];
    }

    method InsertSorted(list: seq<Task>, newTask: Task) returns (r: seq<Task>)
      requires newTask in tasks && forall t :: t in list ==> t in tasks
      ensures r == Insert(Heap(), list, newTask)
      ensures forall t :: t in r ==> t in tasks
    {
      var index := SearchPosition(list, newTask);
      r := ShiftIn(list, index, newTask);
    }

    /** The list part of `AddTask`: replace the entry with this ID, or insert one. */
    method EnlistTask(t: Task)
      requires Valid() && t in tasks
      modifies this`sortedTasks
      ensures Valid() && Abs() == old(Abs()).(sorted := Enlist(old(Heap()), old(sortedTasks), t))
    {
      var existingIndex := FindTaskInSortedList(t.id);
      if existingIndex >= 0 {
        sortedTasks := sortedTasks[existingIndex := t];
      } else {
        sortedTasks := InsertSorted(sortedTasks, t);
      }
      assert Heap() == old(Heap());
    }

    method AddTask(t: Task)
      requires Valid() && t in tasks
      modifies this
      ensures Valid() && tasks == old(tasks)
      ensures Abs() == S.AddTask(old(Abs()), t)
    {
      pendingTasks := pendingTasks + [t];
      taskDb := taskDb[t.id := t];
      assert Heap() == old(Heap());
      EnlistTask(t);
    }

    /** `StartTaskHandler`: a new task object, then `AddTask`. */
    method StartTask(id: Id, spec: TaskSpec, now: Time) returns (t: Task)
      requires Valid()
      modifies this
      ensures Valid() && t !in old(tasks) && tasks == old(tasks) + {t}
      ensures Abs() == S.Submit(old(Abs()), t, TaskData(id, spec, "", Pending, now, ZERO_TIME))
    {
      t := new Task(TaskData(id, spec, "", Pending, now, ZERO_TIME));
      assert t !in tasks;
      ghost var before := Abs();
      tasks := tasks + {t};
      assert Heap() == old(Heap())[t := t.Data()];
      assert Abs() == before.(heap := before.heap[t := t.Data()]);
      AddTask(t);
    }

    /** The locked section of `StopTaskHandler`, and whether it found the task. */
    method MarkStopped(id: Id) returns (t: Task?)
      requires Valid()
      modifies tasks
      ensures Valid()
      ensures t == null <==> id !in taskDb
      ensures t == null ==> Abs() == old(Abs())
      ensures t != null ==> t == taskDb[id] && Abs() == S.MarkStopped(old(Abs()), id)
    {
      if id !in taskDb {
        return null;
      }
      t := taskDb[id];
      t.state := Completed;
      assert Heap() == S.SetState(old(Heap()), t, Completed);
    }

    // ---------- Health ----------

    method MarkWorkerDown(w: Worker)
      modifies this
      ensures Abs() == old(Abs()).(health := Checks()) && tasks == old(tasks)
      ensures Checks() == old(Checks()).MarkDown(w)
    {
      workerHealth := workerHealth[w := false];
      var n := (if w in workerHealthCheckFailures then workerHealthCheckFailures[w] else 0) + 1;
      workerHealthCheckFailures := workerHealthCheckFailures[w := n];
      if n > 5 {
        workerState := workerState[w := Unhealthy];
      }
      assert Heap() == old(Heap());
    }

    method MarkWorkerUp(w: Worker)
      modifies this
      ensures Abs() == old(Abs()).(health := Checks()) && tasks == old(tasks)
      ensures Checks() == old(Checks()).MarkUp(w)
    {
      workerHealth := workerHealth[w := true];
      workerHealthCheckFailures := workerHealthCheckFailures[w := 0];
      workerState := workerState[w := Ready];
      assert Heap() == old(Heap());
    }

    // ---------- Selection ----------

    method GetHealthyWorkers() returns (healthy: seq<Worker>)
      ensures healthy == HealthyWorkers(workers, Checks())
    {
      healthy := [];
      for i := 0 to |workers|
        invariant healthy == HealthyWorkers(workers[..i], Checks())
      {
        assert workers[..i + 1][..i] == workers[..i];
        if workers[i] in workerHealth && workerHealth[workers[i]] {
          healthy := healthy + [workers[i]];
        }
      }
      assert workers[..|workers|] == workers;
    }

    method GetReadyWorkers() returns (ready: seq<Worker>)
      ensures ready == ReadyWorkers(workers, Checks())
    {
      ready := [];
      for i := 0 to |workers|
        invariant ready == ReadyWorkers(workers[..i], Checks())
      {
        assert workers[..i + 1][..i] == workers[..i];
        if workers[i] !in workerState || workerState[workers[i]] == Ready {
          ready := ready + [workers[i]];
        }
      }
      assert workers[..|workers|] == workers;
    }

    static method WorkersInBoth(a: seq<Worker>, b: seq<Worker>) returns (both: seq<Worker>)
      ensures both == InBoth(a, b)
    {
      var members: set<Worker> := {};
      for i := 0 to |a|
        invariant members == set w | w in a[..i]
      {
        members := members + {a[i]};
      }
      assert a[..|a|] == a;
      both := [];
      for i := 0 to |b|
        invariant both == InBoth(a, b[..i])
      {
        assert b[..i + 1][..i] == b[..i];
        if b[i] in members {
          both := both + [b[i]];
        }
      }
      assert b[..|b|] == b;
    }

    /** The last locked section of `SelectWorker`. */
    method PickWorker(list: seq<Worker>) returns (w: Worker)
      requires |list| > 0
      modifies this`lastWorker
      ensures Chosen(w, lastWorker) == PickFrom(list, old(lastWorker))
      ensures Abs() == old(Abs()).(last := lastWorker)
    {
      lastWorker := (lastWorker + 1) % |list|;
      w := list[lastWorker];
      assert Heap() == old(Heap());
    }

    /** `SelectWorker` when nothing comes between its sections; `ManagerRuns` covers the rest. */
    method SelectWorker() returns (c: Choice)
      modifies this`lastWorker
      ensures c == Select(workers, old(Checks()), old(Checks()), old(lastWorker))
      ensures Abs() == if c.Chosen? then old(Abs()).(last := c.last) else old(Abs())
    {
      if |workers| == 0 {
        return NoWorker;
      }
      var healthy := GetHealthyWorkers();
      if |healthy| == 0 {
        return NoWorker;
      }
      var ready := GetReadyWorkers();
      if |ready| == 0 {
        return NoWorker;
      }
      var schedulable := WorkersInBoth(healthy, ready);
      if |schedulable| == 0 {
        return NoWorker;
      }
      var w := PickWorker(schedulable);
      c := Chosen(w, lastWorker);
    }

    // ---------- Sending ----------

    method Dequeue() returns (t: Task)
      requires Valid() && |pendingTasks| > 0
      modifies this`pendingTasks
      ensures Valid() && t in tasks
      ensures t == old(pendingTasks)[0] && Abs() == old(Abs()).(queue := old(pendingTasks)[1..])
    {
      t := pendingTasks[0];
      pendingTasks := pendingTasks[1..];
      assert Heap() == old(Heap());
    }

    /** The unlocked write of the state, and the event made from the task after it. */
    method Schedule(t: Task, eventId: Id, now: Time) returns (te: S.TaskEvent)
      requires Valid() && t in tasks
      modifies t`state
      ensures Valid()
      ensures Abs() == old(Abs()).(heap := S.SetState(old(Heap()), t, Scheduled))
      ensures te == S.TaskEvent(eventId, Scheduled, now, At(Heap(), t))
    {
      t.state := Scheduled;
      te := S.TaskEvent(eventId, t.state, now, t.Data());
      assert Heap() == S.SetState(old(Heap()), t, Scheduled);
    }

    method CommitSend(t: Task, w: Worker, te: S.TaskEvent)
      requires Valid() && t in tasks
      modifies this
      ensures Valid() && tasks == old(tasks)
      ensures Abs() == S.Commit(old(Abs()), t, w, te)
    {
      eventDb := eventDb[t.id := te];
      workersTaskMap := workersTaskMap[w := (if w in workersTaskMap then workersTaskMap[w] else []) + [t.id]];
      taskWorkerMap := taskWorkerMap[t.id := w];
      taskDb := taskDb[t.id := t];
      assert Heap() == old(Heap());
    }

    /** `SendWork` when nothing comes between its sections: the eight send events of `ManagerRuns` in a row. */
    method SendWork(eventId: Id, now: Time, answer: M.Answer)
      requires Valid()
      modifies this, tasks
      ensures Valid() && tasks == old(tasks)
      ensures Abs() == AfterSend(old(Abs()), eventId, now, answer)
    {
      if |pendingTasks| == 0 {
        return;
      }
      AfterSendCases(Abs(), eventId, now, answer);
      var t := Dequeue();
      var c := SelectWorker();
      if c.NoWorker? {
        return;
      }
      var te := Schedule(t, eventId, now);
      match answer
      case Accepted => CommitSend(t, c.worker, te);
      case Retry => AddTask(t);
      case Undecodable =>
    }

    // ---------- Reports ----------

    /** A task the manager knows. */
    method RefreshTask(managerTask: Task, workerTask: TaskData)
      requires Valid() && managerTask in tasks
      modifies managerTask
      ensures Valid()
      ensures Abs() == old(Abs()).(heap := S.Refresh(old(Heap()), managerTask, workerTask))
    {
      if managerTask.state != workerTask.state {
        managerTask.state := workerTask.state;
        managerTask.containerID := workerTask.containerID;
        managerTask.startTime := workerTask.start;
        managerTask.endTime := workerTask.end;
      }
      assert Heap() == S.Refresh(old(Heap()), managerTask, workerTask);
    }

    /** A copy of a reported task, filed in the task map and the owner map. */
    method FileCopy(work: Worker, workerTask: TaskData) returns (taskCopy: Task)
      requires Valid()
      modifies this
      ensures Valid() && fresh(taskCopy) && tasks == old(tasks) + {taskCopy}
      ensures var s := old(Abs());
              Abs() == s.(heap := s.heap[taskCopy := workerTask],
                          db := s.db[workerTask.id := taskCopy],
                          owner := s.owner[workerTask.id := work])
    {
      taskCopy := new Task(workerTask);
      assert taskCopy !in tasks;
      tasks := tasks + {taskCopy};
      taskDb := taskDb[workerTask.id := taskCopy];
      taskWorkerMap := taskWorkerMap[workerTask.id := work];
      assert Heap() == old(Heap())[taskCopy := workerTask];
    }

    /** A task the manager does not know: a copy of it is added to the maps and the sorted list. */
    method AdoptTask(work: Worker, workerTask: TaskData) returns (taskCopy: Task)
      requires Valid() && workerTask.id !in taskDb
      modifies this
      ensures Valid() && fresh(taskCopy) && tasks == old(tasks) + {taskCopy}
      ensures Abs() == S.Adopt(old(Abs()), work, workerTask, taskCopy)
    {
      taskCopy := FileCopy(work, workerTask);
      InsertTask(taskCopy);
      ListOnce(work, workerTask.id);
    }

    method InsertTask(t: Task)
      requires Valid() && t in tasks
      modifies this`sortedTasks
      ensures Valid() && Abs() == old(Abs()).(sorted := Insert(old(Heap()), old(sortedTasks), t))
    {
      sortedTasks := InsertSorted(sortedTasks, t);
      assert Heap() == old(Heap());
    }

    /** Appends the ID to the worker's list if a scan does not find it there. */
    method ListOnce(work: Worker, id: Id)
      modifies this`workersTaskMap
      ensures Abs() == old(Abs()).(workerTasks := workersTaskMap)
      ensures workersTaskMap == old(workersTaskMap)[work := S.AddIfMissing(S.TasksOf(old(Abs()), work), id)]
    {
      var listed := if work in workersTaskMap then workersTaskMap[work] else [];
      var found := false;
      for i := 0 to |listed|
        invariant !found && id !in listed[..i]
      {
        if listed[i] == id {
          found := true;
          break;
        }
      }
      if !found {
        assert listed[..|listed|] == listed;
        workersTaskMap := workersTaskMap[work := listed + [id]];
      }
      assert Heap() == old(Heap());
    }

    /** One decoded task: `o` is the copy made of it, or, if the manager knows its ID, the decoder's object. */
    method MergeTask(work: Worker, workerTask: TaskData) returns (ghost o: Task)
      requires Valid()
      modifies this, tasks
      ensures Valid() && old(tasks) <= tasks && fresh(tasks - old(tasks)) && fresh(o)
      ensures Abs() == S.MergeOne(old(Abs()), work, workerTask, o)
    {
      var decoded := new Task(workerTask);
      if workerTask.id in taskDb {
        o := decoded;
        RefreshTask(taskDb[workerTask.id], workerTask);
      } else {
        o := AdoptTask(work, decoded.Data());
      }
    }

    /** The locked section of a reconcile goroutine. */
    method MergeReport(work: Worker, report: seq<TaskData>) returns (ghost objs: seq<Task>)
      requires Valid()
      modifies this, tasks
      ensures Valid() && old(tasks) <= tasks && fresh(tasks - old(tasks))
      ensures |objs| == |report| && S.NewObjects(old(Heap()), objs)
      ensures Abs() == S.Merge(old(Abs()), work, report, objs)
    {
      objs := [];
      for i := 0 to |report|
        invariant Valid() && old(tasks) <= tasks && fresh(tasks - old(tasks))
        invariant S.NewObjects(old(Heap()), objs)
        invariant |objs| == i && Abs() == S.Merge(old(Abs()), work, report[..i], objs)
      {
        ghost var o := MergeTask(work, report[i]);
        assert report[..i + 1][..i] == report[..i] && (objs + [o])[..i] == objs;
        objs := objs + [o];
      }
      assert report[..|report|] == report;
    }

    // ---------- Cleanup ----------

    /** Takes the ID out of its owner's list, where a scan finds it, and out of the maps. */
    method RemoveTask(id: Id)
      requires Valid()
      modifies this
      ensures Valid() && tasks == old(tasks)
      ensures Abs() == S.CleanOne(old(Abs()), id)
    {
      if id in taskWorkerMap {
        var worker := taskWorkerMap[id];
        var taskIDs := if worker in workersTaskMap then workersTaskMap[worker] else [];
        for i := 0 to |taskIDs|
          invariant id !in taskIDs[..i]
          invariant Abs() == old(Abs()) && Valid() && tasks == old(tasks)
        {
          if taskIDs[i] == id {
            C.RemoveFirstAt(taskIDs, id, i);
            workersTaskMap := workersTaskMap[worker := taskIDs[..i] + taskIDs[i + 1..]];
            break;
          }
        }
        assert taskIDs[..|taskIDs|] == taskIDs;
        taskWorkerMap := taskWorkerMap - {id};
      }
      eventDb := eventDb - {id};
      taskDb := taskDb - {id};
      assert Heap() == old(Heap());
    }

    /** The loop over `TaskDb`, in whatever order the map yields its keys. */
    method CleanUpTasks(now: Time)
      requires Valid()
      modifies this
      ensures Valid() && tasks == old(tasks)
      ensures Abs() == S.CleanUp(old(Abs()), now)
    {
      var cutoff := now - S.RETENTION;
      ghost var s := Abs();
      ghost var done: set<Id> := {};
      var todo := taskDb.Keys;
      C.CleanNothing(s);
      while todo != {}
        invariant Valid() && tasks == old(tasks)
        invariant done !! todo && todo <= s.db.Keys
        invariant done == set id | id in s.db && id !in todo && S.Expired(s, id, cutoff)
        invariant Abs() == S.Clean(s, done)
        decreases todo
      {
        var id :| id in todo;
        var t := taskDb[id];
        if t.state == Completed && t.startTime < cutoff {
          C.CleanStep(s, done, id);
          RemoveTask(id);
          done := done + {id};
        }
        todo := todo - {id};
      }
      assert done == S.Victims(s, cutoff);
    }
  }
}
