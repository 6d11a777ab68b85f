/**
 Runs of one worker: every interleaving of its two handlers, its run loop and its monitor.
 */
module WorkerRuns {
  import opened Tasks
  import opened Queues
  import opened WorkerState

  ghost predicate Run(trace: seq<WState>, events: seq<WEvent>) {
    && |trace| == |events| + 1
    && trace[0] == NEW_WORKER
    && forall i :: 0 <= i < |events| ==> CanStep(trace[i], events[i]) && trace[i + 1] == Step(trace[i], events[i])
  }

  lemma RunGrows(trace: seq<WState>, events: seq<WEvent>, e: WEvent)
    requires Run(trace, events) && CanStep(trace[|events|], e)
    ensures Run(trace + [Step(trace[|events|], e)], events + [e])
  {
  }

  // ---------- The invariant ----------

  /** `TaskIds[k]` is an object of the heap with ID `k`, in one of the three states after a start. */
  ghost predicate Filed(s: WState) {
    forall k :: k in s.tasks ==> s.tasks[k] in s.heap && s.heap[s.tasks[k]].id == k && Live(s.heap[s.tasks[k]].state)
  }

  /** No two objects share an ID. */
  ghost predicate OnePerId(s: WState) {
    forall o, p :: o in s.heap && p in s.heap && s.heap[o].id == s.heap[p].id ==> o == p
  }

  /** What the queue, and the run loop in front of it, hold. */
  function InHand(s: WState): seq<Task> {
    if s.loop.Taken? then [s.loop.o] + s.queue else s.queue
  }

  ghost predicate Waiting(s: WState, o: Task) {
    o in s.heap && s.heap[o].state == Pending && s.heap[o].id !in s.tasks && multiset(InHand(s))[o] == 1
  }

  ghost predicate Known(s: WState, o: Task) {
    o in s.heap && s.heap[o].id in s.tasks && s.tasks[s.heap[o].id] == o
  }

  /** Every object waits, once, for its first start, or is filed in `TaskIds`. */
  ghost predicate Placed(s: WState) {
    forall o :: o in s.heap ==> Waiting(s, o) || Known(s, o)
  }

  /** What the threads hold exists, and what is being stopped or failed is filed. */
  ghost predicate Closed(s: WState) {
    && (forall o :: o in s.queue ==> o in s.heap)
    && (s.loop.Taken? ==> s.loop.o in s.heap)
    && (s.loop.Stopping? ==> Known(s, s.loop.o))
    && (s.loop.Failing? ==> s.loop.id in s.tasks)
    && (forall o :: o in s.watch ==> Known(s, o))
  }

  /** The started IDs are the filed ones, each once. */
  ghost predicate StartedOnce(s: WState) {
    && (forall k :: k in s.tasks <==> k in s.started)
    && (forall i, j :: 0 <= i < j < |s.started| ==> s.started[i] != s.started[j])
  }

  ghost predicate Inv(s: WState) {
    Filed(s) && OnePerId(s) && Placed(s) && Closed(s) && StartedOnce(s)
  }

  lemma WriteKeepsInv(s: WState, o: Task, d: TaskData)
    requires Inv(s) && Known(s, o) && d.id == s.heap[o].id && Live(d.state)
    ensures Inv(s.(heap := s.heap[o := d]))
  {
  }

  lemma SetTaskStateKeepsInv(s: WState, id: Id, st: State, now: Time)
    requires Inv(s) && Live(st)
    ensures Inv(SetTaskState(s, id, st, now))
  {
  }

  lemma AcceptKeepsInv(s: WState, o: Task, d: TaskData)
    requires Inv(s) && CanStep(s, Accept(o, d))
    ensures Inv(AcceptTask(s, o, d))
  {
    var t := AcceptTask(s, o, d);
    assert InHand(t) == InHand(s) + [o];
    assert o !in InHand(s);
    AcceptKeepsPlaced(s, o, d);
    AcceptKeepsOnePerId(s, o, d);
    AcceptKeepsFiled(s, o, d);
  }

  lemma AcceptKeepsOnePerId(s: WState, o: Task, d: TaskData)
    requires OnePerId(s) && forall x :: x in s.heap ==> s.heap[x].id != d.id
    ensures OnePerId(AcceptTask(s, o, d))
  {
  }

  lemma AcceptKeepsFiled(s: WState, o: Task, d: TaskData)
    requires Filed(s) && Closed(s) && o !in s.heap
    ensures Filed(AcceptTask(s, o, d)) && Closed(AcceptTask(s, o, d))
  {
  }

  lemma AcceptKeepsPlaced(s: WState, o: Task, d: TaskData)
    requires Inv(s) && CanStep(s, Accept(o, d)) && o !in InHand(s)
    ensures Placed(AcceptTask(s, o, d))
  {
  }

  lemma EnqueueKeepsInv(s: WState, o: Task)
    requires Inv(s) && Known(s, o)
    ensures Inv(s.(queue := s.queue + [o]))
  {
  }

  lemma TakeKeepsInv(s: WState)
    requires Inv(s) && CanStep(s, Take)
    ensures Inv(Step(s, Take))
  {
    var t := Step(s, Take);
    assert InHand(t) == InHand(s);
    forall p | p in t.heap ensures Waiting(t, p) || Known(t, p) {
      assert Waiting(s, p) || Known(s, p);
    }
  }

  /** The loop lets go of a filed task. */
  lemma LetGoKeepsInv(s: WState, loop: RunLoop)
    requires Inv(s) && s.loop.Taken? && Known(s, s.loop.o)
    requires loop == Idle || loop == Stopping(s.loop.o) || loop == Failing(s.heap[s.loop.o].id)
    ensures Inv(s.(loop := loop))
  {
  }

  /** A start: the waiting task in hand is filed, and its ID enters the started list for the first time. */
  lemma StartKeepsInv(s: WState, e: WEvent)
    requires Inv(s) && e.Start? && CanStep(s, e)
    ensures Inv(Step(s, e))
    ensures s.heap[s.loop.o].id !in s.started
  {
    assert Waiting(s, s.loop.o);
    StartKeepsPlaced(s, e);
    StartKeepsFiled(s, e);
    StartKeepsClosed(s, e);
  }

  lemma StartKeepsFiled(s: WState, e: WEvent)
    requires Inv(s) && e.Start? && CanStep(s, e) && Waiting(s, s.loop.o)
    ensures Filed(Step(s, e)) && OnePerId(Step(s, e)) && StartedOnce(Step(s, e))
  {
  }

  lemma StartKeepsClosed(s: WState, e: WEvent)
    requires Inv(s) && e.Start? && CanStep(s, e) && Waiting(s, s.loop.o)
    ensures Closed(Step(s, e))
  {
  }

  lemma StartKeepsPlaced(s: WState, e: WEvent)
    requires Inv(s) && e.Start? && CanStep(s, e) && Waiting(s, s.loop.o)
    ensures Placed(Step(s, e))
  {
  }

  lemma FinishStopKeepsInv(s: WState, now: Time, ok: bool)
    requires Inv(s) && s.loop.Stopping?
    ensures Inv(StopTask(s, s.loop.o, now, ok))
  {
  }

  lemma MarkFailedKeepsInv(s: WState, now: Time)
    requires Inv(s) && s.loop.Failing?
    ensures Inv(Step(s, MarkFailed(now)))
  {
  }

  lemma WatchKeepsInv(s: WState, watch: set<Task>)
    requires Inv(s) && forall o :: o in watch ==> Known(s, o)
    ensures Inv(s.(watch := watch))
  {
  }

  lemma StepKeepsInv(s: WState, e: WEvent)
    requires Inv(s) && CanStep(s, e)
    ensures Inv(Step(s, e))
  {
    match e
    case Accept(o, d) => AcceptKeepsInv(s, o, d);
    case StopRequest(id) =>
      if id in s.tasks {
        var o := s.tasks[id];
        WriteKeepsInv(s, o, At(s.heap, o).(state := Completed));
        EnqueueKeepsInv(s.(heap := s.heap[o := At(s.heap, o).(state := Completed)]), o);
      }
    case Take => TakeKeepsInv(s);
    case Start(now, ok, containerID) => StartKeepsInv(s, e);
    case BeginStop => LetGoKeepsInv(s, Stopping(s.loop.o));
    case FinishStop(now, ok) => FinishStopKeepsInv(s, now, ok);
    case Reject => LetGoKeepsInv(s, Failing(s.heap[s.loop.o].id));
    case MarkFailed(now) => MarkFailedKeepsInv(s, now);
    case Snapshot => WatchKeepsInv(s, RunningTasks(s));
    case Inspect(o, gone, now) =>
      SetTaskStateKeepsInv(s, At(s.heap, o).id, Failed, now);
      var t := if gone then SetTaskState(s, At(s.heap, o).id, Failed, now) else s;
      WatchKeepsInv(t, t.watch - {o});
  }

  lemma {:induction false} RunKeepsInv(trace: seq<WState>, events: seq<WEvent>, i: nat)
    requires Run(trace, events) && i <= |events|
    ensures Inv(trace[i])
  {
    if i > 0 {
      RunKeepsInv(trace, events, i - 1);
      assert CanStep(trace[i - 1], events[i - 1]);
      StepKeepsInv(trace[i - 1], events[i - 1]);
    }
  }

  // ---------- What every run keeps ----------

  /**
   Over every interleaving a container start is attempted at most once per task ID, and exactly for the
   IDs in `TaskIds`.
   */
  lemma StartedAtMostOnce(trace: seq<WState>, events: seq<WEvent>, i: nat)
    requires Run(trace, events) && i <= |events|
    ensures forall a, b :: 0 <= a < b < |trace[i].started| ==> trace[i].started[a] != trace[i].started[b]
    ensures forall id :: id in trace[i].started <==> id in trace[i].tasks
  {
    RunKeepsInv(trace, events, i);
  }

  /**
   A task in `TaskIds` is Running, Completed or Failed; any other is Pending, not in `TaskIds`, and in
   one place only: once in the queue, or once in the run loop's hand.
   */
  lemma TasksAreLiveOrWaiting(trace: seq<WState>, events: seq<WEvent>, i: nat, o: Task)
    requires Run(trace, events) && i <= |events| && o in trace[i].heap
    ensures var s, d := trace[i], trace[i].heap[o];
            if d.id in s.tasks then s.tasks[d.id] == o && Live(d.state)
            else d.state == Pending && multiset(InHand(s))[o] == 1
  {
    RunKeepsInv(trace, events, i);
    var s := trace[i];
    assert Waiting(s, o) || Known(s, o);
  }

  // ---------- What a step writes ----------

  /** The steps that make a filed task Completed: a stop request for it, and the end of its stop. */
  predicate Completes(s: WState, e: WEvent, o: Task) {
    (e.StopRequest? && e.id == At(s.heap, o).id) || (e.FinishStop? && s.loop == Stopping(o))
  }

  /** The steps that make a filed task Failed: an error recorded for it, and a monitor that misses its container. */
  predicate Fails(s: WState, e: WEvent, o: Task) {
    (e.MarkFailed? && s.loop == Failing(At(s.heap, o).id)) || (e.Inspect? && e.o == o && e.gone)
  }

  function StateAfter(s: WState, e: WEvent, o: Task): State {
    if Completes(s, e, o) then Completed else if Fails(s, e, o) then Failed else At(s.heap, o).state
  }

  /** The end time after the step: of these steps all but the stop request set it, and no other does. */
  function EndAfter(s: WState, e: WEvent, o: Task): Time {
    if (Completes(s, e, o) && !e.StopRequest?) || Fails(s, e, o) then e.now else At(s.heap, o).end
  }

  /** What a write by ID does to a filed object. */
  lemma WriteReaches(s: WState, id: Id, st: State, now: Time, o: Task)
    requires Inv(s) && Known(s, o)
    ensures var d := At(s.heap, o);
            At(SetTaskState(s, id, st, now).heap, o) == if id == d.id then d.(state := st, end := now) else d
    ensures SetTaskState(s, id, st, now).tasks == s.tasks && o in SetTaskState(s, id, st, now).heap
  {
  }

  /**
   All that a step writes to a filed task: its state and end time, at the steps named above. Its ID, spec,
   container and start time never change again, and it stays filed.
   */
  lemma FiledTaskAfter(s: WState, e: WEvent, o: Task)
    requires Inv(s) && CanStep(s, e) && Known(s, o)
    ensures Known(Step(s, e), o)
    ensures At(Step(s, e).heap, o) == s.heap[o].(state := StateAfter(s, e, o), end := EndAfter(s, e, o))
  {
    if e.MarkFailed? {
      WriteReaches(s, s.loop.id, Failed, e.now, o);
    } else if e.Inspect? {
      WriteReaches(s, s.heap[e.o].id, Failed, e.now, o);
    } else if e.StopRequest? {
      assert e.id in s.tasks && s.tasks[e.id] == o <==> e.id == s.heap[o].id;
    } else if e.Start? {
      assert Waiting(s, s.loop.o);
    } else {
      OtherTaskAfter(s, e, o);
    }
  }

  lemma OtherTaskAfter(s: WState, e: WEvent, o: Task)
    requires Inv(s) && CanStep(s, e) && Known(s, o)
    requires !e.MarkFailed? && !e.Inspect? && !e.StopRequest? && !e.Start?
    ensures Known(Step(s, e), o)
    ensures At(Step(s, e).heap, o) == s.heap[o].(state := StateAfter(s, e, o), end := EndAfter(s, e, o))
  {
  }

  /** A task that waits is written by its start only. */
  lemma WaitingTaskAfter(s: WState, e: WEvent, o: Task)
    requires Inv(s) && CanStep(s, e) && o in s.heap && !Known(s, o) && !(e.Start? && s.loop == Taken(o))
    ensures At(Step(s, e).heap, o) == s.heap[o]
  {
    match e
    case Accept(p, d) =>
    case StopRequest(id) => assert id in s.tasks ==> Known(s, s.tasks[id]);
    case Start(now, ok, containerID) =>
    case FinishStop(now, ok) => assert Known(s, s.loop.o);
    case MarkFailed(now) => assert Known(s, s.tasks[s.loop.id]);
    case Inspect(p, gone, now) => assert Known(s, p);
    case Take =>
    case BeginStop =>
    case Reject =>
    case Snapshot =>
  }

  /** No task ever returns to Pending or Scheduled, and a started task keeps its ID, spec, container and start time. */
  lemma {:induction false} StartedTasksStayLive(trace: seq<WState>, events: seq<WEvent>, i: nat, j: nat, o: Task)
    requires Run(trace, events) && i <= j <= |events|
    requires o in trace[i].heap && trace[i].heap[o].state != Pending
    ensures o in trace[j].heap && Live(trace[j].heap[o].state) && Known(trace[j], o)
    ensures var before, after := trace[i].heap[o], trace[j].heap[o];
            after == before.(state := after.state, end := after.end)
    decreases j
  {
    if i == j {
      RunKeepsInv(trace, events, i);
      assert Waiting(trace[i], o) || Known(trace[i], o);
    } else {
      StartedTasksStayLive(trace, events, i, j - 1, o);
      RunKeepsInv(trace, events, j - 1);
      assert CanStep(trace[j - 1], events[j - 1]);
      FiledTaskAfter(trace[j - 1], events[j - 1], o);
    }
  }

  /** The task the loop took, when the pass is over. */
  lemma PassEnds(s: WState, now: Time, ok: bool, containerID: string)
    requires s.loop.Idle? && |s.queue| > 0 && s.queue[0] in s.heap && OnePerId(s)
    requires Waiting(s, s.queue[0]) || (Known(s, s.queue[0]) && Live(s.heap[s.queue[0]].state))
    ensures var o := s.queue[0];
            var d, t := s.heap[o], AfterRun(s, now, ok, containerID);
            && t.loop == Idle && t.queue == s.queue[1..] && o in t.heap && t.tasks == s.tasks[d.id := o]
            && t.started == (if d.state == Pending then s.started + [d.id] else s.started)
            && t.heap[o] == match d.state
                            case Pending =>
                              if ok then d.(start := now, containerID := containerID, state := Running)
                              else d.(start := now, state := Failed, end := now)
                            case Completed => d.(end := now, state := if ok then Completed else Failed)
                            case _ => d.(end := now, state := Failed)
  {
    var u := Step(s, Take);
    match s.heap[s.queue[0]].state
    case Pending => assert AfterSwitch(u, now, ok, containerID) == StartTask(u, s.queue[0], now, ok, containerID);
    case Completed =>
      assert AfterSwitch(u, now, ok, containerID) == StopTask(Step(u, BeginStop), s.queue[0], now, ok);
    case Running =>
    case Failed =>
  }

  /**
   How a whole pass of the run loop leaves the task it took: a waiting task is running in the container
   it got, or failed; a completed one is completed again, or failed if its container would not stop; any
   other is failed without a look at its container.
   */
  lemma PassOutcome(s: WState, now: Time, ok: bool, containerID: string)
    requires Inv(s) && s.loop.Idle? && |s.queue| > 0
    ensures var o, t := s.queue[0], AfterRun(s, now, ok, containerID);
            var before, after := At(s.heap, o), At(t.heap, o);
            && t.loop == Idle && t.queue == s.queue[1..] && Known(t, o)
            && (before.state == Pending ==> after.start == now && t.started == s.started + [before.id])
            && (before.state != Pending ==> after.start == before.start && t.started == s.started)
            && (before.state == Pending && ok ==> after.state == Running && after.containerID == containerID)
            && (before.state == Completed && ok ==> after.state == Completed && after.end == now)
            && (!ok || before.state == Running || before.state == Failed ==> after.state == Failed && after.end == now)
  {
    var o := s.queue[0];
    assert o in s.queue;
    assert Waiting(s, o) || Known(s, o);
    PassEnds(s, now, ok, containerID);
  }

  // ---------- Completed and Failed ----------

  /**
   Completed and Failed are not final, and each only ever turns into the other: exactly the steps of
   `Completes` turn Failed into Completed, and exactly those of `Fails` turn Completed into Failed.
   */
  lemma EndStateChangesExactly(s: WState, e: WEvent, o: Task)
    requires Inv(s) && CanStep(s, e) && o in s.heap
    requires s.heap[o].state == Completed || s.heap[o].state == Failed
    ensures var before, after := s.heap[o].state, At(Step(s, e).heap, o).state;
            && (before == Failed ==> (after != before <==> Completes(s, e, o)))
            && (before == Completed ==> (after != before <==> Fails(s, e, o)))
            && (after == Completed || after == Failed)
  {
    assert Waiting(s, o) || Known(s, o);
    FiledTaskAfter(s, e, o);
    assert !(Completes(s, e, o) && Fails(s, e, o));
  }

  /** One more event of a run. */
  lemma Extend(trace: seq<WState>, events: seq<WEvent>, e: WEvent) returns (trace': seq<WState>, events': seq<WEvent>)
    requires Run(trace, events) && CanStep(trace[|events|], e)
    ensures Run(trace', events') && events' == events + [e] && trace <= trace'
    ensures trace'[|events'|] == Step(trace[|events|], e)
  {
    RunGrows(trace, events, e);
    trace', events' := trace + [Step(trace[|events|], e)], events + [e];
  }

  /** A run that accepts one task and attempts its start. */
  lemma StartOne(o: Task, d: TaskData, now: Time, ok: bool, containerID: string)
    returns (trace: seq<WState>, events: seq<WEvent>)
    requires d.state == Pending
    ensures Run(trace, events) && events == [Accept(o, d), Take, Start(now, ok, containerID)]
    ensures var s := trace[3];
            && s.heap.Keys == {o} && s.tasks == map[d.id := o] && s.queue == [] && s.watch == {}
            && s.loop == (if ok then Idle else Failing(d.id))
            && s.heap[o].id == d.id && s.heap[o].state == (if ok then Running else Failed)
            && s.heap[o].start == now && s.heap[o].end == d.end
  {
    trace, events := [NEW_WORKER], [];
    trace, events := Extend(trace, events, Accept(o, d));
    assert trace[1].queue == [o];
    trace, events := Extend(trace, events, Take);
    trace, events := Extend(trace, events, Start(now, ok, containerID));
  }

  /** A run in which a completed task fails: stopped between the monitor's listing and its look at the container. */
  lemma CompletedTurnsFailed(o: Task, d: TaskData, now: Time) returns (trace: seq<WState>, events: seq<WEvent>)
    requires d.state == Pending
    ensures Run(trace, events) && |events| == 6
    ensures events[3..] == [Snapshot, StopRequest(d.id), Inspect(o, true, now)]
    ensures o in trace[5].heap && trace[5].heap[o].state == Completed
    ensures o in trace[6].heap && trace[6].heap[o].state == Failed
  {
    trace, events := StartOne(o, d, now, true, "c");
    trace, events := Extend(trace, events, Snapshot);
    assert trace[3].tasks[d.id] == o && o in trace[4].watch;
    trace, events := Extend(trace, events, StopRequest(d.id));
    trace, events := Extend(trace, events, Inspect(o, true, now));
  }

  /** A run in which a failed task is completed: a stop request for a task whose start failed. */
  lemma FailedTurnsCompleted(o: Task, d: TaskData, now: Time) returns (trace: seq<WState>, events: seq<WEvent>)
    requires d.state == Pending
    ensures Run(trace, events) && |events| == 5
    ensures events[3..] == [MarkFailed(now), StopRequest(d.id)]
    ensures o in trace[4].heap && trace[4].heap[o].state == Failed
    ensures o in trace[5].heap && trace[5].heap[o].state == Completed
  {
    trace, events := StartOne(o, d, now, false, "");
    trace, events := Extend(trace, events, MarkFailed(now));
    trace, events := Extend(trace, events, StopRequest(d.id));
  }

  // ---------- Stops ----------

  /** The task is completed or being stopped. */
  predicate Ending(s: WState, o: Task) {
    At(s.heap, o).state == Completed || s.loop == Stopping(o)
  }

  lemma EndingNeedsRequest(s: WState, e: WEvent, o: Task)
    requires Inv(s) && CanStep(s, e) && o in Step(s, e).heap && Ending(Step(s, e), o)
    ensures o in s.heap && At(Step(s, e).heap, o).id == s.heap[o].id
    ensures Ending(s, o) || e == StopRequest(s.heap[o].id)
  {
    match e
    case Accept(p, d) =>
    case StopRequest(id) => assert id in s.tasks ==> s.heap[s.tasks[id]].id == id;
    case Start(now, ok, containerID) => assert s.loop.o in s.heap;
    case FinishStop(now, ok) => assert Known(s, s.loop.o);
    case MarkFailed(now) =>
    case Inspect(p, gone, now) =>
    case _ => assert Step(s, e).heap == s.heap;
  }

  /**
   Only a stop request at the worker itself can make it stop a task: whenever the run loop begins to
   stop one, a stop request for that task's ID reached this worker before. The posts of a manager are
   never such a request, whatever state they carry, since accepting resets the task to Pending.
   */
  lemma {:induction false} StopNeedsRequest(trace: seq<WState>, events: seq<WEvent>, i: nat, o: Task) returns (k: nat)
    requires Run(trace, events) && i <= |events| && o in trace[i].heap && Ending(trace[i], o)
    ensures k < i && events[k] == StopRequest(trace[i].heap[o].id)
  {
    assert i > 0;
    k := i - 1;
    RunKeepsInv(trace, events, k);
    assert CanStep(trace[k], events[k]);
    EndingNeedsRequest(trace[k], events[k], o);
    if events[k] != StopRequest(trace[i].heap[o].id) {
      k := StopNeedsRequest(trace, events, k, o);
    }
  }

  lemma BeginStopNeedsRequest(trace: seq<WState>, events: seq<WEvent>, i: nat) returns (k: nat)
    requires Run(trace, events) && i < |events| && events[i].BeginStop?
    ensures trace[i].loop.Taken? && trace[i].loop.o in trace[i].heap
    ensures k < i && events[k] == StopRequest(trace[i].heap[trace[i].loop.o].id)
  {
    RunKeepsInv(trace, events, i);
    assert CanStep(trace[i], events[i]);
    k := StopNeedsRequest(trace, events, i, trace[i].loop.o);
  }

  // ---------- The monitor ----------

  /** The monitor lists exactly the filed tasks that are Running. */
  lemma SnapshotListsExactlyRunning(s: WState, o: Task)
    ensures o in Step(s, Snapshot).watch
       <==> exists id :: id in s.tasks && s.tasks[id] == o && At(s.heap, o).state == Running
  {
  }

  lemma StepKeepsWatch(s: WState, e: WEvent, o: Task)
    requires e != Snapshot && o in Step(s, e).watch
    ensures o in s.watch && !(e.Inspect? && e.o == o)
  {
  }

  /**
   Over every run, what the monitor inspects was filed and Running when it last made its list, and it has
   not inspected it since.
   */
  lemma {:induction false} WatchedWasRunning(trace: seq<WState>, events: seq<WEvent>, i: nat, o: Task)
    returns (k: nat)
    requires Run(trace, events) && i <= |events| && o in trace[i].watch
    ensures k < i && events[k] == Snapshot && Known(trace[k], o) && trace[k].heap[o].state == Running
    ensures forall n :: k < n < i ==> events[n] != Snapshot && !(events[n].Inspect? && events[n].o == o)
  {
    assert i > 0;
    k := i - 1;
    assert CanStep(trace[k], events[k]) && trace[i] == Step(trace[k], events[k]);
    if events[k] == Snapshot {
      RunKeepsInv(trace, events, k);
      SnapshotListsExactlyRunning(trace[k], o);
    } else {
      StepKeepsWatch(trace[k], events[k], o);
      k := WatchedWasRunning(trace, events, i - 1, o);
    }
  }

  lemma InspectedWasRunning(trace: seq<WState>, events: seq<WEvent>, i: nat) returns (k: nat)
    requires Run(trace, events) && i < |events| && events[i].Inspect?
    ensures k < i && events[k] == Snapshot
    ensures Known(trace[k], events[i].o) && trace[k].heap[events[i].o].state == Running
    ensures forall n :: k < n < i ==> events[n] != Snapshot && !(events[n].Inspect? && events[n].o == events[i].o)
  {
    assert CanStep(trace[i], events[i]);
    k := WatchedWasRunning(trace, events, i, events[i].o);
  }

  // ---------- The queue ----------

  /** What an event queues: an accepted task, or a filed one whose stop was requested. */
  function Queued(s: WState, e: WEvent): seq<Task> {
    if e.Accept? then [e.o]
    else if e.StopRequest? && e.id in s.tasks then [s.tasks[e.id]]
    else []
  }

  /** The task the run loop took. */
  function TakenBy(e: WEvent, s': WState): seq<Task> {
    if e.Take? && s'.loop.Taken? then [s'.loop.o] else []
  }

  /** A step takes at most the first task of the queue away, and adds what it queues at the end. */
  lemma StepMovesQueue(s: WState, e: WEvent)
    requires CanStep(s, e)
    ensures Moves(s.queue, TakenBy(e, Step(s, e)), Queued(s, e), Step(s, e).queue)
  {
  }

  /** What each event before moment `i` queued. */
  function QueuedBefore(trace: seq<WState>, events: seq<WEvent>, i: nat): seq<seq<Task>>
    requires |trace| == |events| + 1 && i <= |events|
  {
    seq(i, k requires 0 <= k < i => Queued(trace[k], events[k]))
  }

  /** What the run loop took at each event before moment `i`. */
  function TakenBefore(trace: seq<WState>, events: seq<WEvent>, i: nat): seq<seq<Task>>
    requires |trace| == |events| + 1 && i <= |events|
  {
    seq(i, k requires 0 <= k < i => TakenBy(events[k], trace[k + 1]))
  }

  /**
   The worker's queue is first in, first out over every run: the tasks its loop took so far, followed by
   those still queued, are the tasks ever queued, in the order in which they were queued.
   */
  lemma QueueIsFirstInFirstOut(trace: seq<WState>, events: seq<WEvent>, i: nat)
    requires Run(trace, events) && i <= |events|
    ensures Flat(TakenBefore(trace, events, i)) + trace[i].queue == Flat(QueuedBefore(trace, events, i))
  {
    var queues := seq(i + 1, k requires 0 <= k <= i => trace[k].queue);
    var taken, queued := TakenBefore(trace, events, i), QueuedBefore(trace, events, i);
    forall k | 0 <= k < i ensures Moves(queues[k], taken[k], queued[k], queues[k + 1]) {
      assert CanStep(trace[k], events[k]);
      StepMovesQueue(trace[k], events[k]);
    }
    MovesAddUp(queues, taken, queued);
  }
}
