/**
 The worker's mutex: which interleavings of the sections of `WorkerRuns` it admits.

 `runTask` locks the mutex for its switch and unlocks it when it returns; the switch calls `StopTask`,
 which locks the same mutex. Go's mutexes are not reentrant: a thread that locks one it holds waits
 like any other.
 */
module WorkerMutex {
  import opened Tasks
  import opened WorkerState
  import opened WorkerRuns

  /** The goroutines that use the mutex; each request has its own handler. */
  datatype Thread = Loop | Monitor | Handler(request: nat)

  datatype Holder = Nobody | Held(t: Thread)

  /** The worker, who holds its mutex, and whether `StopTask` got it. */
  datatype Locked = Locked(s: WState, holder: Holder, inStopTask: bool)

  datatype LEvent = Lock(t: Thread) | Unlock(t: Thread) | Do(t: Thread, e: WEvent)

  const NEW_LOCKED := Locked(NEW_WORKER, Nobody, false)

  /** Which goroutine does what. */
  predicate DoneBy(t: Thread, e: WEvent) {
    match e
    case Accept(_, _) => t.Handler?
    case StopRequest(_) => t.Handler?
    case Snapshot => t == Monitor
    case Inspect(_, _, _) => t == Monitor
    case _ => t == Loop
  }

  /**
   The handler that accepts a task does not lock. `runTask` does not unlock while it is inside
   `StopTask`, and `StopTask` does its work once it has locked.
   */
  ghost predicate LCan(l: Locked, le: LEvent) {
    match le
    case Lock(t) => l.holder == Nobody
    case Unlock(t) => l.holder == Held(t) && !(t == Loop && l.s.loop.Stopping? && !l.inStopTask)
    case Do(t, e) =>
      && CanStep(l.s, e) && DoneBy(t, e)
      && (!e.Accept? ==> l.holder == Held(t))
      && (e.FinishStop? ==> l.inStopTask)
  }

  function LStep(l: Locked, le: LEvent): Locked {
    match le
    case Lock(t) => l.(holder := Held(t), inStopTask := t == Loop && l.s.loop.Stopping?)
    case Unlock(t) => l.(holder := Nobody, inStopTask := false)
    case Do(t, e) => l.(s := Step(l.s, e))
  }

  ghost predicate LRun(trace: seq<Locked>, events: seq<LEvent>) {
    && |trace| == |events| + 1
    && trace[0] == NEW_LOCKED
    && forall i :: 0 <= i < |events| ==> LCan(trace[i], events[i]) && trace[i + 1] == LStep(trace[i], events[i])
  }

  /** With its locking forgotten, what the mutex admits is a run, so all of `WorkerRuns` applies to it. */
  lemma {:induction false} LockedRunIsRun(trace: seq<Locked>, events: seq<LEvent>, i: nat)
    returns (states: seq<WState>, steps: seq<WEvent>)
    requires LRun(trace, events) && i <= |events|
    ensures Run(states, steps) && states[|steps|] == trace[i].s
  {
    if i == 0 {
      states, steps := [NEW_WORKER], [];
    } else {
      states, steps := LockedRunIsRun(trace, events, i - 1);
      assert LCan(trace[i - 1], events[i - 1]) && trace[i] == LStep(trace[i - 1], events[i - 1]);
      if events[i - 1].Do? {
        states, steps := Extend(states, steps, events[i - 1].e);
      }
    }
  }

  /** While the run loop is stopping a task it holds the mutex that `StopTask` waits for. */
  ghost predicate Wedged(l: Locked) {
    l.holder == Held(Loop) && !l.inStopTask
  }

  lemma {:induction false} StoppingIsWedged(trace: seq<Locked>, events: seq<LEvent>, i: nat)
    requires LRun(trace, events) && i <= |events|
    ensures trace[i].s.loop.Stopping? ==> Wedged(trace[i])
    ensures !trace[i].inStopTask
  {
    if i > 0 {
      StoppingIsWedged(trace, events, i - 1);
      assert LCan(trace[i - 1], events[i - 1]) && trace[i] == LStep(trace[i - 1], events[i - 1]);
    }
  }

  /** No worker ever stops a container: `StopTask` never gets past its first line. */
  lemma NoStopEverFinishes(trace: seq<Locked>, events: seq<LEvent>, i: nat)
    requires LRun(trace, events) && i < |events|
    ensures !(events[i].Do? && events[i].e.FinishStop?)
  {
    StoppingIsWedged(trace, events, i);
    assert LCan(trace[i], events[i]);
  }

  /**
   The first stop that reaches the run loop blocks the worker for good: nobody locks the mutex again,
   and nothing happens but that more tasks are accepted, which stay in the queue.
   */
  lemma {:induction false} StopBlocksWorker(trace: seq<Locked>, events: seq<LEvent>, i: nat, j: nat)
    requires LRun(trace, events) && i <= j <= |events| && trace[i].s.loop.Stopping?
    ensures forall k :: i <= k < j ==> events[k].Do? && events[k].e.Accept?
    ensures trace[j].holder == trace[i].holder == Held(Loop)
    ensures var s, t := trace[i].s, trace[j].s;
            && t.loop == s.loop && t.tasks == s.tasks && t.started == s.started && s.queue <= t.queue
            && forall o :: o in s.heap ==> o in t.heap && t.heap[o] == s.heap[o]
    decreases j
  {
    StoppingIsWedged(trace, events, i);
    if i < j {
      StopBlocksWorker(trace, events, i, j - 1);
      StoppingIsWedged(trace, events, j - 1);
      assert LCan(trace[j - 1], events[j - 1]) && trace[j] == LStep(trace[j - 1], events[j - 1]);
    }
  }

  /** The run loop is blocked in a stop exactly from its first `BeginStop` on. */
  lemma {:induction false} BlockedExactlyAfterBeginStop(trace: seq<Locked>, events: seq<LEvent>, i: nat)
    requires LRun(trace, events) && i <= |events|
    ensures trace[i].s.loop.Stopping? <==> exists k :: 0 <= k < i && events[k] == Do(Loop, BeginStop)
  {
    if i > 0 {
      BlockedExactlyAfterBeginStop(trace, events, i - 1);
      NoStopEverFinishes(trace, events, i - 1);
      assert LCan(trace[i - 1], events[i - 1]) && trace[i] == LStep(trace[i - 1], events[i - 1]);
    }
  }

  lemma LExtend(trace: seq<Locked>, events: seq<LEvent>, le: LEvent)
    returns (trace': seq<Locked>, events': seq<LEvent>)
    requires LRun(trace, events) && LCan(trace[|events|], le)
    ensures LRun(trace', events') && events' == events + [le]
    ensures trace'[|events'|] == LStep(trace[|events|], le)
  {
    trace', events' := trace + [LStep(trace[|events|], le)], events + [le];
  }

  /** One section of a thread: lock, do, unlock. */
  lemma DoSection(trace: seq<Locked>, events: seq<LEvent>, t: Thread, e: WEvent)
    returns (trace': seq<Locked>, events': seq<LEvent>)
    requires LRun(trace, events) && trace[|events|].holder == Nobody && !trace[|events|].inStopTask
    requires CanStep(trace[|events|].s, e) && DoneBy(t, e) && !e.FinishStop? && !e.BeginStop?
    requires !trace[|events|].s.loop.Stopping?
    ensures LRun(trace', events') && events' == events + [Lock(t), Do(t, e), Unlock(t)]
    ensures trace'[|events'|] == trace[|events|].(s := Step(trace[|events|].s, e))
  {
    trace', events' := LExtend(trace, events, Lock(t));
    trace', events' := LExtend(trace', events', Do(t, e));
    trace', events' := LExtend(trace', events', Unlock(t));
  }

  /** From a state in which the one task is running and nothing is queued. */
  lemma StopOne(trace: seq<Locked>, events: seq<LEvent>, o: Task, s: WState, id: Id)
    returns (trace': seq<Locked>, events': seq<LEvent>)
    requires LRun(trace, events) && trace[|events|] == NEW_LOCKED.(s := s)
    requires s.loop == Idle && s.queue == [] && s.tasks == map[id := o]
    ensures LRun(trace', events') && trace'[|events'|].s.loop == Stopping(o)
  {
    trace', events' := DoSection(trace, events, Handler(1), StopRequest(id));
    var t := trace'[|events'|].s;
    assert t.queue == [o] && At(t.heap, o).state == Completed;
    trace', events' := DoSection(trace', events', Loop, Take);
    var u := trace'[|events'|].s;
    assert u.loop == Taken(o) && u.heap == t.heap;
    trace', events' := LExtend(trace', events', Lock(Loop));
    trace', events' := LExtend(trace', events', Do(Loop, BeginStop));
  }

  /** Such a stop is reached: accept, start, a stop request, and the next pass of the run loop. */
  lemma StopIsReached(o: Task, d: TaskData, now: Time) returns (trace: seq<Locked>, events: seq<LEvent>)
    requires d.state == Pending
    ensures LRun(trace, events) && trace[|events|].s.loop == Stopping(o)
  {
    trace, events := [NEW_LOCKED], [];
    trace, events := LExtend(trace, events, Do(Handler(0), Accept(o, d)));
    assert trace[|events|].s == NEW_WORKER.(heap := map[o := d], queue := [o]);
    trace, events := DoSection(trace, events, Loop, Take);
    assert trace[|events|].s == NEW_WORKER.(heap := map[o := d], loop := Taken(o));
    trace, events := DoSection(trace, events, Loop, Start(now, true, "c"));
    var s := NEW_WORKER.(heap := map[o := d.(start := now, containerID := "c", state := Running)],
                         tasks := map[d.id := o], started := [d.id]);
    assert trace[|events|] == NEW_LOCKED.(s := s);
    trace, events := StopOne(trace, events, o, s, d.id);
  }
}
