/**
 Sends over whole runs of the manager: what an accepted send leaves behind, which sends find no worker,
 what state a post carries, and how the sends are shared out among the workers.
 */
module Sends {
  import opened Tasks
  import opened Queues
  import opened SortedList
  import opened Health
  import opened Selection
  import opened ManagerState
  import opened Reconcile
  import opened Coherence
  import opened ManagerRuns
  import C = Cleanup

  // ---------- The pending queue ----------

  /** What an event queues: a new task, a stopped one, or one whose send failed. */
  function Queued(g: Manager, e: Event): seq<Task> {
    if e.SubmitTask? || e.StopEnqueue? then [e.o]
    else if g.sending.Posted? && e == SendAnswer(Retry) then [g.sending.o]
    else []
  }

  /** The task a send took from the queue. */
  function Taken(e: Event, g': Manager): seq<Task> {
    if e.SendDequeue? && g'.sending.Dequeued? then [g'.sending.o] else []
  }

  /** A step takes at most the first task of the queue away, and adds what it queues at the end. */
  lemma StepMovesQueue(g: Manager, e: Event)
    requires Enabled(g, e)
    ensures Moves(g.s.queue, Taken(e, Next(g, e)), Queued(g, e), Next(g, e).s.queue)
  {
    if Quiet(e) {
      QuietStep(g, e);
    } else if Writes(e) || e.CleanUpTasks? {
      assert Next(g, e).s.queue == g.s.queue;
    } else if e.MergeReport? {
      MergeKeepsObjects(g.s, e.w, e.report, e.objs);
    }
  }

  /** What each event before moment `i` queued. */
  function QueuedBefore(trace: seq<Manager>, events: seq<Event>, i: nat): seq<seq<Task>>
    requires |trace| == |events| + 1 && i <= |events|
  {
    seq(i, k requires 0 <= k < i => Queued(trace[k], events[k]))
  }

  /** What a send took at each event before moment `i`. */
  function TakenBefore(trace: seq<Manager>, events: seq<Event>, i: nat): seq<seq<Task>>
    requires |trace| == |events| + 1 && i <= |events|
  {
    seq(i, k requires 0 <= k < i => Taken(events[k], trace[k + 1]))
  }

  /**
   The pending queue is first in, first out over every run: the tasks that sends took so far, followed by
   those still pending, are the tasks ever queued, in the order in which they were queued.
   */
  lemma PendingIsFirstInFirstOut(workers: seq<Worker>, trace: seq<Manager>, events: seq<Event>, i: nat)
    requires Run(workers, trace, events) && i <= |events|
    ensures Flat(TakenBefore(trace, events, i)) + trace[i].s.queue == Flat(QueuedBefore(trace, events, i))
  {
    var queues := seq(i + 1, k requires 0 <= k <= i => trace[k].s.queue);
    var taken, queued := TakenBefore(trace, events, i), QueuedBefore(trace, events, i);
    forall k | 0 <= k < i ensures Moves(queues[k], taken[k], queued[k], queues[k + 1]) {
      assert Enabled(trace[k], events[k]);
      StepMovesQueue(trace[k], events[k]);
    }
    MovesAddUp(queues, taken, queued);
  }

  /** In particular the k-th task taken is the k-th task queued. */
  lemma KthTakenIsKthQueued(workers: seq<Worker>, trace: seq<Manager>, events: seq<Event>, i: nat, k: nat)
    requires Run(workers, trace, events) && i <= |events| && k < |Flat(TakenBefore(trace, events, i))|
    ensures k < |Flat(QueuedBefore(trace, events, i))|
    ensures Flat(TakenBefore(trace, events, i))[k] == Flat(QueuedBefore(trace, events, i))[k]
  {
    PendingIsFirstInFirstOut(workers, trace, events, i);
    assert (Flat(TakenBefore(trace, events, i)) + trace[i].s.queue)[k] == Flat(TakenBefore(trace, events, i))[k];
  }

  lemma AddTaskFiles(s: MState, o: Task)
    ensures var t, id := AddTask(s, o), At(s.heap, o).id;
            && id in t.db && t.db[id] == o && o in t.sorted
            && (forall k :: k in s.db && k != id ==> k in t.db && t.db[k] == s.db[k])
  {
    EnlistDisplacesAtMostSameId(s.heap, s.sorted, o);
  }

  /** An addition also files its task under its ID and puts it into the list. */
  lemma AdditionIsFiled(g: Manager, e: Event, o: Task)
    requires Enabled(g, e) && o in Queued(g, e)
    ensures var s, id := Next(g, e).s, IdOf(Next(g, e), o);
            && id in s.db && s.db[id] == o && o in s.sorted
            && (forall k :: k in g.s.db && k != id ==> k in s.db && s.db[k] == g.s.db[k])
  {
    if e.SubmitTask? {
      AddTaskFiles(g.s.(heap := g.s.heap[o := e.d]), o);
    } else {
      AddTaskFiles(g.s, o);
      assert Next(g, e).s == AddTask(g.s, o);
    }
  }

  // ---------- What an accepted send leaves behind ----------

  /** Merges leave events, health and `lastWorker` alone, and only append to the lists of the workers. */
  lemma {:induction false} MergeKeepsRecords(s: MState, w: Worker, report: seq<TaskData>, objs: seq<Task>)
    requires |objs| == |report|
    ensures var m := Merge(s, w, report, objs);
            && m.events == s.events && m.health == s.health && m.last == s.last
            && forall v :: TasksOf(s, v) <= TasksOf(m, v)
  {
    var n := |report|;
    if n > 0 {
      MergeKeepsRecords(s, w, report[..n - 1], objs[..n - 1]);
    }
  }

  /** An ID stays assigned, with its event and in the list of a worker that has it, but for cleanup. */
  ghost predicate OnRecord(s: MState, id: Id, w: Worker) {
    id in s.events && id in s.owner && id in TasksOf(s, w)
  }

  lemma CleanUpKeepsOnRecord(s: MState, now: Time, id: Id, w: Worker)
    requires OnRecord(s, id, w) && !C.IsOldAndCompleted(s, id, now)
    ensures OnRecord(CleanUp(s, now), id, w)
  {
    C.RemoveFirstsMembers(TasksOf(s, w), OwnedBy(s, Victims(s, now - RETENTION), w), id);
  }

  lemma MergeKeepsOnRecord(s: MState, v: Worker, report: seq<TaskData>, objs: seq<Task>, id: Id, w: Worker)
    requires OnRecord(s, id, w) && |objs| == |report|
    ensures OnRecord(Merge(s, v, report, objs), id, w)
  {
    MergeKeepsRecords(s, v, report, objs);
    MergeKeepsObjects(s, v, report, objs);
  }

  lemma CommitKeepsOnRecord(s: MState, o: Task, v: Worker, te: TaskEvent, id: Id, w: Worker)
    requires OnRecord(s, id, w)
    ensures OnRecord(Commit(s, o, v, te), id, w)
  {
  }

  lemma StepKeepsOnRecord(g: Manager, e: Event, id: Id, w: Worker)
    requires Sound(g) && Enabled(g, e) && OnRecord(g.s, id, w)
    requires e.CleanUpTasks? ==> !C.IsOldAndCompleted(g.s, id, e.now)
    ensures OnRecord(Next(g, e).s, id, w)
  {
    if e.MergeReport? {
      MergeKeepsOnRecord(g.s, e.w, e.report, e.objs, id, w);
    } else if e.CleanUpTasks? {
      CleanUpKeepsOnRecord(g.s, e.now, id, w);
      assert Next(g, e).s == CleanUp(g.s, e.now);
    } else if e == SendAnswer(Accepted) {
      CommitKeepsOnRecord(g.s, g.sending.o, g.sending.w, g.sending.te, id, w);
      assert Next(g, e).s == Commit(g.s, g.sending.o, g.sending.w, g.sending.te);
    } else {
      RecordsUnchanged(g, e);
    }
  }

  /** Most steps touch neither events nor owners nor the lists of the workers. */
  lemma RecordsUnchanged(g: Manager, e: Event)
    requires e != SendAnswer(Accepted) && !e.MergeReport? && !e.CleanUpTasks?
    ensures var s, s' := g.s, Next(g, e).s;
            s'.events == s.events && s'.owner == s.owner && s'.workerTasks == s.workerTasks
  {
    if Quiet(e) {
      QuietStep(g, e);
    } else if !Writes(e) {
      AdditionKeepsRecords(g, e);
    }
  }

  lemma AdditionKeepsRecords(g: Manager, e: Event)
    requires e.SubmitTask? || e.StopEnqueue? || (e.SendAnswer? && e.answer != Accepted)
    ensures var s, s' := g.s, Next(g, e).s;
            s'.events == s.events && s'.owner == s.owner && s'.workerTasks == s.workerTasks
  {
    if e.SubmitTask? {
      assert Next(g, e).s == Submit(g.s, e.o, e.d);
    } else if e.StopEnqueue? {
      assert Next(g, e).s == AddTask(g.s, e.o);
    } else {
      assert Next(g, e).s == g.s || Next(g, e).s == AddTask(g.s, g.sending.o);
    }
  }

  /** No cleanup between two moments finds the task completed and expired. */
  ghost predicate Spared(trace: seq<Manager>, events: seq<Event>, i: nat, j: nat, id: Id)
    requires |trace| == |events| + 1 && j <= |events|
  {
    forall k :: i <= k < j && events[k].CleanUpTasks? ==> !C.IsOldAndCompleted(trace[k].s, id, events[k].now)
  }

  lemma StepKeepsOnRecordAt(
      workers: seq<Worker>, trace: seq<Manager>, events: seq<Event>, k: nat, id: Id, w: Worker)
    requires Run(workers, trace, events) && k < |events| && OnRecord(trace[k].s, id, w)
    requires events[k].CleanUpTasks? ==> !C.IsOldAndCompleted(trace[k].s, id, events[k].now)
    ensures OnRecord(trace[k + 1].s, id, w)
  {
    RunIsSound(workers, trace, events, k);
    assert Enabled(trace[k], events[k]);
    StepKeepsOnRecord(trace[k], events[k], id, w);
  }

  lemma {:induction false} OnRecordGoesOn(trace: seq<Manager>, i: nat, j: nat, id: Id, w: Worker)
    requires i <= j < |trace| && OnRecord(trace[i].s, id, w)
    requires forall k :: i <= k < j && OnRecord(trace[k].s, id, w) ==> OnRecord(trace[k + 1].s, id, w)
    ensures OnRecord(trace[j].s, id, w)
    decreases j
  {
    if i < j {
      OnRecordGoesOn(trace, i, j - 1, id, w);
    }
  }

  lemma StaysOnRecord(
      workers: seq<Worker>, trace: seq<Manager>, events: seq<Event>, i: nat, j: nat, id: Id, w: Worker)
    requires Run(workers, trace, events) && i <= j <= |events|
    requires OnRecord(trace[i].s, id, w) && Spared(trace, events, i, j, id)
    ensures OnRecord(trace[j].s, id, w)
  {
    forall k | i <= k < j && OnRecord(trace[k].s, id, w) ensures OnRecord(trace[k + 1].s, id, w) {
      StepKeepsOnRecordAt(workers, trace, events, k, id, w);
    }
    OnRecordGoesOn(trace, i, j, id, w);
  }

  lemma AcceptedIsOnRecord(g: Manager)
    requires g.sending.Posted?
    ensures OnRecord(Next(g, SendAnswer(Accepted)).s, IdOf(g, g.sending.o), g.sending.w)
  {
  }

  lemma SendWaits(g: Manager, e: Event)
    requires Enabled(g, e) && g.sending.Posted? && !e.SendAnswer?
    ensures Next(g, e).sending == g.sending
  {
  }

  lemma {:induction false} PostWaits(workers: seq<Worker>, trace: seq<Manager>, events: seq<Event>, i: nat, j: nat)
    requires Run(workers, trace, events) && i < j <= |events| && events[i].SendReadTask?
    requires forall k :: i < k < j ==> !events[k].SendAnswer?
    ensures trace[i].sending.Stated?
    ensures var sent := trace[i].sending;
            var te := TaskEvent(events[i].eventId, sent.state, events[i].now, At(trace[i].s.heap, sent.o));
            trace[j].sending == Posted(sent.o, sent.w, te)
    decreases j
  {
    assert Enabled(trace[j - 1], events[j - 1]);
    if j > i + 1 {
      PostWaits(workers, trace, events, i, j - 1);
      SendWaits(trace[j - 1], events[j - 1]);
    }
  }

  lemma AcceptRecords(g: Manager)
    requires g.sending.Posted?
    ensures var s, id := Next(g, SendAnswer(Accepted)).s, IdOf(g, g.sending.o);
            && id in s.events && s.events[id] == g.sending.te && id in s.db && s.db[id] == g.sending.o
            && TasksOf(s, g.sending.w) == TasksOf(g.s, g.sending.w) + [id]
  {
  }

  /**
   What an accepted send puts on record is what was posted: the event with the ID, time and state it was
   built with and the copy of the task made then, filed for the object that was sent.
   */
  lemma RecordIsWhatWasPosted(workers: seq<Worker>, trace: seq<Manager>, events: seq<Event>, i: nat, j: nat)
    requires Run(workers, trace, events) && i < j < |events| && events[i].SendReadTask?
    requires events[j] == SendAnswer(Accepted) && forall k :: i < k < j ==> !events[k].SendAnswer?
    ensures trace[i].sending.Stated?
    ensures var sent, s := trace[i].sending, trace[j + 1].s;
            var copy, id := At(trace[i].s.heap, sent.o), IdOf(trace[j], sent.o);
            && id in s.events && s.events[id] == TaskEvent(events[i].eventId, sent.state, events[i].now, copy)
            && id in s.db && s.db[id] == sent.o
            && TasksOf(s, sent.w) == TasksOf(trace[j].s, sent.w) + [id]
  {
    PostWaits(workers, trace, events, i, j);
    AcceptRecords(trace[j]);
    assert trace[j + 1] == Next(trace[j], events[j]);
  }

  /**
   A send that a worker accepts is on record for good: at every later moment its task is assigned, is in
   that worker's list and has an event, unless a cleanup in between found it completed and expired.
   */
  lemma AcceptedSendStaysOnRecord(
      workers: seq<Worker>, trace: seq<Manager>, events: seq<Event>, i: nat, j: nat, id: Id)
    requires Run(workers, trace, events) && i < j <= |events| && events[i] == SendAnswer(Accepted)
    requires trace[i].sending.Posted? && id == IdOf(trace[i], trace[i].sending.o)
    requires Spared(trace, events, i + 1, j, id)
    ensures OnRecord(trace[j].s, id, trace[i].sending.w)
  {
    AcceptedIsOnRecord(trace[i]);
    assert trace[i + 1] == Next(trace[i], events[i]);
    StaysOnRecord(workers, trace, events, i + 1, j, id, trace[i].sending.w);
  }

  /** Every event on record is of the task it is filed under, and that task is assigned. */
  ghost predicate Recorded(g: Manager) {
    && (forall id :: id in g.s.events ==> id in g.s.owner && g.s.events[id].task.id == id)
    && (g.sending.Posted? ==> g.sending.te.task.id == IdOf(g, g.sending.o))
  }

  lemma StepKeepsRecorded(g: Manager, e: Event)
    requires Sound(g) && Enabled(g, e) && Recorded(g)
    ensures Recorded(Next(g, e))
  {
    StepKeepsPosted(g, e);
    if e.MergeReport? {
      MergeKeepsRecords(g.s, e.w, e.report, e.objs);
      MergeKeepsObjects(g.s, e.w, e.report, e.objs);
    } else if e != SendAnswer(Accepted) && !e.CleanUpTasks? {
      RecordsUnchanged(g, e);
    }
  }

  /** The event being posted is of the task that `SendWork` holds. */
  lemma StepKeepsPosted(g: Manager, e: Event)
    requires Sound(g) && Enabled(g, e)
    requires g.sending.Posted? ==> g.sending.te.task.id == IdOf(g, g.sending.o)
    ensures var g' := Next(g, e); g'.sending.Posted? ==> g'.sending.te.task.id == IdOf(g', g'.sending.o)
  {
    if g.sending.Posted? {
      StepKeepsIds(g, e, g.sending.o);
    }
  }

  /** In every reachable state each event on record is of the task it is filed under, and that task is assigned. */
  lemma {:induction false} RecordedTasksAreAssigned(
      workers: seq<Worker>, trace: seq<Manager>, events: seq<Event>, i: nat)
    requires Run(workers, trace, events) && i <= |events|
    ensures Recorded(trace[i])
  {
    if i > 0 {
      RecordedTasksAreAssigned(workers, trace, events, i - 1);
      RunIsSound(workers, trace, events, i - 1);
      assert Enabled(trace[i - 1], events[i - 1]) && trace[i] == Next(trace[i - 1], events[i - 1]);
      StepKeepsRecorded(trace[i - 1], events[i - 1]);
    }
  }

  // ---------- The workers' lists as the inverse of the owner map ----------

  /** If the worker's list has the ID, the worker owns it and the list has it once. */
  ghost predicate ListsOwn(s: MState, w: Worker, id: Id) {
    id in TasksOf(s, w) ==> id in s.owner && s.owner[id] == w && multiset(TasksOf(s, w))[id] == 1
  }

  /** With `Coherent`, this makes the workers' lists the inverse of the owner map. */
  ghost predicate Inverse(s: MState) {
    forall w, id :: ListsOwn(s, w, id)
  }

  /** A send is accepted for a task that is assigned already. */
  predicate Resends(g: Manager, e: Event) {
    g.sending.Posted? && e == SendAnswer(Accepted) && IdOf(g, g.sending.o) in g.s.owner
  }

  lemma SameListsKeepInverse(s: MState, t: MState)
    requires s.owner == t.owner && s.workerTasks == t.workerTasks
    ensures Inverse(s) <==> Inverse(t)
  {
    assert forall w, id :: ListsOwn(s, w, id) <==> ListsOwn(t, w, id);
  }

  lemma CommitInverts(s: MState, o: Task, w: Worker, te: TaskEvent)
    requires Coherent(s) && Inverse(s) && o in s.heap
    ensures Inverse(Commit(s, o, w, te)) <==> s.heap[o].id !in s.owner
  {
    var id, t := s.heap[o].id, Commit(s, o, w, te);
    if id in s.owner {
      var v := s.owner[id];
      assert ListsOwn(s, v, id) && id in TasksOf(s, v);
      assert !ListsOwn(t, v, id);
    } else {
      forall v, k ensures ListsOwn(t, v, k) {
        assert ListsOwn(s, v, k) && ListsOwn(s, v, id);
      }
    }
  }

  lemma AdoptKeepsInverse(s: MState, w: Worker, e: TaskData, o: Task)
    requires Coherent(s) && Inverse(s) && e.id !in s.db
    ensures Inverse(Adopt(s, w, e, o))
  {
    forall v, k ensures ListsOwn(Adopt(s, w, e, o), v, k) {
      assert ListsOwn(s, v, k) && ListsOwn(s, v, e.id);
    }
  }

  lemma {:induction false} MergeKeepsInverse(s: MState, w: Worker, report: seq<TaskData>, objs: seq<Task>)
    requires Coherent(s) && Inverse(s) && w in s.workers && |objs| == |report| && NewObjects(s.heap, objs)
    ensures Inverse(Merge(s, w, report, objs))
  {
    var n := |report|;
    if n > 0 {
      var m, e := Merge(s, w, report[..n - 1], objs[..n - 1]), report[n - 1];
      MergeKeepsInverse(s, w, report[..n - 1], objs[..n - 1]);
      MergeKeepsCoherent(s, w, report[..n - 1], objs[..n - 1]);
      if e.id in m.db {
        SameListsKeepInverse(m, MergeOne(m, w, e, objs[n - 1]));
      } else {
        AdoptKeepsInverse(m, w, e, objs[n - 1]);
      }
    }
  }

  lemma CleanKeepsInverse(s: MState, ids: set<Id>)
    requires Inverse(s)
    ensures Inverse(Clean(s, ids))
  {
    forall w, id ensures ListsOwn(Clean(s, ids), w, id) {
      assert ListsOwn(s, w, id);
      CleanKeepsListsOwn(s, ids, w, id);
    }
  }

  lemma CleanKeepsListsOwn(s: MState, ids: set<Id>, w: Worker, id: Id)
    requires ListsOwn(s, w, id)
    ensures ListsOwn(Clean(s, ids), w, id)
  {
    C.RemoveFirstsLosesOneEach(TasksOf(s, w), OwnedBy(s, ids, w), id);
    var list: seq<Id> := TasksOf(Clean(s, ids), w);
    assert id in list <==> multiset(list)[id] > 0;
    assert id in TasksOf(s, w) <==> multiset(TasksOf(s, w))[id] > 0;
  }

  /** A step breaks the correspondence exactly when it records a send of a task that is assigned already. */
  lemma InverseBreaksExactlyByResend(g: Manager, e: Event)
    requires Sound(g) && Enabled(g, e) && Inverse(g.s)
    ensures Inverse(Next(g, e).s) <==> !Resends(g, e)
  {
    if e == SendAnswer(Accepted) {
      CommitInverts(g.s, g.sending.o, g.sending.w, g.sending.te);
    } else if e.MergeReport? {
      MergeKeepsInverse(g.s, e.w, e.report, e.objs);
    } else if e.CleanUpTasks? {
      CleanKeepsInverse(g.s, Victims(g.s, e.now - RETENTION));
      assert Next(g, e).s == CleanUp(g.s, e.now);
    } else {
      RecordsUnchanged(g, e);
      SameListsKeepInverse(g.s, Next(g, e).s);
    }
  }

  ghost predicate InverseUpTo(trace: seq<Manager>, i: nat)
    requires i < |trace|
  {
    forall j :: 0 <= j <= i ==> Inverse(trace[j].s)
  }

  ghost predicate NoResendBefore(trace: seq<Manager>, events: seq<Event>, i: nat)
    requires |trace| == |events| + 1 && i <= |events|
  {
    forall j :: 0 <= j < i ==> !Resends(trace[j], events[j])
  }

  /**
   Over a run: the workers' lists are the inverse of the owner map all the way to moment `i` exactly when
   no send before it was accepted for a task assigned at that time.
   */
  lemma {:induction false} InverseUntilResend(workers: seq<Worker>, trace: seq<Manager>, events: seq<Event>, i: nat)
    requires Run(workers, trace, events) && i <= |events|
    ensures InverseUpTo(trace, i) <==> NoResendBefore(trace, events, i)
  {
    if i == 0 {
      NewIsInverse(workers);
    } else {
      InverseUntilResend(workers, trace, events, i - 1);
      InverseStepAt(workers, trace, events, i - 1);
      assert InverseUpTo(trace, i) <==> InverseUpTo(trace, i - 1) && Inverse(trace[i].s);
    }
  }

  lemma NewIsInverse(workers: seq<Worker>)
    ensures Inverse(New(workers))
  {
    assert forall w, id :: ListsOwn(New(workers), w, id);
  }

  lemma InverseStepAt(workers: seq<Worker>, trace: seq<Manager>, events: seq<Event>, k: nat)
    requires Run(workers, trace, events) && k < |events|
    ensures Inverse(trace[k].s) ==> (Inverse(trace[k + 1].s) <==> !Resends(trace[k], events[k]))
  {
    RunIsSound(workers, trace, events, k);
    assert Enabled(trace[k], events[k]);
    if Inverse(trace[k].s) {
      InverseBreaksExactlyByResend(trace[k], events[k]);
    }
  }

  // ---------- Which sends find no worker ----------

  /** The health checks among the events. */
  function ChecksOf(events: seq<Event>): seq<Check> {
    if |events| == 0 then []
    else
      var e := events[|events| - 1];
      ChecksOf(events[..|events| - 1]) + (if e.HealthCheck? then [e.check] else [])
  }

  /** The results of a worker's checks before moment `i`. */
  function ResultsBefore(events: seq<Event>, i: nat, w: Worker): seq<bool>
    requires i <= |events|
  {
    ResultsOf(ChecksOf(events[..i]), w)
  }

  predicate LastUp(results: seq<bool>) {
    |results| > 0 && results[|results| - 1]
  }

  predicate LastSixDown(results: seq<bool>) {
    |results| >= 6 && forall i :: |results| - 6 <= i < |results| ==> !results[i]
  }

  function HealthAfter(r: Record, e: Event): Record {
    if e.HealthCheck? then Apply(r, e.check) else r
  }

  lemma HealthStep(g: Manager, e: Event)
    ensures Next(g, e).s.health == HealthAfter(g.s.health, e)
  {
    if Quiet(e) {
      QuietHealth(g, e);
    } else if e.MergeReport? && |e.objs| == |e.report| {
      MergeKeepsRecords(g.s, e.w, e.report, e.objs);
    }
  }

  lemma QuietHealth(g: Manager, e: Event)
    requires Quiet(e)
    ensures Next(g, e).s.health == HealthAfter(g.s.health, e)
  {
  }

  lemma HealthStepAt(workers: seq<Worker>, trace: seq<Manager>, events: seq<Event>, k: nat)
    requires Run(workers, trace, events) && k < |events|
    ensures trace[k + 1].s.health == HealthAfter(trace[k].s.health, events[k])
  {
    HealthStep(trace[k], events[k]);
  }

  lemma OneMoreCheck(workers: seq<Worker>, events: seq<Event>, i: nat)
    requires i < |events|
    ensures After(workers, ChecksOf(events[..i + 1])) == HealthAfter(After(workers, ChecksOf(events[..i])), events[i])
  {
    assert events[..i + 1][..i] == events[..i];
    var checks, e := ChecksOf(events[..i]), events[i];
    if e.HealthCheck? {
      assert ChecksOf(events[..i + 1]) == checks + [e.check];
      assert (checks + [e.check])[..|checks|] == checks;
    } else {
      assert ChecksOf(events[..i + 1]) == checks + [] == checks;
    }
  }

  lemma {:induction false} HealthIsOfChecks(workers: seq<Worker>, trace: seq<Manager>, events: seq<Event>, i: nat)
    requires Run(workers, trace, events) && i <= |events|
    ensures trace[i].s.health == After(workers, ChecksOf(events[..i]))
  {
    if i > 0 {
      HealthIsOfChecks(workers, trace, events, i - 1);
      HealthStepAt(workers, trace, events, i - 1);
      OneMoreCheck(workers, events, i - 1);
    }
  }

  lemma SixDownsTrail(results: seq<bool>, n: nat)
    requires TrailingDowns(results, n)
    ensures n <= 5 <==> !LastSixDown(results)
  {
    if n <= 5 && |results| >= 6 {
      assert results[|results| - 1 - n];
    }
  }

  /** What a record says about the checks of a worker. */
  lemma RecordOfChecks(workers: seq<Worker>, history: seq<Check>, w: Worker)
    ensures After(workers, history).IsHealthy(w) <==> LastUp(ResultsOf(history, w))
    ensures After(workers, history).IsReady(w) <==> !LastSixDown(ResultsOf(history, w))
  {
    HealthOfHistory(workers, history, w);
    SixDownsTrail(ResultsOf(history, w), After(workers, history).Failures(w));
  }

  lemma RecordAt(workers: seq<Worker>, trace: seq<Manager>, events: seq<Event>, i: nat, w: Worker)
    requires Run(workers, trace, events) && i <= |events|
    ensures trace[i].s.health.IsHealthy(w) <==> LastUp(ResultsBefore(events, i, w))
    ensures trace[i].s.health.IsReady(w) <==> !LastSixDown(ResultsBefore(events, i, w))
  {
    HealthIsOfChecks(workers, trace, events, i);
    RecordOfChecks(workers, ChecksOf(events[..i]), w);
  }

  /** A send drops its task at the first reading exactly when no worker's latest check had succeeded. */
  lemma ReadHealthyDropsExactly(workers: seq<Worker>, trace: seq<Manager>, events: seq<Event>, i: nat)
    requires Run(workers, trace, events) && i < |events| && events[i].SendReadHealthy?
    ensures trace[i + 1].sending.Idle? <==> forall w :: w in workers ==> !LastUp(ResultsBefore(events, i, w))
  {
    assert Enabled(trace[i], events[i]) && trace[i + 1] == Next(trace[i], events[i]);
    RunIsSound(workers, trace, events, i);
    var g := trace[i];
    var healthy := HealthyWorkers(workers, g.s.health);
    forall w | w in workers ensures w in healthy <==> LastUp(ResultsBefore(events, i, w)) {
      RecordAt(workers, trace, events, i, w);
      FilterMembers(workers, (w: Worker) => g.s.health.IsHealthy(w), w);
    }
    if |healthy| > 0 {
      FilterMembers(workers, (w: Worker) => g.s.health.IsHealthy(w), healthy[0]);
      assert healthy[0] in healthy;
    }
  }

  lemma {:induction false} OnlyFailures(history: seq<Check>, w: Worker)
    requires forall c :: c in history ==> !c.up
    ensures forall r :: r in ResultsOf(history, w) ==> !r
  {
    if |history| > 0 {
      OnlyFailures(history[..|history| - 1], w);
      assert history[|history| - 1] in history;
    }
  }

  lemma {:induction false} ChecksAreEvents(events: seq<Event>, c: Check)
    requires c in ChecksOf(events)
    ensures HealthCheck(c) in events
  {
    if |events| > 0 {
      if c in ChecksOf(events[..|events| - 1]) {
        ChecksAreEvents(events[..|events| - 1], c);
      }
    }
  }

  /** Until a health check has succeeded, every send drops the task it took. */
  lemma SendBeforeFirstSuccessDrops(workers: seq<Worker>, trace: seq<Manager>, events: seq<Event>, i: nat)
    requires Run(workers, trace, events) && i < |events| && events[i].SendReadHealthy?
    requires forall k :: 0 <= k < i && events[k].HealthCheck? ==> !events[k].check.up
    ensures trace[i + 1].sending.Idle?
    ensures trace[i].sending.Dequeued? && IdOf(trace[i], trace[i].sending.o) in trace[i + 1].dropped
  {
    assert Enabled(trace[i], events[i]) && trace[i + 1] == Next(trace[i], events[i]);
    forall c | c in ChecksOf(events[..i]) ensures !c.up {
      ChecksAreEvents(events[..i], c);
      var k :| 0 <= k < i && events[k] == HealthCheck(c);
    }
    forall w | w in workers ensures !LastUp(ResultsBefore(events, i, w)) {
      OnlyFailures(ChecksOf(events[..i]), w);
      var results := ResultsBefore(events, i, w);
      assert |results| > 0 ==> results[|results| - 1] in results;
    }
    ReadHealthyDropsExactly(workers, trace, events, i);
  }

  lemma {:induction false} HealthyListWaits(
      workers: seq<Worker>, trace: seq<Manager>, events: seq<Event>, i: nat, j: nat)
    requires Run(workers, trace, events) && i < j <= |events| && trace[i + 1].sending.SawHealthy?
    requires forall k :: i < k < j ==> !events[k].SendReadReady?
    ensures trace[j].sending == trace[i + 1].sending
    decreases j
  {
    if j > i + 1 {
      HealthyListWaits(workers, trace, events, i, j - 1);
      assert Enabled(trace[j - 1], events[j - 1]) && trace[j] == Next(trace[j - 1], events[j - 1]);
    }
  }

  /**
   At the second reading, which may come many checks later, it drops its task exactly when every worker
   that was up at the first reading has failed six checks in a row by now.
   */
  lemma ReadReadyDropsExactly(workers: seq<Worker>, trace: seq<Manager>, events: seq<Event>, i: nat, j: nat)
    requires Run(workers, trace, events) && i < j < |events|
    requires events[i].SendReadHealthy? && trace[i + 1].sending.SawHealthy?
    requires events[j].SendReadReady? && forall k :: i < k < j ==> !events[k].SendReadReady?
    ensures trace[j + 1].sending.Idle?
       <==> forall w :: w in workers && LastUp(ResultsBefore(events, i, w)) ==> LastSixDown(ResultsBefore(events, j, w))
  {
    HealthyListWaits(workers, trace, events, i, j);
    assert Enabled(trace[i], events[i]) && trace[i + 1] == Next(trace[i], events[i]);
    assert Enabled(trace[j], events[j]) && trace[j + 1] == Next(trace[j], events[j]);
    RunIsSound(workers, trace, events, i);
    RunIsSound(workers, trace, events, j);
    var list := Schedulable(workers, trace[i].s.health, trace[j].s.health);
    assert trace[j + 1].sending.Idle? <==> |list| == 0;
    forall w
      ensures w in list
         <==> w in workers && LastUp(ResultsBefore(events, i, w)) && !LastSixDown(ResultsBefore(events, j, w))
    {
      SchedulableMembers(workers, trace[i].s.health, trace[j].s.health, w);
      RecordAt(workers, trace, events, i, w);
      RecordAt(workers, trace, events, j, w);
    }
    assert |list| > 0 ==> list[0] in list;
  }

  // ---------- Sends are shared out fairly ----------

  /** The workers that the sends between two moments picked, in order. */
  function PickedBetween(trace: seq<Manager>, events: seq<Event>, i: nat, j: nat): seq<Worker>
    requires |trace| == |events| + 1 && i <= j <= |events|
    decreases j
  {
    if i == j then []
    else
      PickedBetween(trace, events, i, j - 1)
      + (if events[j - 1].SendPick? && trace[j].sending.Chose? then [trace[j].sending.w] else [])
  }

  /** These workers are healthy now, and these are ready. */
  ghost predicate AreUp(g: Manager, healthy: seq<Worker>, ready: seq<Worker>) {
    HealthyWorkers(g.s.workers, g.s.health) == healthy && ReadyWorkers(g.s.workers, g.s.health) == ready
  }

  /** Who is healthy and who is ready is the same at every moment between the two. */
  ghost predicate Steady(trace: seq<Manager>, i: nat, j: nat, healthy: seq<Worker>, ready: seq<Worker>)
    requires j < |trace|
  {
    forall k :: i <= k <= j ==> AreUp(trace[k], healthy, ready)
  }

  /** What a send in progress has read so far. */
  ghost predicate ReadSteady(g: Manager, healthy: seq<Worker>, ready: seq<Worker>) {
    && (g.sending.SawHealthy? ==> g.sending.healthy == healthy)
    && (g.sending.Choosing? ==> g.sending.list == InBoth(healthy, ready))
  }

  lemma QuietLast(g: Manager, e: Event)
    requires Quiet(e) && !e.SendPick?
    ensures Next(g, e).s.last == g.s.last
  {
  }

  lemma LastUnchanged(g: Manager, e: Event)
    requires !e.SendPick?
    ensures Next(g, e).s.last == g.s.last
  {
    if Quiet(e) {
      QuietLast(g, e);
    } else if e.MergeReport? && |e.objs| == |e.report| {
      MergeKeepsRecords(g.s, e.w, e.report, e.objs);
    }
  }

  lemma {:induction false} LastIsZeroBeforeFirstPick(
      workers: seq<Worker>, trace: seq<Manager>, events: seq<Event>, i: nat)
    requires Run(workers, trace, events) && i <= |events|
    requires forall k :: 0 <= k < i ==> !events[k].SendPick?
    ensures trace[i].s.last == 0
  {
    if i > 0 {
      LastIsZeroBeforeFirstPick(workers, trace, events, i - 1);
      LastUnchanged(trace[i - 1], events[i - 1]);
    }
  }

  /** The index moves before it is used: the first pick is the second schedulable worker, if there are two. */
  lemma FirstPickIsTheSecond(workers: seq<Worker>, trace: seq<Manager>, events: seq<Event>, i: nat)
    requires Run(workers, trace, events) && i < |events| && events[i].SendPick?
    requires forall k :: 0 <= k < i ==> !events[k].SendPick?
    ensures trace[i].sending.Choosing? && |trace[i].sending.list| > 0 && trace[i + 1].sending.Chose?
    ensures var list := trace[i].sending.list;
            trace[i + 1].sending.w == if |list| == 1 then list[0] else list[1]
  {
    LastIsZeroBeforeFirstPick(workers, trace, events, i);
    assert Enabled(trace[i], events[i]) && trace[i + 1] == Next(trace[i], events[i]);
  }

  /** A pick takes the next worker of the list, and nothing else moves the index. */
  predicate TakesTurn(g: Manager, e: Event, g': Manager, list: seq<Worker>)
    requires |list| > 0
  {
    if e.SendPick? then g'.sending.Chose? && PickFrom(list, g.s.last) == Chosen(g'.sending.w, g'.s.last)
    else g'.s.last == g.s.last
  }

  lemma StepTakesTurn(g: Manager, e: Event, list: seq<Worker>)
    requires Enabled(g, e) && |list| > 0 && (g.sending.Choosing? ==> g.sending.list == list)
    ensures TakesTurn(g, e, Next(g, e), list)
  {
    if !e.SendPick? {
      LastUnchanged(g, e);
    }
  }

  lemma StaysReadSteady(g: Manager, e: Event, healthy: seq<Worker>, ready: seq<Worker>)
    requires Enabled(g, e) && ReadSteady(g, healthy, ready) && AreUp(g, healthy, ready)
    ensures ReadSteady(Next(g, e), healthy, ready)
  {
  }

  lemma {:induction false} RunStaysReadSteady(
      workers: seq<Worker>, trace: seq<Manager>, events: seq<Event>, i: nat, j: nat,
      healthy: seq<Worker>, ready: seq<Worker>)
    requires Run(workers, trace, events) && i <= j <= |events| && trace[i].sending.Idle?
    requires Steady(trace, i, j, healthy, ready)
    ensures ReadSteady(trace[j], healthy, ready)
    decreases j
  {
    if i < j {
      RunStaysReadSteady(workers, trace, events, i, j - 1, healthy, ready);
      assert Enabled(trace[j - 1], events[j - 1]);
      StaysReadSteady(trace[j - 1], events[j - 1], healthy, ready);
    }
  }

  /** Each pick takes the next worker of the list; `lasts` are the values of `lastWorker` before, between and after. */
  ghost predicate Turns(list: seq<Worker>, picked: seq<Worker>, lasts: seq<nat>) {
    && |list| > 0 && |lasts| == |picked| + 1
    && forall k :: 0 <= k < |picked| ==> PickFrom(list, lasts[k]) == Chosen(picked[k], lasts[k + 1])
  }

  lemma {:induction false} TurnsAreRoundRobin(list: seq<Worker>, picked: seq<Worker>, lasts: seq<nat>)
    requires Turns(list, picked, lasts)
    ensures picked == Picks(list, lasts[0], |picked|) && lasts[|picked|] == LastAfter(list, lasts[0], |picked|)
  {
    if |picked| > 0 {
      var n := |picked| - 1;
      TurnsAreRoundRobin(list, picked[..n], lasts[..n + 1]);
      assert PickFrom(list, lasts[n]) == Chosen(picked[n], lasts[n + 1]);
      assert picked == picked[..n] + [picked[n]];
    }
  }

  lemma {:induction false} PicksAreTurns(
      trace: seq<Manager>, events: seq<Event>, i: nat, j: nat, list: seq<Worker>)
    returns (lasts: seq<nat>)
    requires |trace| == |events| + 1 && i <= j <= |events| && |list| > 0
    requires forall k :: i <= k < j ==> TakesTurn(trace[k], events[k], trace[k + 1], list)
    ensures Turns(list, PickedBetween(trace, events, i, j), lasts)
    ensures lasts[0] == trace[i].s.last && lasts[|lasts| - 1] == trace[j].s.last
    decreases j
  {
    if i == j {
      lasts := [trace[i].s.last];
    } else {
      lasts := PicksAreTurns(trace, events, i, j - 1, list);
      assert TakesTurn(trace[j - 1], events[j - 1], trace[j], list);
      if events[j - 1].SendPick? {
        TurnsGoOn(list, PickedBetween(trace, events, i, j - 1), lasts, trace[j].sending.w, trace[j].s.last);
        lasts := lasts + [trace[j].s.last];
      }
    }
  }

  lemma TurnsGoOn(list: seq<Worker>, picked: seq<Worker>, lasts: seq<nat>, w: Worker, last: nat)
    requires Turns(list, picked, lasts) && PickFrom(list, lasts[|picked|]) == Chosen(w, last)
    ensures Turns(list, picked + [w], lasts + [last])
  {
  }

  lemma SteadyTurnAt(
      workers: seq<Worker>, trace: seq<Manager>, events: seq<Event>, i: nat, k: nat,
      healthy: seq<Worker>, ready: seq<Worker>)
    requires Run(workers, trace, events) && i <= k < |events| && trace[i].sending.Idle?
    requires Steady(trace, i, k, healthy, ready) && |InBoth(healthy, ready)| > 0
    ensures TakesTurn(trace[k], events[k], trace[k + 1], InBoth(healthy, ready))
  {
    RunStaysReadSteady(workers, trace, events, i, k, healthy, ready);
    assert Enabled(trace[k], events[k]);
    StepTakesTurn(trace[k], events[k], InBoth(healthy, ready));
  }

  lemma SchedulableOnce(workers: seq<Worker>, g: Manager, healthy: seq<Worker>, ready: seq<Worker>)
    requires Distinct(workers) && g.s.workers == workers && AreUp(g, healthy, ready)
    ensures Distinct(InBoth(healthy, ready))
  {
    FilterKeepsDistinct(workers, (w: Worker) => g.s.health.IsReady(w));
    FilterKeepsDistinct(ready, (w: Worker) => w in healthy);
  }

  lemma TurnsAreFair(list: seq<Worker>, picked: seq<Worker>, lasts: seq<nat>, w: Worker)
    requires Turns(list, picked, lasts) && Distinct(list) && w in list
    ensures |picked| / |list| <= multiset(picked)[w] <= (|picked| + |list| - 1) / |list|
  {
    TurnsAreRoundRobin(list, picked, lasts);
    RoundRobinIsFair(list, lasts[0], |picked|, w);
  }

  /**
   Over any stretch of a run in which it does not change who is healthy and who is ready, whatever else
   happens in between, the sends that pick a worker pick each schedulable one equally often, up to one.
   */
  lemma SendsAreSharedFairly(
      workers: seq<Worker>, trace: seq<Manager>, events: seq<Event>, i: nat, j: nat,
      healthy: seq<Worker>, ready: seq<Worker>, w: Worker)
    requires Run(workers, trace, events) && i <= j <= |events| && trace[i].sending.Idle?
    requires Steady(trace, i, j, healthy, ready)
    requires Distinct(workers) && w in InBoth(healthy, ready)
    ensures var n, picked := |InBoth(healthy, ready)|, PickedBetween(trace, events, i, j);
            |picked| / n <= multiset(picked)[w] <= (|picked| + n - 1) / n
  {
    var list := InBoth(healthy, ready);
    RunIsSound(workers, trace, events, i);
    SchedulableOnce(workers, trace[i], healthy, ready);
    forall k | i <= k < j ensures TakesTurn(trace[k], events[k], trace[k + 1], list) {
      SteadyTurnAt(workers, trace, events, i, k, healthy, ready);
    }
    var lasts := PicksAreTurns(trace, events, i, j, list);
    TurnsAreFair(list, PickedBetween(trace, events, i, j), lasts, w);
  }

  // ---------- Which posts carry a start ----------

  ghost predicate Names(report: seq<TaskData>, id: Id) {
    exists d :: d in report && d.id == id
  }

  /** The map files the object under its ID. */
  predicate IsFiled(s: MState, o: Task) {
    var id := At(s.heap, o).id; id in s.db && s.db[id] == o
  }

  /** The steps that write the state of a task other than by `SendWork`: a stop request and a report of it. */
  ghost predicate Overwrites(g: Manager, e: Event, o: Task) {
    IsFiled(g.s, o) && (e == StopMark(IdOf(g, o)) || (e.MergeReport? && Names(e.report, IdOf(g, o))))
  }

  lemma MergeOneWrites(s: MState, w: Worker, e: TaskData, p: Task, o: Task)
    requires Keyed(s) && p !in s.heap && o in s.heap
    ensures var m := MergeOne(s, w, e, p);
            && o in m.heap && (IsFiled(m, o) <==> IsFiled(s, o))
            && m.heap[o] == if IsFiled(s, o) && e.id == s.heap[o].id && e.state != s.heap[o].state
                            then TaskData(e.id, s.heap[o].spec, e.containerID, e.state, e.start, e.end) else s.heap[o]
  {
  }

  /** A report writes a task only if it names it and the map files it, and then neither its ID nor its spec. */
  lemma {:induction false} MergeWrites(s: MState, w: Worker, report: seq<TaskData>, objs: seq<Task>, o: Task)
    requires Keyed(s) && |objs| == |report| && NewObjects(s.heap, objs) && o in s.heap
    ensures var m := Merge(s, w, report, objs);
            && o in m.heap && (IsFiled(m, o) <==> IsFiled(s, o))
            && m.heap[o].id == s.heap[o].id && m.heap[o].spec == s.heap[o].spec
            && (m.heap[o] == s.heap[o] || (IsFiled(s, o) && Names(report, s.heap[o].id)))
  {
    var n := |report|;
    if n > 0 {
      var init, e := report[..n - 1], report[n - 1];
      MergeWrites(s, w, init, objs[..n - 1], o);
      MergeKeepsKeyed(s, w, init, objs[..n - 1]);
      LastIsNew(s, w, report, objs);
      assert e in report && report == init + [e];
      MergeOneWrites(Merge(s, w, init, objs[..n - 1]), w, e, objs[n - 1], o);
    }
  }

  lemma MarkWrites(g: Manager, e: Event, o: Task)
    requires Sound(g) && Enabled(g, e) && Writes(e) && o in g.s.heap
    ensures var d := g.s.heap[o];
            At(Next(g, e).s.heap, o)
            == if IsFiled(g.s, o) && e == StopMark(d.id) then d.(state := Completed)
               else if e.SendMark? && g.sending.o == o then d.(state := Scheduled)
               else d
  {
  }

  /**
   All that a step writes to a task of the manager: a stop request for it and the mark of a send write its
   state and nothing else, a report of it does not write its ID or spec, and no other step writes anything.
   */
  lemma TaskAfter(g: Manager, e: Event, o: Task)
    requires Sound(g) && Enabled(g, e) && o in g.s.heap
    ensures var d, d' := g.s.heap[o], At(Next(g, e).s.heap, o);
            if IsFiled(g.s, o) && e == StopMark(d.id) then d' == d.(state := Completed)
            else if e.SendMark? && g.sending.o == o then d' == d.(state := Scheduled)
            else if Overwrites(g, e, o) then d'.id == d.id && d'.spec == d.spec
            else d' == d
  {
    if Quiet(e) {
      QuietStep(g, e);
    } else if Writes(e) {
      MarkWrites(g, e, o);
    } else if e.MergeReport? {
      MergeWrites(g.s, e.w, e.report, e.objs, o);
    } else if !e.SubmitTask? {
      HeapUnchanged(g, e);
    }
  }

  lemma TaskAfterAt(workers: seq<Worker>, trace: seq<Manager>, events: seq<Event>, k: nat, o: Task)
    requires Run(workers, trace, events) && k < |events| && o in trace[k].s.heap
    requires events[k].MergeReport? ==> !Names(events[k].report, trace[k].s.heap[o].id)
    ensures o in trace[k + 1].s.heap
    ensures var before, after := trace[k].s.heap[o], trace[k + 1].s.heap[o]; after == before.(state := after.state)
  {
    RunIsSound(workers, trace, events, k);
    assert Enabled(trace[k], events[k]);
    StepKeepsObjects(trace[k], events[k]);
    TaskAfter(trace[k], events[k], o);
  }

  /** Over a run, only reports change anything but the state of a task: stops and sends leave its container alone. */
  lemma {:induction false} OnlyReportsWriteMore(
      workers: seq<Worker>, trace: seq<Manager>, events: seq<Event>, i: nat, j: nat, o: Task)
    requires Run(workers, trace, events) && i <= j <= |events| && o in trace[i].s.heap
    requires forall k :: i <= k < j && events[k].MergeReport? ==> !Names(events[k].report, trace[i].s.heap[o].id)
    ensures o in trace[j].s.heap
    ensures var before, after := trace[i].s.heap[o], trace[j].s.heap[o]; after == before.(state := after.state)
    decreases j
  {
    if i < j {
      OnlyReportsWriteMore(workers, trace, events, i, j - 1, o);
      TaskAfterAt(workers, trace, events, j - 1, o);
    }
  }

  /** `SendWork` has marked its task, and has not yet copied it into the event. */
  predicate Building(g: Manager) {
    g.sending.Marked? || g.sending.Stated?
  }

  lemma MergeOneOverwrites(s: MState, w: Worker, e: TaskData, p: Task, o: Task)
    requires Keyed(s) && p !in s.heap && o in s.heap && e.state != Scheduled
    ensures var m, id := MergeOne(s, w, e, p), s.heap[o].id;
            && o in m.heap && m.heap[o].id == id && (IsFiled(m, o) <==> IsFiled(s, o))
            && (m.heap[o].state == Scheduled <==> s.heap[o].state == Scheduled && !(IsFiled(s, o) && e.id == id))
  {
  }

  lemma {:induction false} MergeOverwrites(s: MState, w: Worker, report: seq<TaskData>, objs: seq<Task>, o: Task)
    requires Keyed(s) && |objs| == |report| && NewObjects(s.heap, objs) && o in s.heap
    requires forall d :: d in report ==> d.state != Scheduled
    ensures var m, id := Merge(s, w, report, objs), s.heap[o].id;
            && o in m.heap && m.heap[o].id == id && (IsFiled(m, o) <==> IsFiled(s, o))
            && (m.heap[o].state == Scheduled <==> s.heap[o].state == Scheduled && !(IsFiled(s, o) && Names(report, id)))
  {
    var n := |report|;
    if n > 0 {
      var init, e := report[..n - 1], report[n - 1];
      MergeOverwrites(s, w, init, objs[..n - 1], o);
      MergeKeepsKeyed(s, w, init, objs[..n - 1]);
      LastIsNew(s, w, report, objs);
      assert e in report && report == init + [e];
      assert Names(report, s.heap[o].id) <==> Names(init, s.heap[o].id) || e.id == s.heap[o].id;
      MergeOneOverwrites(Merge(s, w, init, objs[..n - 1]), w, e, objs[n - 1], o);
    }
  }

  /** While the event is built, a step makes the task other than Scheduled exactly when it overwrites it. */
  lemma BuildingStep(g: Manager, e: Event)
    requires Sound(g) && Enabled(g, e) && Building(g) && !e.SendReadTask?
    requires e.MergeReport? ==> forall d :: d in e.report ==> d.state != Scheduled
    ensures Building(Next(g, e)) && Next(g, e).sending.o == g.sending.o
    ensures var o := g.sending.o;
            At(Next(g, e).s.heap, o).state == Scheduled <==> At(g.s.heap, o).state == Scheduled && !Overwrites(g, e, o)
  {
    StaysHeld(g, e);
    if e.MergeReport? {
      MergeOverwrites(g.s, e.w, e.report, e.objs, g.sending.o);
    } else {
      TaskAfter(g, e, g.sending.o);
    }
  }

  // ---------- Runs that show it ----------

  lemma FilterTwo(v: Worker, w: Worker, p: Worker -> bool)
    ensures Filter([v, w], p) == (if p(v) then [v] else []) + (if p(w) then [w] else [])
  {
    assert [v, w][..1] == [v];
    assert Filter([v], p) == if p(v) then [v] else [];
  }

  lemma FilterOne(w: Worker, p: Worker -> bool)
    ensures Filter([w], p) == if p(w) then [w] else []
  {
  }

  /** One of two workers is up and ready. */
  predicate OnlyUp(r: Record, v: Worker, w: Worker, up: Worker) {
    up in [v, w] && r.IsReady(up) && r.IsHealthy(up) && (forall x :: x in [v, w] && x != up ==> !r.IsHealthy(x))
  }

  lemma OneSchedulable(r: Record, v: Worker, w: Worker, up: Worker)
    requires v != w && OnlyUp(r, v, w, up)
    ensures HealthyWorkers([v, w], r) == [up] && InBoth([up], ReadyWorkers([v, w], r)) == [up]
  {
    FilterTwo(v, w, (x: Worker) => r.IsHealthy(x));
    FilterTwo(v, w, (x: Worker) => r.IsReady(x));
    var a, ready := [up], ReadyWorkers([v, w], r);
    if ready == [v, w] {
      FilterTwo(v, w, (x: Worker) => x in a);
    } else {
      assert ready == [up];
      FilterOne(up, (x: Worker) => x in a);
    }
  }

  /** A send that goes as far as reading who is ready, when only one worker is up. */
  lemma ReadUp(v: Worker, w: Worker, trace: seq<Manager>, events: seq<Event>, o: Task, up: Worker)
    returns (trace': seq<Manager>, events': seq<Event>)
    requires v != w && Run([v, w], trace, events)
    requires var g := trace[|events|]; g.sending.Idle? && g.s.queue == [o] && OnlyUp(g.s.health, v, w, up)
    ensures Run([v, w], trace', events')
    ensures trace'[|events'|] == trace[|events|].(s := trace[|events|].s.(queue := []), sending := Choosing(o, [up]))
  {
    var g := trace[|events|];
    RunIsSound([v, w], trace, events, |events|);
    OneSchedulable(g.s.health, v, w, up);
    trace', events' := Extend([v, w], trace, events, SendDequeue);
    var g1 := g.(s := g.s.(queue := []), sending := Dequeued(o));
    assert trace'[|events'|] == g1;
    trace', events' := Extend([v, w], trace', events', SendReadHealthy);
    var g2 := g1.(sending := SawHealthy(o, [up]));
    assert trace'[|events'|] == g2;
    trace', events' := Extend([v, w], trace', events', SendReadReady);
  }

  lemma ChooseUp(v: Worker, w: Worker, trace: seq<Manager>, events: seq<Event>, o: Task, up: Worker)
    returns (trace': seq<Manager>, events': seq<Event>)
    requires v != w && Run([v, w], trace, events)
    requires var g := trace[|events|]; g.sending.Idle? && g.s.queue == [o] && OnlyUp(g.s.health, v, w, up)
    ensures Run([v, w], trace', events')
    ensures var g := trace[|events|];
            trace'[|events'|] == g.(s := g.s.(queue := [], last := 0), sending := Chose(o, up))
  {
    trace', events' := ReadUp(v, w, trace, events, o, up);
    trace', events' := Extend([v, w], trace', events', SendPick);
  }

  /** The rest of a send that is accepted. */
  lemma PostAccepted(workers: seq<Worker>, trace: seq<Manager>, events: seq<Event>)
    returns (trace': seq<Manager>, events': seq<Event>)
    requires Run(workers, trace, events) && trace[|events|].sending.Chose?
    ensures Run(workers, trace', events') && |events'| > 0
    ensures events'[|events'| - 1] == SendAnswer(Accepted)
    ensures var g, g', g'' := trace[|events|], trace'[|events'| - 1], trace'[|events'|];
            var o, s := g.sending.o, g.s.(heap := SetState(g.s.heap, g.sending.o, Scheduled));
            && g'.sending.Posted? && g'.sending.o == o && g'.s == s
            && g'' == g.(s := Commit(s, o, g.sending.w, g'.sending.te), sending := Idle)
  {
    var g := trace[|events|];
    var o, w, s := g.sending.o, g.sending.w, g.s.(heap := SetState(g.s.heap, g.sending.o, Scheduled));
    trace', events' := Extend(workers, trace, events, SendMark);
    assert trace'[|events'|] == g.(s := s, sending := Marked(o, w));
    trace', events' := Extend(workers, trace', events', SendReadState);
    assert trace'[|events'|] == g.(s := s, sending := Stated(o, w, Scheduled));
    trace', events' := Extend(workers, trace', events', SendReadTask(0, 0));
    var te := TaskEvent(0, Scheduled, 0, At(s.heap, o));
    assert trace'[|events'|] == g.(s := s, sending := Posted(o, w, te));
    trace', events' := Extend(workers, trace', events', SendAnswer(Accepted));
  }

  /** The state after one submission to a manager that has heard from `v`, but not from `w`. */
  lemma SubmittedOne(v: Worker, w: Worker, o: Task, d: TaskData) returns (trace: seq<Manager>, events: seq<Event>)
    requires v != w && d.state == Pending && d.containerID == "" && d.end == ZERO_TIME
    ensures Run([v, w], trace, events)
    ensures var g := trace[|events|];
            && g.sending == Idle && g.stopping == multiset{} && OnlyUp(g.s.health, v, w, v)
            && g.s.queue == [o] && g.s.heap == map[o := d] && g.s.db == map[d.id := o]
            && g.s.owner == map[] && g.s.workerTasks == New([v, w]).workerTasks
  {
    trace, events := [ManagerRuns.Initial([v, w])], [];
    trace, events := Extend([v, w], trace, events, HealthCheck(Check(v, true)));
    var g := trace[|events|];
    assert OnlyUp(g.s.health, v, w, v);
    trace, events := Extend([v, w], trace, events, SubmitTask(o, d));
  }

  /** That task is accepted by `v`. */
  lemma SentOne(v: Worker, w: Worker, o: Task, d: TaskData) returns (trace: seq<Manager>, events: seq<Event>)
    requires v != w && d.state == Pending && d.containerID == "" && d.end == ZERO_TIME
    ensures Run([v, w], trace, events)
    ensures var g := trace[|events|];
            && g.sending == Idle && g.stopping == multiset{} && OnlyUp(g.s.health, v, w, v)
            && g.s.queue == [] && g.s.db == map[d.id := o] && IdOf(g, o) == d.id
            && g.s.owner == map[d.id := v] && TasksOf(g.s, v) == [d.id] && TasksOf(g.s, w) == []
  {
    trace, events := SubmittedOne(v, w, o, d);
    trace, events := ChooseUp(v, w, trace, events, o, v);
    trace, events := PostAccepted([v, w], trace, events);
  }

  /** A stop request for the only task, and then the other worker takes over. */
  lemma StoppedOne(v: Worker, w: Worker, trace: seq<Manager>, events: seq<Event>, o: Task, id: Id)
    returns (trace': seq<Manager>, events': seq<Event>)
    requires v != w && Run([v, w], trace, events)
    requires var g := trace[|events|];
             && g.sending == Idle && g.stopping == multiset{} && OnlyUp(g.s.health, v, w, v)
             && g.s.queue == [] && id in g.s.db && g.s.db[id] == o
    ensures Run([v, w], trace', events')
    ensures var g, g' := trace[|events|], trace'[|events'|];
            && g'.sending == Idle && OnlyUp(g'.s.health, v, w, w) && g'.s.queue == [o]
            && g'.s.owner == g.s.owner && TasksOf(g'.s, v) == TasksOf(g.s, v) && TasksOf(g'.s, w) == TasksOf(g.s, w)
            && IdOf(g', o) == IdOf(g, o)
  {
    trace', events' := Extend([v, w], trace, events, StopMark(id));
    assert trace'[|events'|].stopping == multiset{o};
    trace', events' := Extend([v, w], trace', events', StopEnqueue(o));
    trace', events' := SwitchUp(v, w, trace', events');
  }

  lemma Switched(r: Record, v: Worker, w: Worker)
    requires v != w && OnlyUp(r, v, w, v)
    ensures OnlyUp(r.MarkDown(v).MarkUp(w), v, w, w)
  {
  }

  lemma SwitchUp(v: Worker, w: Worker, trace: seq<Manager>, events: seq<Event>)
    returns (trace': seq<Manager>, events': seq<Event>)
    requires v != w && Run([v, w], trace, events) && OnlyUp(trace[|events|].s.health, v, w, v)
    ensures Run([v, w], trace', events')
    ensures var g, g' := trace[|events|], trace'[|events'|];
            g' == g.(s := g.s.(health := g'.s.health)) && OnlyUp(g'.s.health, v, w, w)
  {
    RunIsSound([v, w], trace, events, |events|);
    Switched(trace[|events|].s.health, v, w);
    trace', events' := Extend([v, w], trace, events, HealthCheck(Check(v, false)));
    trace', events' := Extend([v, w], trace', events', HealthCheck(Check(w, true)));
  }

  /**
   A run in which the lists stop being the inverse of the owner map: a task is sent to `v`, a stop request
   queues it again, and it is sent to `w`. It is now in the lists of both.
   */
  lemma ResentTaskIsListedTwice(v: Worker, w: Worker, o: Task, d: TaskData)
    returns (trace: seq<Manager>, events: seq<Event>)
    requires v != w && d.state == Pending && d.containerID == "" && d.end == ZERO_TIME
    ensures Run([v, w], trace, events) && |events| > 0 && Resends(trace[|events| - 1], events[|events| - 1])
    ensures var s := trace[|events|].s;
            && s.owner == map[d.id := w] && TasksOf(s, v) == [d.id] && TasksOf(s, w) == [d.id] && !Inverse(s)
  {
    trace, events := SentOne(v, w, o, d);
    trace, events := StoppedOne(v, w, trace, events, o, d.id);
    trace, events := ChooseUp(v, w, trace, events, o, w);
    trace, events := PostAccepted([v, w], trace, events);
    var g := trace[|events| - 1];
    CommitElsewhere(g.s, o, v, w, g.sending.te);
  }

  lemma CommitElsewhere(s: MState, o: Task, v: Worker, w: Worker, te: TaskEvent)
    requires var id := At(s.heap, o).id;
             v != w && s.owner == map[id := v] && TasksOf(s, v) == [id] && TasksOf(s, w) == []
    ensures var id, t := At(s.heap, o).id, Commit(s, o, w, te);
            && t.owner == map[id := w] && TasksOf(t, v) == [id] && TasksOf(t, w) == [id] && !Inverse(t)
  {
    assert !ListsOwn(Commit(s, o, w, te), v, At(s.heap, o).id);
  }

  /** A run in which a post carries a stop: the stop request comes between the mark and the reading of the state. */
  lemma PostCarriesCompleted(v: Worker, w: Worker, o: Task, d: TaskData)
    returns (trace: seq<Manager>, events: seq<Event>)
    requires v != w && d.state == Pending && d.containerID == "" && d.end == ZERO_TIME
    ensures Run([v, w], trace, events)
    ensures var g := trace[|events|];
            g.sending.Posted? && g.sending.te.task.id == d.id
            && g.sending.te.state == Completed && g.sending.te.task.state == Completed
  {
    trace, events := SubmittedOne(v, w, o, d);
    trace, events := ChooseUp(v, w, trace, events, o, v);
    trace, events := Extend([v, w], trace, events, SendMark);
    trace, events := Extend([v, w], trace, events, StopMark(d.id));
    trace, events := Extend([v, w], trace, events, SendReadState);
    trace, events := Extend([v, w], trace, events, SendReadTask(0, 0));
  }
}
