/**
 Runs of the manager: every interleaving of its lock-protected sections.

 The API handlers, the send loop, the reconcile goroutines, the hourly cleanup and the health checks
 each advance by the events below, in any order. What an event leaves open (clock readings, fresh
 IDs and objects, the outcome of a send, what a worker reports) is in its parameters, so a theorem
 about all runs covers every choice of them.
 */
module ManagerRuns {
  import opened Tasks
  import opened SortedList
  import opened Health
  import opened Selection
  import opened ManagerState
  import opened Reconcile
  import opened Coherence
  import C = Cleanup

  /** Where the one goroutine that runs `SendWork` stands, with its local variables. */
  datatype Sending =
    | Idle
    | Dequeued(o: Task)
    | SawHealthy(o: Task, healthy: seq<Worker>)
    | Choosing(o: Task, list: seq<Worker>)
    | Chose(o: Task, w: Worker)
    | Marked(o: Task, w: Worker)                  // `t.State = task.Scheduled` is done
    | Stated(o: Task, w: Worker, state: State)    // the event has its state, but not yet its copy of the task
    | Posted(o: Task, w: Worker, te: TaskEvent)

  /** How a send ends: a 201 answer; a failure that re-queues; an error answer that does not decode. */
  datatype Answer = Accepted | Retry | Undecodable

  datatype Event =
    | SubmitTask(o: Task, d: TaskData)
    | StopMark(id: Id)
    | StopEnqueue(o: Task)
    | SendDequeue
    | SendReadHealthy
    | SendReadReady
    | SendPick
    | SendMark
    | SendReadState
    | SendReadTask(eventId: Id, now: Time)
    | SendAnswer(answer: Answer)
    | MergeReport(w: Worker, report: seq<TaskData>, objs: seq<Task>)
    | CleanUpTasks(now: Time)
    | HealthCheck(check: Check)

  /**
   The manager's state, the threads of control that hold an object between two sections, and what
   happened so far: the IDs ever passed to `AddTask`, those cleanup removed, and those `SendWork`
   returned on without re-queueing.
   */
  datatype Manager = Manager(
    s: MState, sending: Sending, stopping: multiset<Task>,
    added: set<Id>, cleaned: set<Id>, dropped: set<Id>)

  function Initial(workers: seq<Worker>): Manager {
    Manager(New(workers), Idle, multiset{}, {}, {}, {})
  }

  function IdOf(g: Manager, o: Task): Id {
    At(g.s.heap, o).id
  }

  function Add(g: Manager, o: Task): Manager {
    g.(s := AddTask(g.s, o), added := g.added + {IdOf(g, o)})
  }

  /** The exits of `SendWork` that neither commit nor re-queue. */
  function Drop(g: Manager): Manager
    requires !g.sending.Idle?
  {
    g.(sending := Idle, dropped := g.dropped + {IdOf(g, g.sending.o)})
  }

  /** When an event can happen. */
  ghost predicate Enabled(g: Manager, e: Event) {
    match e
    case SubmitTask(o, d) =>
      && o !in g.s.heap
      && d.state == Pending && d.containerID == "" && d.end == ZERO_TIME
      && (forall x :: x in g.s.heap ==> g.s.heap[x].id != d.id)    // uuid.New
    case StopMark(id) => id in g.s.db
    case StopEnqueue(o) => o in g.stopping
    case SendDequeue => g.sending.Idle? && |g.s.queue| > 0
    case SendReadHealthy => g.sending.Dequeued?
    case SendReadReady => g.sending.SawHealthy?
    case SendPick => g.sending.Choosing? && |g.sending.list| > 0
    case SendMark => g.sending.Chose?
    case SendReadState => g.sending.Marked?
    case SendReadTask(eventId, now) => g.sending.Stated?
    case SendAnswer(answer) => g.sending.Posted?
    case MergeReport(w, report, objs) => w in g.s.workers && |objs| == |report| && NewObjects(g.s.heap, objs)
    case CleanUpTasks(now) => true
    case HealthCheck(check) => check.worker in g.s.workers
  }

  function Next(g: Manager, e: Event): Manager {
    match e
    case SubmitTask(o, d) => g.(s := Submit(g.s, o, d), added := g.added + {d.id})
    case StopMark(id) =>
      if id in g.s.db then g.(s := MarkStopped(g.s, id), stopping := g.stopping + multiset{g.s.db[id]}) else g
    case StopEnqueue(o) => Add(g.(stopping := g.stopping - multiset{o}), o)
    case SendDequeue =>
      if |g.s.queue| > 0 then g.(s := g.s.(queue := g.s.queue[1..]), sending := Dequeued(g.s.queue[0])) else g
    case SendReadHealthy =>
      if !g.sending.Dequeued? then g
      else
        var healthy := HealthyWorkers(g.s.workers, g.s.health);
        if |healthy| == 0 then Drop(g) else g.(sending := SawHealthy(g.sending.o, healthy))
    case SendReadReady =>
      if !g.sending.SawHealthy? then g
      else
        var list := InBoth(g.sending.healthy, ReadyWorkers(g.s.workers, g.s.health));
        if |list| == 0 then Drop(g) else g.(sending := Choosing(g.sending.o, list))
    case SendPick =>
      if g.sending.Choosing? && |g.sending.list| > 0 then
        var c := PickFrom(g.sending.list, g.s.last);
        g.(s := g.s.(last := c.last), sending := Chose(g.sending.o, c.worker))
      else g
    case SendMark =>
      if !g.sending.Chose? then g
      else
        g.(s := g.s.(heap := SetState(g.s.heap, g.sending.o, Scheduled)), sending := Marked(g.sending.o, g.sending.w))
    case SendReadState =>
      if !g.sending.Marked? then g
      else g.(sending := Stated(g.sending.o, g.sending.w, At(g.s.heap, g.sending.o).state))
    case SendReadTask(eventId, now) =>
      if !g.sending.Stated? then g
      else
        var te := TaskEvent(eventId, g.sending.state, now, At(g.s.heap, g.sending.o));
        g.(sending := Posted(g.sending.o, g.sending.w, te))
    case SendAnswer(answer) =>
      if !g.sending.Posted? then g
      else
        (match answer
         case Accepted => g.(s := Commit(g.s, g.sending.o, g.sending.w, g.sending.te), sending := Idle)
         case Retry => Add(g, g.sending.o).(sending := Idle)
         case Undecodable => Drop(g))
    case MergeReport(w, report, objs) => if |objs| == |report| then g.(s := Merge(g.s, w, report, objs)) else g
    case CleanUpTasks(now) =>
      g.(s := CleanUp(g.s, now), cleaned := g.cleaned + Victims(g.s, now - RETENTION))
    case HealthCheck(check) => g.(s := g.s.(health := Health.Apply(g.s.health, check)))
  }

  /** A run from start: the states it goes through and the event that leads from each to the next. */
  ghost predicate Run(workers: seq<Worker>, trace: seq<Manager>, events: seq<Event>) {
    && |trace| == |events| + 1
    && trace[0] == Initial(workers)
    && forall i :: 0 <= i < |events| ==> Enabled(trace[i], events[i]) && trace[i + 1] == Next(trace[i], events[i])
  }

  lemma RunGrows(workers: seq<Worker>, trace: seq<Manager>, events: seq<Event>, e: Event)
    requires Run(workers, trace, events) && Enabled(trace[|events|], e)
    ensures Run(workers, trace + [Next(trace[|events|], e)], events + [e])
  {
  }

  /** One more event of a run. */
  lemma Extend(workers: seq<Worker>, trace: seq<Manager>, events: seq<Event>, e: Event)
    returns (trace': seq<Manager>, events': seq<Event>)
    requires Run(workers, trace, events) && Enabled(trace[|events|], e)
    ensures Run(workers, trace', events') && events' == events + [e]
    ensures trace'[|events'|] == Next(trace[|events|], e) && trace'[|events|] == trace[|events|]
  {
    RunGrows(workers, trace, events, e);
    trace', events' := trace + [Next(trace[|events|], e)], events + [e];
  }

  // ---------- Coherent indexes in every reachable state ----------

  /** The objects and workers that the threads of control hold are known ones. */
  ghost predicate ThreadsClosed(g: Manager) {
    && (forall o :: o in g.stopping ==> o in g.s.heap)
    && (!g.sending.Idle? ==> g.sending.o in g.s.heap)
    && (g.sending.SawHealthy? ==> forall w :: w in g.sending.healthy ==> w in g.s.workers)
    && (g.sending.Choosing? ==> forall w :: w in g.sending.list ==> w in g.s.workers)
    && (g.sending.Chose? || g.sending.Marked? || g.sending.Stated? || g.sending.Posted? ==>
          g.sending.w in g.s.workers)
  }

  ghost predicate Sound(g: Manager) {
    Coherent(g.s) && ThreadsClosed(g)
  }

  /** The steps of `SendWork` that write no task, and the health checks: no index and no object changes. */
  predicate Quiet(e: Event) {
    || e.SendDequeue? || e.SendReadHealthy? || e.SendReadReady? || e.SendPick?
    || e.SendReadState? || e.SendReadTask? || e.HealthCheck?
  }

  /** The steps that write one field of one object. */
  predicate Writes(e: Event) {
    e.StopMark? || e.SendMark?
  }

  lemma QuietStep(g: Manager, e: Event)
    requires Quiet(e)
    ensures var s' := Next(g, e).s;
            && s' == g.s.(queue := s'.queue, last := s'.last, health := s'.health)
            && s'.queue == (if e.SendDequeue? && |g.s.queue| > 0 then g.s.queue[1..] else g.s.queue)
  {
  }

  lemma WriteStep(g: Manager, e: Event) returns (o: Task, d: TaskData)
    requires Sound(g) && Writes(e) && Enabled(g, e)
    ensures o in g.s.heap && d.id == g.s.heap[o].id && d.start == g.s.heap[o].start
    ensures Next(g, e).s == g.s.(heap := g.s.heap[o := d])
    ensures d.state == (if e.StopMark? then Completed else Scheduled)
  {
    o := if e.StopMark? then g.s.db[e.id] else g.sending.o;
    d := At(g.s.heap, o).(state := if e.StopMark? then Completed else Scheduled);
  }

  lemma StepKeepsCoherent(g: Manager, e: Event)
    requires Sound(g) && Enabled(g, e)
    ensures Coherent(Next(g, e).s)
  {
    if Quiet(e) {
      QuietStep(g, e);
    } else if Writes(e) {
      var o, d := WriteStep(g, e);
      WriteKeepsCoherent(g.s, o, d);
    } else {
      BigStepKeepsCoherent(g, e);
    }
  }

  lemma BigStepKeepsCoherent(g: Manager, e: Event)
    requires Sound(g) && Enabled(g, e) && !Quiet(e) && !Writes(e)
    ensures Coherent(Next(g, e).s)
  {
    if e.SendAnswer? {
      AnswerKeepsCoherent(g, e);
    } else if e.CleanUpTasks? {
      CleanUpKeepsCoherent(g.s, e.now);
    } else if e.MergeReport? {
      ReportKeepsCoherent(g, e);
    } else {
      AdditionKeepsCoherent(g, e);
    }
  }

  lemma ReportKeepsCoherent(g: Manager, e: Event)
    requires Sound(g) && Enabled(g, e) && e.MergeReport?
    ensures Coherent(Next(g, e).s)
  {
    MergeKeepsCoherent(g.s, e.w, e.report, e.objs);
  }

  lemma AdditionKeepsCoherent(g: Manager, e: Event)
    requires Sound(g) && Enabled(g, e) && (e.SubmitTask? || e.StopEnqueue?)
    ensures Coherent(Next(g, e).s)
  {
    if e.SubmitTask? {
      SubmitKeepsCoherent(g.s, e.o, e.d);
    } else {
      AddTaskKeepsCoherent(g.s, e.o);
    }
  }

  lemma AnswerKeepsCoherent(g: Manager, e: Event)
    requires Sound(g) && Enabled(g, e) && e.SendAnswer?
    ensures Coherent(Next(g, e).s)
  {
    match e.answer
    case Accepted => CommitKeepsCoherent(g.s, g.sending.o, g.sending.w, g.sending.te);
    case Retry => AddTaskKeepsCoherent(g.s, g.sending.o);
    case Undecodable =>
  }

  lemma {:induction false} MergeKeepsObjects(s: MState, w: Worker, report: seq<TaskData>, objs: seq<Task>)
    requires |objs| == |report|
    ensures s.heap.Keys <= Merge(s, w, report, objs).heap.Keys
    ensures Merge(s, w, report, objs).workers == s.workers
    ensures s.db.Keys <= Merge(s, w, report, objs).db.Keys
    ensures s.owner.Keys <= Merge(s, w, report, objs).owner.Keys
    ensures Merge(s, w, report, objs).queue == s.queue
  {
    var n := |report|;
    if n > 0 {
      MergeKeepsObjects(s, w, report[..n - 1], objs[..n - 1]);
    }
  }

  /** Objects are never lost from the heap, and the configured workers never change. */
  lemma StepKeepsObjects(g: Manager, e: Event)
    ensures g.s.heap.Keys <= Next(g, e).s.heap.Keys
    ensures Next(g, e).s.workers == g.s.workers
  {
    if Quiet(e) {
      QuietStep(g, e);
    } else if e.StopEnqueue? || e.SendAnswer? || e.CleanUpTasks? {
      HeapUnchanged(g, e);
    } else if e.MergeReport? && |e.objs| == |e.report| {
      MergeKeepsObjects(g.s, e.w, e.report, e.objs);
    }
  }

  lemma StepKeepsThreads(g: Manager, e: Event)
    requires Sound(g) && Enabled(g, e)
    ensures ThreadsClosed(Next(g, e))
  {
    StepKeepsObjects(g, e);
    if e.SendReadHealthy? || e.SendReadReady? {
      ReadKeepsThreads(g, e);
    } else if SendsOn(e) {
      SendKeepsThreads(g, e);
    } else {
      assert Next(g, e).sending == g.sending;
    }
  }

  predicate SendsOn(e: Event) {
    || e.SendDequeue? || e.SendPick? || e.SendMark? || e.SendReadState? || e.SendReadTask? || e.SendAnswer?
  }

  lemma SendKeepsThreads(g: Manager, e: Event)
    requires Sound(g) && Enabled(g, e) && SendsOn(e)
    requires g.s.heap.Keys <= Next(g, e).s.heap.Keys && Next(g, e).s.workers == g.s.workers
    ensures ThreadsClosed(Next(g, e))
  {
    if e.SendDequeue? {
      assert g.s.queue[0] in g.s.queue;
    } else if e.SendPick? {
      assert g.sending.list[(g.s.last + 1) % |g.sending.list|] in g.sending.list;
    } else {
      PostKeepsThreads(g, e);
    }
  }

  lemma PostKeepsThreads(g: Manager, e: Event)
    requires Sound(g) && Enabled(g, e)
    requires e.SendMark? || e.SendReadState? || e.SendReadTask? || e.SendAnswer?
    requires g.s.heap.Keys <= Next(g, e).s.heap.Keys && Next(g, e).s.workers == g.s.workers
    ensures ThreadsClosed(Next(g, e))
  {
    assert Next(g, e).stopping == g.stopping;
  }

  lemma ReadKeepsThreads(g: Manager, e: Event)
    requires Sound(g) && Enabled(g, e) && (e.SendReadHealthy? || e.SendReadReady?)
    ensures ThreadsClosed(Next(g, e))
  {
    if e.SendReadHealthy? {
      forall w | w in HealthyWorkers(g.s.workers, g.s.health) ensures w in g.s.workers {
        FilterMembers(g.s.workers, (w: Worker) => g.s.health.IsHealthy(w), w);
      }
    } else {
      var ready := ReadyWorkers(g.s.workers, g.s.health);
      forall w | w in InBoth(g.sending.healthy, ready) ensures w in g.s.workers {
        FilterMembers(ready, (w: Worker) => w in g.sending.healthy, w);
        FilterMembers(g.s.workers, (w: Worker) => g.s.health.IsReady(w), w);
      }
    }
  }

  lemma {:induction false} RunIsSound(workers: seq<Worker>, trace: seq<Manager>, events: seq<Event>, i: nat)
    requires Run(workers, trace, events) && i <= |events|
    ensures Sound(trace[i]) && trace[i].s.workers == workers
  {
    if i == 0 {
      NewIsCoherent(workers);
    } else {
      RunIsSound(workers, trace, events, i - 1);
      assert Enabled(trace[i - 1], events[i - 1]);
      StepKeepsCoherent(trace[i - 1], events[i - 1]);
      StepKeepsThreads(trace[i - 1], events[i - 1]);
      StepKeepsObjects(trace[i - 1], events[i - 1]);
    }
  }

  /**
   In every reachable state, whatever the interleaving and whatever the workers report: an owned ID is
   owned by a configured worker and in that worker's list; owners and events are for IDs of the task
   map; the task map files each object under its own ID; every task of the map is in the sorted list.
   */
  lemma IndexesAreCoherent(workers: seq<Worker>, trace: seq<Manager>, events: seq<Event>, i: nat, id: Id)
    requires Run(workers, trace, events) && i <= |events|
    ensures var s := trace[i].s;
            && (id in s.owner ==> id in s.db && s.owner[id] in workers && id in TasksOf(s, s.owner[id]))
            && (id in s.events ==> id in s.db)
            && (id in s.db ==> At(s.heap, s.db[id]).id == id)
            && (id in s.db ==> exists j :: 0 <= j < |s.sorted| && At(s.heap, s.sorted[j]).id == id)
  {
    RunIsSound(workers, trace, events, i);
    var s := trace[i].s;
    if id in s.db {
      assert s.heap[s.db[id]].id in ListedIds(s.heap, s.sorted);
      var x :| x in s.sorted && At(s.heap, x).id == id;
      var j :| 0 <= j < |s.sorted| && s.sorted[j] == x;
    }
  }

  // ---------- The sorted list refines the task map until a cleanup removes something ----------

  lemma StepKeepsExact(g: Manager, e: Event)
    requires Sound(g) && Exact(g.s) && Enabled(g, e) && Next(g, e).cleaned == {}
    ensures Exact(Next(g, e).s)
  {
    if Quiet(e) {
      QuietStep(g, e);
    } else if Writes(e) {
      var o, d := WriteStep(g, e);
      WriteKeepsExact(g.s, o, d);
    } else if e.SendAnswer? {
      AnswerKeepsExact(g, e);
    } else if e.CleanUpTasks? {
      assert Victims(g.s, e.now - RETENTION) == {};
      C.CleanNothing(g.s);
    } else {
      match e
      case SubmitTask(o, d) => SubmitKeepsExact(g.s, o, d);
      case StopEnqueue(o) => AddTaskKeepsExact(g.s, o);
      case MergeReport(w, report, objs) => MergeKeepsExact(g.s, w, report, objs);
    }
  }

  lemma AnswerKeepsExact(g: Manager, e: Event)
    requires Sound(g) && Exact(g.s) && Enabled(g, e) && e.SendAnswer?
    ensures Exact(Next(g, e).s)
  {
    match e.answer
    case Accepted => assert Commit(g.s, g.sending.o, g.sending.w, g.sending.te).db == g.s.db;
    case Retry => AddTaskKeepsExact(g.s, g.sending.o);
    case Undecodable =>
  }

  lemma {:induction false} RunIsExact(workers: seq<Worker>, trace: seq<Manager>, events: seq<Event>, i: nat)
    requires Run(workers, trace, events) && i <= |events| && trace[i].cleaned == {}
    ensures Exact(trace[i].s)
  {
    if i == 0 {
      NewIsCoherent(workers);
    } else {
      assert trace[i] == Next(trace[i - 1], events[i - 1]);
      assert trace[i - 1].cleaned == {};
      RunIsExact(workers, trace, events, i - 1);
      RunIsSound(workers, trace, events, i - 1);
      StepKeepsExact(trace[i - 1], events[i - 1]);
    }
  }

  // ---------- List and map, whatever was cleaned up ----------

  lemma StepKeepsCount(g: Manager, e: Event)
    requires Sound(g) && Enabled(g, e) && OneEntryPerObject(g.s)
    ensures OneEntryPerObject(Next(g, e).s)
  {
    if Quiet(e) {
      QuietStep(g, e);
    } else if Writes(e) {
      var o, d := WriteStep(g, e);
      CountAdded(g.s.heap, o, d);
    } else if e.SendAnswer? {
      AnswerKeepsCount(g, e);
    } else {
      match e
      case SubmitTask(o, d) => SubmitKeepsCount(g.s, o, d);
      case StopEnqueue(o) => AddTaskKeepsCount(g.s, o);
      case MergeReport(w, report, objs) => MergeKeepsCount(g.s, w, report, objs);
      case CleanUpTasks(now) =>
    }
  }

  lemma AnswerKeepsCount(g: Manager, e: Event)
    requires Sound(g) && Enabled(g, e) && OneEntryPerObject(g.s) && e.SendAnswer?
    ensures OneEntryPerObject(Next(g, e).s)
  {
    match e.answer
    case Accepted =>
    case Retry => AddTaskKeepsCount(g.s, g.sending.o);
    case Undecodable =>
  }

  lemma {:induction false} RunKeepsCount(workers: seq<Worker>, trace: seq<Manager>, events: seq<Event>, i: nat)
    requires Run(workers, trace, events) && i <= |events|
    ensures OneEntryPerObject(trace[i].s)
  {
    if i > 0 {
      RunKeepsCount(workers, trace, events, i - 1);
      RunIsSound(workers, trace, events, i - 1);
      assert Enabled(trace[i - 1], events[i - 1]);
      StepKeepsCount(trace[i - 1], events[i - 1]);
    }
  }

  /**
   In every reachable state the sorted list is the objects of the task map, each exactly once, if and only
   if the two have the same number of entries; as long as cleanup has removed nothing, they have.
   */
  lemma SortedListRefinesTaskMap(workers: seq<Worker>, trace: seq<Manager>, events: seq<Event>, i: nat)
    requires Run(workers, trace, events) && i <= |events|
    ensures var s := trace[i].s;
            && (multiset(s.sorted) == multiset(s.db.Values) <==> |s.sorted| == |s.db|)
            && (trace[i].cleaned == {} ==> |s.sorted| == |s.db|)
  {
    RunKeepsCount(workers, trace, events, i);
    RunIsSound(workers, trace, events, i);
    ListIsMapWhenAsLong(trace[i].s);
    if trace[i].cleaned == {} {
      RunIsExact(workers, trace, events, i);
      ExactListIsTaskMap(trace[i].s);
    }
  }

  // ---------- No task is lost but through the drop exits and cleanup ----------

  /** The IDs of the pending queue. */
  function PendingIds(g: Manager): set<Id> {
    set o | o in g.s.queue :: IdOf(g, o)
  }

  function InFlight(g: Manager): set<Id> {
    if g.sending.Idle? then {} else {IdOf(g, g.sending.o)}
  }

  /** The ID is pending, held by `SendWork`, assigned, or left through cleanup or a drop exit. */
  ghost predicate IsAccounted(g: Manager, id: Id) {
    id in PendingIds(g) || id in InFlight(g) || id in g.s.owner || id in g.cleaned || id in g.dropped
  }

  /** Every ID ever added is somewhere, or left through one of the two named doors. */
  ghost predicate Accounted(g: Manager) {
    forall id :: id in g.added ==> IsAccounted(g, id)
  }

  /** Data of an object changes without changing its ID. */
  lemma StepKeepsIds(g: Manager, e: Event, o: Task)
    requires Sound(g) && Enabled(g, e) && o in g.s.heap
    ensures IdOf(Next(g, e), o) == IdOf(g, o)
  {
    if Quiet(e) {
      QuietStep(g, e);
    } else if Writes(e) {
      var p, d := WriteStep(g, e);
    } else if e.MergeReport? {
      MergeKeepsIds(g.s, e.w, e.report, e.objs, o);
    } else if e.SubmitTask? {
      assert Next(g, e).s.heap == g.s.heap[e.o := e.d];
    } else {
      HeapUnchanged(g, e);
    }
  }

  lemma HeapUnchanged(g: Manager, e: Event)
    requires e.StopEnqueue? || e.SendAnswer? || e.CleanUpTasks?
    ensures Next(g, e).s.heap == g.s.heap && Next(g, e).s.workers == g.s.workers
  {
    match e
    case StopEnqueue(o) =>
    case SendAnswer(answer) =>
      match answer {
        case Accepted =>
        case Retry =>
        case Undecodable =>
      }
    case CleanUpTasks(now) =>
  }

  lemma {:induction false} MergeKeepsIds(s: MState, w: Worker, report: seq<TaskData>, objs: seq<Task>, o: Task)
    requires Keyed(s) && |objs| == |report| && NewObjects(s.heap, objs) && o in s.heap
    ensures var m := Merge(s, w, report, objs); o in m.heap && m.heap[o].id == s.heap[o].id
  {
    var n := |report|;
    if n > 0 {
      MergeKeepsIds(s, w, report[..n - 1], objs[..n - 1], o);
      MergeKeepsKeyed(s, w, report[..n - 1], objs[..n - 1]);
      LastIsNew(s, w, report, objs);
    }
  }

  /** An ID enters `added` only with its object entering the queue. */
  lemma StepAdds(g: Manager, e: Event, id: Id)
    requires Sound(g) && Enabled(g, e) && id in Next(g, e).added && id !in g.added
    ensures id in PendingIds(Next(g, e))
  {
    var g' := Next(g, e);
    if e.SubmitTask? {
      assert e.o in g'.s.queue && IdOf(g', e.o) == e.d.id;
    } else if e.StopEnqueue? {
      assert e.o in g'.s.queue && IdOf(g', e.o) == id;
    } else {
      assert e.SendAnswer? && e.answer == Retry;
      assert g.sending.o in g'.s.queue && IdOf(g', g.sending.o) == id;
    }
  }

  /** A pending ID stays pending, except that the head of the queue goes in flight. */
  lemma PendingStaysAccounted(g: Manager, e: Event, id: Id)
    requires Sound(g) && Enabled(g, e) && id in PendingIds(g)
    ensures IsAccounted(Next(g, e), id)
  {
    var g' := Next(g, e);
    var o :| o in g.s.queue && IdOf(g, o) == id;
    StepKeepsIds(g, e, o);
    if e.SendDequeue? {
      assert o == g.s.queue[0] || o in g'.s.queue;
    } else {
      StepKeepsQueue(g, e, o);
    }
  }

  lemma StepKeepsQueue(g: Manager, e: Event, o: Task)
    requires !e.SendDequeue? && o in g.s.queue
    ensures o in Next(g, e).s.queue
  {
    if Quiet(e) {
      QuietStep(g, e);
    } else if e.MergeReport? && |e.objs| == |e.report| {
      MergeKeepsObjects(g.s, e.w, e.report, e.objs);
    }
  }

  /** What `SendWork` holds is committed, re-queued or dropped, or stays held. */
  lemma InFlightStaysAccounted(g: Manager, e: Event, id: Id)
    requires Sound(g) && Enabled(g, e) && id in InFlight(g)
    ensures IsAccounted(Next(g, e), id)
  {
    var g', o := Next(g, e), g.sending.o;
    StepKeepsIds(g, e, o);
    if e.SendAnswer? {
      if e.answer != Undecodable {
        DecodedAnswerKeepsTask(g, e);
      }
    } else if e.SendReadHealthy? || e.SendReadReady? {
      assert g'.sending.Idle? ==> id in g'.dropped;
    } else {
      StaysHeld(g, e);
    }
  }

  lemma DecodedAnswerKeepsTask(g: Manager, e: Event)
    requires Sound(g) && Enabled(g, e) && e.SendAnswer? && e.answer != Undecodable
    ensures var id, g' := IdOf(g, g.sending.o), Next(g, e); id in PendingIds(g') || id in g'.s.owner
  {
    var g', o := Next(g, e), g.sending.o;
    HeapUnchanged(g, e);
    assert e.answer == Retry ==> o in g'.s.queue && IdOf(g', o) == IdOf(g, o);
  }

  /** An assigned ID stays assigned unless cleanup removes it. */
  lemma OwnedStaysAccounted(g: Manager, e: Event, id: Id)
    requires Sound(g) && Enabled(g, e) && id in g.s.owner
    ensures IsAccounted(Next(g, e), id)
  {
    if Quiet(e) {
      QuietStep(g, e);
    } else if e.MergeReport? {
      MergeKeepsObjects(g.s, e.w, e.report, e.objs);
    }
  }

  lemma StepKeepsAccounted(g: Manager, e: Event, id: Id)
    requires Sound(g) && Enabled(g, e) && (id in g.added ==> IsAccounted(g, id))
    ensures id in Next(g, e).added ==> IsAccounted(Next(g, e), id)
  {
    if id !in g.added {
      if id in Next(g, e).added {
        StepAdds(g, e, id);
      }
    } else if id in PendingIds(g) {
      PendingStaysAccounted(g, e, id);
    } else if id in InFlight(g) {
      InFlightStaysAccounted(g, e, id);
    } else if id in g.s.owner {
      OwnedStaysAccounted(g, e, id);
    } else {
      HistoryGrows(g, e);
    }
  }

  lemma HistoryGrows(g: Manager, e: Event)
    ensures g.cleaned <= Next(g, e).cleaned && g.dropped <= Next(g, e).dropped && g.added <= Next(g, e).added
  {
  }

  lemma {:induction false} RunIsAccounted(workers: seq<Worker>, trace: seq<Manager>, events: seq<Event>, i: nat)
    requires Run(workers, trace, events) && i <= |events|
    ensures Accounted(trace[i])
  {
    if i > 0 {
      RunIsAccounted(workers, trace, events, i - 1);
      RunIsSound(workers, trace, events, i - 1);
      assert Enabled(trace[i - 1], events[i - 1]);
      forall id | id in trace[i].added ensures IsAccounted(trace[i], id) {
        StepKeepsAccounted(trace[i - 1], events[i - 1], id);
      }
    }
  }

  /**
   If `SendWork` took no drop exit, every ID ever passed to `AddTask` is pending, held by `SendWork`,
   assigned to a worker, or was removed by cleanup.
   */
  lemma NothingIsLostWithoutDrops(workers: seq<Worker>, trace: seq<Manager>, events: seq<Event>, i: nat, id: Id)
    requires Run(workers, trace, events) && i <= |events| && trace[i].dropped == {}
    requires id in trace[i].added
    ensures id in PendingIds(trace[i]) || id in InFlight(trace[i]) || id in trace[i].s.owner || id in trace[i].cleaned
  {
    RunIsAccounted(workers, trace, events, i);
  }

  /** The exits of `SendWork` that neither commit nor re-queue:
      no worker to choose, or an error answer that does not decode. */
  predicate TakesDropExit(g: Manager, e: Event) {
    || (g.sending.Dequeued? && e.SendReadHealthy? && |HealthyWorkers(g.s.workers, g.s.health)| == 0)
    || (g.sending.SawHealthy? && e.SendReadReady?
        && |InBoth(g.sending.healthy, ReadyWorkers(g.s.workers, g.s.health))| == 0)
    || (g.sending.Posted? && e.SendAnswer? && e.answer == Undecodable)
  }

  /**
   A step loses the task `SendWork` holds - leaves it neither pending, nor held, nor assigned - exactly
   when it takes a drop exit and the task is not also queued again or assigned already.
   */
  lemma HeldTaskIsLostExactlyByDrop(g: Manager, e: Event)
    requires Sound(g) && Enabled(g, e) && !g.sending.Idle?
    ensures var id, g' := IdOf(g, g.sending.o), Next(g, e);
      (id !in PendingIds(g') && id !in InFlight(g') && id !in g'.s.owner)
      <==> (TakesDropExit(g, e) && id !in PendingIds(g) && id !in g.s.owner)
  {
    var o, g' := g.sending.o, Next(g, e);
    if TakesDropExit(g, e) {
      assert g' == Drop(g);
    } else if e.SendAnswer? {
      DecodedAnswerKeepsTask(g, e);
    } else {
      StepKeepsIds(g, e, o);
      StaysHeld(g, e);
    }
  }

  lemma StaysHeld(g: Manager, e: Event)
    requires Enabled(g, e) && !g.sending.Idle? && !TakesDropExit(g, e) && !e.SendAnswer?
    ensures !Next(g, e).sending.Idle? && Next(g, e).sending.o == g.sending.o
  {
  }

  /** The drop exits are reachable: a send before any health check loses its task. */
  lemma EarlySendLosesTask(w: Worker, o: Task, d: TaskData) returns (trace: seq<Manager>, events: seq<Event>)
    requires d.state == Pending && d.containerID == "" && d.end == ZERO_TIME
    ensures Run([w], trace, events) && |events| == 3
    ensures
      && d.id in trace[3].added && d.id in trace[3].s.db
      && d.id !in PendingIds(trace[3]) && d.id !in InFlight(trace[3])
      && d.id !in trace[3].s.owner && d.id !in trace[3].cleaned
  {
    trace, events := [Initial([w])], [];
    trace, events := Extend([w], trace, events, SubmitTask(o, d));
    assert trace[1].s.queue == [o];
    trace, events := Extend([w], trace, events, SendDequeue);
    var g := trace[2];
    assert g.sending == Dequeued(o) && g.s.queue == [] && g.s.owner == map[] && g.s.health == Health.Initial([w]);
    FilterMembers([w], (w: Worker) => g.s.health.IsHealthy(w), w);
    assert HealthyWorkers([w], g.s.health) == [];
    trace, events := Extend([w], trace, events, SendReadHealthy);
  }

  lemma TaskMapGrows(g: Manager, e: Event)
    requires !e.CleanUpTasks?
    ensures g.s.db.Keys <= Next(g, e).s.db.Keys
  {
    if Quiet(e) {
      QuietStep(g, e);
    } else if e.MergeReport? && |e.objs| == |e.report| {
      MergeKeepsObjects(g.s, e.w, e.report, e.objs);
    }
  }

  /** The task map loses an ID only in a cleanup step that found it completed and expired. */
  lemma TaskMapLosesOnlyByCleanup(g: Manager, e: Event, id: Id)
    requires id in g.s.db && id !in Next(g, e).s.db
    ensures e.CleanUpTasks? && C.IsOldAndCompleted(g.s, id, e.now)
  {
    if !e.CleanUpTasks? {
      TaskMapGrows(g, e);
    }
  }

  /**
   Over a run: an ID that was in the task map and no longer is was removed by a cleanup in between, at which
   its task was completed and had started more than 24 hours before.
   */
  lemma {:induction false} TaskMapLossIsCleanup(
      workers: seq<Worker>, trace: seq<Manager>, events: seq<Event>, i: nat, j: nat, id: Id)
    returns (k: nat)
    requires Run(workers, trace, events) && i <= j <= |events|
    requires id in trace[i].s.db && id !in trace[j].s.db
    ensures i <= k < j && events[k].CleanUpTasks? && id in trace[k].s.db
    ensures var d := At(trace[k].s.heap, trace[k].s.db[id]);
            d.state == Completed && d.start + 86_400_000_000_000 < events[k].now
    decreases j
  {
    k := j - 1;
    if id in trace[k].s.db {
      TaskMapLosesOnlyByCleanup(trace[k], events[k], id);
    } else {
      k := TaskMapLossIsCleanup(workers, trace, events, i, k, id);
    }
  }

  // ---------- What the sorted list holds once cleanup has removed tasks ----------

  lemma StepKeepsListing(g: Manager, e: Event)
    requires Sound(g) && Enabled(g, e) && ListsMapAndCleaned(g.s, g.cleaned)
    ensures ListsMapAndCleaned(Next(g, e).s, Next(g, e).cleaned)
  {
    if Quiet(e) {
      QuietStep(g, e);
    } else if Writes(e) {
      WriteKeepsListing(g, e);
    } else {
      BigStepKeepsListing(g, e);
    }
  }

  lemma WriteKeepsListing(g: Manager, e: Event)
    requires Sound(g) && Enabled(g, e) && ListsMapAndCleaned(g.s, g.cleaned) && Writes(e)
    ensures ListsMapAndCleaned(Next(g, e).s, Next(g, e).cleaned)
  {
    var o, d := WriteStep(g, e);
    ListedIdsKept(g.s.heap, g.s.heap[o := d], g.s.sorted);
  }

  lemma BigStepKeepsListing(g: Manager, e: Event)
    requires Sound(g) && Enabled(g, e) && ListsMapAndCleaned(g.s, g.cleaned) && !Quiet(e) && !Writes(e)
    ensures ListsMapAndCleaned(Next(g, e).s, Next(g, e).cleaned)
  {
    match e
    case SubmitTask(o, d) => SubmitKeepsListing(g.s, o, d, g.cleaned);
    case StopEnqueue(o) => AddTaskKeepsListing(g.s, o, g.cleaned);
    case SendAnswer(answer) => AnswerKeepsListing(g, e);
    case MergeReport(w, report, objs) => MergeKeepsListing(g.s, w, report, objs, g.cleaned);
    case CleanUpTasks(now) => CleanUpKeepsListing(g.s, now, g.cleaned);
  }

  lemma AnswerKeepsListing(g: Manager, e: Event)
    requires Sound(g) && Enabled(g, e) && ListsMapAndCleaned(g.s, g.cleaned) && e.SendAnswer?
    ensures ListsMapAndCleaned(Next(g, e).s, Next(g, e).cleaned)
  {
    match e.answer
    case Accepted => CommitKeepsListing(g.s, g.sending.o, g.sending.w, g.sending.te, g.cleaned);
    case Retry => AddTaskKeepsListing(g.s, g.sending.o, g.cleaned);
    case Undecodable =>
  }

  lemma {:induction false} RunKeepsListing(workers: seq<Worker>, trace: seq<Manager>, events: seq<Event>, i: nat)
    requires Run(workers, trace, events) && i <= |events|
    ensures ListsMapAndCleaned(trace[i].s, trace[i].cleaned)
  {
    if i > 0 {
      RunKeepsListing(workers, trace, events, i - 1);
      RunIsSound(workers, trace, events, i - 1);
      assert Enabled(trace[i - 1], events[i - 1]);
      StepKeepsListing(trace[i - 1], events[i - 1]);
    }
  }

  /**
   With cleanup in the run, the sorted list still lists every cleaned ID: an ID is listed exactly if the
   task map has it or cleanup once removed it. So list and map name the same tasks exactly when every
   cleaned ID is back in the map.
   */
  lemma ListedExactlyMapAndCleaned(
      workers: seq<Worker>, trace: seq<Manager>, events: seq<Event>, i: nat)
    requires Run(workers, trace, events) && i <= |events|
    ensures var g := trace[i];
            && (forall id :: id in ListedIds(g.s.heap, g.s.sorted) <==> id in g.s.db || id in g.cleaned)
            && (ListedIds(g.s.heap, g.s.sorted) == g.s.db.Keys <==> g.cleaned <= g.s.db.Keys)
  {
    RunKeepsListing(workers, trace, events, i);
  }

  /** A cleaned task that its worker still reports comes back as a second object and is listed twice. */
  lemma ReadoptedTaskIsListedTwice(w: Worker, e: TaskData, o: Task, p: Task)
    returns (trace: seq<Manager>, events: seq<Event>)
    requires o != p && e.state == Completed
    ensures Run([w], trace, events) && |events| == 3
    ensures var s := trace[3].s;
            && s.db.Keys == {e.id} && multiset(s.sorted) == multiset{o, p}
            && At(s.heap, o).id == e.id && At(s.heap, p).id == e.id
  {
    trace, events := [Initial([w])], [];
    trace, events := AdoptedOne(w, trace, events, e, o);
    trace, events := CleanedOne(w, trace, events, e.id, e.start + RETENTION + 1);
    trace, events := AdoptedOne(w, trace, events, e, p);
  }

  /** The report of one unknown task. */
  lemma AdoptedOne(w: Worker, trace: seq<Manager>, events: seq<Event>, e: TaskData, o: Task)
    returns (trace': seq<Manager>, events': seq<Event>)
    requires Run([w], trace, events)
    requires var s := trace[|events|].s; s.db == map[] && o !in s.heap && s.workers == [w]
    ensures Run([w], trace', events') && events' == events + [MergeReport(w, [e], [o])]
    ensures var s, s' := trace[|events|].s, trace'[|events'|].s;
            && s'.db == map[e.id := o] && s'.heap == s.heap[o := e] && s'.workers == [w]
            && multiset(s'.sorted) == multiset(s.sorted) + multiset{o}
  {
    var s := trace[|events|].s;
    trace', events' := Extend([w], trace, events, MergeReport(w, [e], [o]));
    MergeOfOne(s, w, e, o);
    MergeOneSorted(s, w, e, o);
  }

  /** A cleanup when the only task of the map has expired. */
  lemma CleanedOne(w: Worker, trace: seq<Manager>, events: seq<Event>, id: Id, now: Time)
    returns (trace': seq<Manager>, events': seq<Event>)
    requires Run([w], trace, events)
    requires var s := trace[|events|].s; s.db.Keys == {id} && Expired(s, id, now - RETENTION) && s.workers == [w]
    ensures Run([w], trace', events') && events' == events + [CleanUpTasks(now)]
    ensures var s, s' := trace[|events|].s, trace'[|events'|].s;
            s'.db == map[] && s'.heap == s.heap && s'.sorted == s.sorted && s'.workers == [w]
  {
    assert id in Victims(trace[|events|].s, now - RETENTION);
    trace', events' := Extend([w], trace, events, CleanUpTasks(now));
  }

  lemma MergeOfOne(s: MState, w: Worker, e: TaskData, o: Task)
    ensures Merge(s, w, [e], [o]) == MergeOne(s, w, e, o)
  {
  }
}
