/**
 The manager together with any number of workers, and the reports that travel between them.

 IDs come from `uuid.New`, which never repeats: an ID issued by the manager or by a worker is new to
 the whole cluster. A worker renames every task it is sent, so the posts of `SendWork` and the tasks
 a worker accepts share no ID, and accepting is an event of the worker alone.
 */
module Cluster {
  import opened Tasks
  import opened SortedList
  import opened ManagerState
  import opened Reconcile
  import opened Coherence
  import M = ManagerRuns
  import Sends
  import opened WorkerState
  import W = WorkerRuns

  datatype Issuer = ByManager | ByWorker(w: Worker)

  /** A decoded answer to GET /tasks?page=1&limit=1000 on its way to the merge. */
  datatype Report = Report(w: Worker, tasks: seq<TaskData>)

  datatype Cluster = Cluster(
    m: M.Manager,
    ws: map<Worker, WState>,
    net: multiset<Report>,
    issuer: map<Id, Issuer>,   // who issued each ID so far
    stamp: map<Id, Time>)      // the start time given to each ID so far

  datatype Event =
    | ManagerDoes(e: M.Event)
    | WorkerDoes(w: Worker, we: WEvent)
    | Fetch(w: Worker, ids: seq<Id>)

  function Initial(workers: seq<Worker>): Cluster {
    Cluster(M.Initial(workers), map w | w in workers :: NEW_WORKER, multiset{}, map[], map[])
  }

  /** The first page of a listing: the map in some order, cut at 1000 tasks. */
  ghost predicate IsFirstPage(s: WState, ids: seq<Id>) {
    && (forall i, j :: 0 <= i < j < |ids| ==> ids[i] != ids[j])
    && (forall id :: id in ids ==> id in s.tasks)
    && |ids| == if |s.tasks| < 1000 then |s.tasks| else 1000
  }

  function Copies(s: WState, ids: seq<Id>): seq<TaskData> {
    seq(|ids|, i requires 0 <= i < |ids| => if ids[i] in s.tasks then At(s.heap, s.tasks[ids[i]]) else NO_TASK)
  }

  ghost predicate Enabled(c: Cluster, e: Event) {
    match e
    case ManagerDoes(me) =>
      && M.Enabled(c.m, me)
      && (me.SubmitTask? ==> me.d.id !in c.issuer)
      && (me.MergeReport? ==> Report(me.w, me.report) in c.net)
    case WorkerDoes(w, we) =>
      && w in c.ws && CanStep(c.ws[w], we)
      && (we.Accept? ==> we.d.id !in c.issuer)
    case Fetch(w, ids) => w in c.ws && IsFirstPage(c.ws[w], ids)
  }

  function Next(c: Cluster, e: Event): Cluster {
    match e
    case ManagerDoes(me) =>
      var c' := c.(m := M.Next(c.m, me));
      if me.SubmitTask? then
        c'.(issuer := c.issuer[me.d.id := ByManager], stamp := c.stamp[me.d.id := me.d.start])
      else if me.MergeReport? then c'.(net := c.net - multiset{Report(me.w, me.report)})
      else c'
    case WorkerDoes(w, we) =>
      if w !in c.ws then c
      else
        var c' := c.(ws := c.ws[w := Step(c.ws[w], we)]);
        if we.Accept? then c'.(issuer := c.issuer[we.d.id := ByWorker(w)])
        else if we.Start? && c.ws[w].loop.Taken? then
          c'.(stamp := c.stamp[At(c.ws[w].heap, c.ws[w].loop.o).id := we.now])
        else c'
    case Fetch(w, ids) =>
      if w in c.ws then c.(net := c.net + multiset{Report(w, Copies(c.ws[w], ids))}) else c
  }

  ghost predicate Run(workers: seq<Worker>, trace: seq<Cluster>, events: seq<Event>) {
    && |trace| == |events| + 1
    && trace[0] == Initial(workers)
    && forall i :: 0 <= i < |events| ==> Enabled(trace[i], events[i]) && trace[i + 1] == Next(trace[i], events[i])
  }

  // ---------- The invariant ----------

  /** What holds of one worker: its IDs are its own, and an ID is stamped exactly from its start on. */
  ghost predicate WorkerSound(w: Worker, s: WState, issuer: map<Id, Issuer>, stamp: map<Id, Time>) {
    && W.Inv(s)
    && (forall o :: o in s.heap ==> s.heap[o].id in issuer && issuer[s.heap[o].id] == ByWorker(w))
    && (forall o :: o in s.heap && s.heap[o].id in s.tasks ==>
          s.heap[o].id in stamp && s.heap[o].start == stamp[s.heap[o].id])
    && (forall o :: o in s.heap && s.heap[o].id !in s.tasks ==> s.heap[o].id !in stamp)
  }

  /** What holds of a report on its way: live tasks of its worker, with the stamped start times. */
  ghost predicate ReportSound(r: Report, issuer: map<Id, Issuer>, stamp: map<Id, Time>) {
    && ReportStamped(r.tasks, stamp)
    && (forall e :: e in r.tasks ==> e.id in issuer && issuer[e.id] == ByWorker(r.w) && Live(e.state))
  }

  /** A task under an ID the manager issued: never running, never failed, without a container. */
  predicate NeverRan(d: TaskData) {
    (d.state == Pending || d.state == Scheduled || d.state == Completed) && d.containerID == ""
  }

  ghost predicate ManagerHeapSound(h: Heap, issuer: map<Id, Issuer>) {
    forall o :: o in h ==> h[o].id in issuer && (issuer[h[o].id] == ByManager ==> NeverRan(h[o]))
  }

  ghost predicate ManagerSound(g: M.Manager, issuer: map<Id, Issuer>, stamp: map<Id, Time>) {
    && M.Sound(g)
    && Stamped(g.s.heap, stamp)
    && ManagerHeapSound(g.s.heap, issuer)
    && SortedByStart(g.s.heap, g.s.sorted)
  }

  ghost predicate WorkersSound(ws: map<Worker, WState>, issuer: map<Id, Issuer>, stamp: map<Id, Time>) {
    forall w :: w in ws ==> WorkerSound(w, ws[w], issuer, stamp)
  }

  ghost predicate NetSound(net: multiset<Report>, issuer: map<Id, Issuer>, stamp: map<Id, Time>) {
    forall r :: r in net ==> ReportSound(r, issuer, stamp)
  }

  ghost predicate Inv(c: Cluster) {
    && ManagerSound(c.m, c.issuer, c.stamp)
    && WorkersSound(c.ws, c.issuer, c.stamp)
    && NetSound(c.net, c.issuer, c.stamp)
    && (forall w :: w in c.ws <==> w in c.m.s.workers)
    && (forall id :: id in c.stamp ==> id in c.issuer)
  }

  // ---------- Steps of the manager ----------

  lemma ManagerKeepsSorted(g: M.Manager, e: M.Event, stamp: map<Id, Time>)
    requires M.Sound(g) && M.Enabled(g, e) && !e.SubmitTask?
    requires Stamped(g.s.heap, stamp) && SortedByStart(g.s.heap, g.s.sorted)
    requires e.MergeReport? ==> ReportStamped(e.report, stamp)
    ensures Stamped(M.Next(g, e).s.heap, stamp)
    ensures SortedByStart(M.Next(g, e).s.heap, M.Next(g, e).s.sorted)
  {
    if M.Quiet(e) {
      M.QuietStep(g, e);
    } else if M.Writes(e) {
      WriteKeepsSorted(g, e, stamp);
    } else if e.MergeReport? {
      MergeKeepsSorted(g.s, e.w, e.report, e.objs, stamp);
    } else {
      M.HeapUnchanged(g, e);
      AddKeepsSorted(g, e, stamp);
    }
  }

  lemma WriteKeepsSorted(g: M.Manager, e: M.Event, stamp: map<Id, Time>)
    requires M.Sound(g) && M.Enabled(g, e) && M.Writes(e)
    requires Stamped(g.s.heap, stamp) && SortedByStart(g.s.heap, g.s.sorted)
    ensures Stamped(M.Next(g, e).s.heap, stamp)
    ensures SortedByStart(M.Next(g, e).s.heap, M.Next(g, e).s.sorted)
  {
    var o, d := M.WriteStep(g, e);
    WriteKeepsStamped(g.s.heap, o, d, stamp);
    SortKept(g.s.heap, g.s.heap[o := d], g.s.sorted);
  }

  lemma WriteKeepsStamped(h: Heap, o: Task, d: TaskData, stamp: map<Id, Time>)
    requires Stamped(h, stamp) && o in h && d.id == h[o].id && d.start == h[o].start
    ensures Stamped(h[o := d], stamp)
    ensures forall x :: At(h[o := d], x).start == At(h, x).start
  {
  }

  lemma AddKeepsSorted(g: M.Manager, e: M.Event, stamp: map<Id, Time>)
    requires M.Sound(g) && M.Enabled(g, e) && (e.StopEnqueue? || e.SendAnswer? || e.CleanUpTasks?)
    requires Stamped(g.s.heap, stamp) && SortedByStart(g.s.heap, g.s.sorted)
    ensures SortedByStart(g.s.heap, M.Next(g, e).s.sorted)
  {
    if e.StopEnqueue? {
      AddTaskKeepsSorted(g.s, e.o, stamp);
    } else if e.SendAnswer? {
      AddTaskKeepsSorted(g.s, g.sending.o, stamp);
    }
  }

  /** A merge writes only objects whose IDs the report names. */
  lemma {:induction false} MergeTouchesReported(s: MState, w: Worker, report: seq<TaskData>, objs: seq<Task>, o: Task)
    requires Keyed(s) && |objs| == |report| && NewObjects(s.heap, objs)
    requires o in Merge(s, w, report, objs).heap
    ensures var m := Merge(s, w, report, objs);
            (o in s.heap && m.heap[o] == s.heap[o]) || exists e :: e in report && e.id == m.heap[o].id
  {
    var n := |report|;
    if n > 0 {
      var init, e := Merge(s, w, report[..n - 1], objs[..n - 1]), report[n - 1];
      MergeKeepsKeyed(s, w, report[..n - 1], objs[..n - 1]);
      LastIsNew(s, w, report, objs);
      MergeOneTouches(init, w, e, objs[n - 1], o);
      if o in init.heap && Merge(s, w, report, objs).heap[o] == init.heap[o] {
        MergeTouchesReported(s, w, report[..n - 1], objs[..n - 1], o);
      } else {
        assert e in report;
      }
    }
  }

  lemma MergeOneTouches(s: MState, w: Worker, e: TaskData, o: Task, x: Task)
    requires Keyed(s) && o !in s.heap && x in MergeOne(s, w, e, o).heap
    ensures var m := MergeOne(s, w, e, o);
            (x in s.heap && m.heap[x] == s.heap[x]) || m.heap[x].id == e.id
  {
  }

  lemma MergeKeepsHeapSound(s: MState, w: Worker, report: seq<TaskData>, objs: seq<Task>, issuer: map<Id, Issuer>)
    requires Keyed(s) && |objs| == |report| && NewObjects(s.heap, objs) && ManagerHeapSound(s.heap, issuer)
    requires forall e :: e in report ==> e.id in issuer && issuer[e.id] == ByWorker(w)
    ensures ManagerHeapSound(Merge(s, w, report, objs).heap, issuer)
  {
    var h := Merge(s, w, report, objs).heap;
    forall o | o in h ensures h[o].id in issuer && (issuer[h[o].id] == ByManager ==> NeverRan(h[o])) {
      MergeTouchesReported(s, w, report, objs, o);
    }
  }

  lemma ManagerKeepsHeapSound(g: M.Manager, e: M.Event, issuer: map<Id, Issuer>)
    requires M.Sound(g) && M.Enabled(g, e) && !e.SubmitTask? && ManagerHeapSound(g.s.heap, issuer)
    requires e.MergeReport? ==> forall d :: d in e.report ==> d.id in issuer && issuer[d.id] == ByWorker(e.w)
    ensures ManagerHeapSound(M.Next(g, e).s.heap, issuer)
  {
    if M.Quiet(e) {
      M.QuietStep(g, e);
    } else if M.Writes(e) {
      WriteKeepsHeapSound(g, e, issuer);
    } else if e.MergeReport? {
      MergeKeepsHeapSound(g.s, e.w, e.report, e.objs, issuer);
    } else {
      M.HeapUnchanged(g, e);
    }
  }

  lemma WriteKeepsHeapSound(g: M.Manager, e: M.Event, issuer: map<Id, Issuer>)
    requires M.Sound(g) && M.Enabled(g, e) && M.Writes(e) && ManagerHeapSound(g.s.heap, issuer)
    ensures ManagerHeapSound(M.Next(g, e).s.heap, issuer)
  {
  }

  lemma ManagerStepKeepsInv(c: Cluster, e: M.Event)
    requires Inv(c) && Enabled(c, ManagerDoes(e)) && !e.SubmitTask?
    ensures Inv(Next(c, ManagerDoes(e)))
  {
    if e.MergeReport? {
      assert ReportSound(Report(e.w, e.report), c.issuer, c.stamp);
    }
    ManagerStaysSound(c.m, e, c.issuer, c.stamp);
    M.StepKeepsObjects(c.m, e);
    var c' := Next(c, ManagerDoes(e));
    assert c' == c.(m := M.Next(c.m, e), net := c'.net);
    assert forall r :: r in c'.net ==> r in c.net;
  }

  lemma ManagerStaysSound(g: M.Manager, e: M.Event, issuer: map<Id, Issuer>, stamp: map<Id, Time>)
    requires ManagerSound(g, issuer, stamp) && M.Enabled(g, e) && !e.SubmitTask?
    requires e.MergeReport? ==> ReportSound(Report(e.w, e.report), issuer, stamp)
    ensures ManagerSound(M.Next(g, e), issuer, stamp)
  {
    M.StepKeepsCoherent(g, e);
    M.StepKeepsThreads(g, e);
    ManagerKeepsSorted(g, e, stamp);
    ManagerKeepsHeapSound(g, e, issuer);
  }

  lemma IssueKeepsWorkers(
      ws: map<Worker, WState>, issuer: map<Id, Issuer>, stamp: map<Id, Time>, id: Id, who: Issuer, t: Time)
    requires WorkersSound(ws, issuer, stamp) && id !in issuer
    ensures WorkersSound(ws, issuer[id := who], stamp)
    ensures WorkersSound(ws, issuer[id := who], stamp[id := t])
  {
  }

  lemma IssueKeepsNet(
      net: multiset<Report>, issuer: map<Id, Issuer>, stamp: map<Id, Time>, id: Id, who: Issuer, t: Time)
    requires NetSound(net, issuer, stamp) && id !in issuer
    ensures NetSound(net, issuer[id := who], stamp)
    ensures NetSound(net, issuer[id := who], stamp[id := t])
  {
  }

  lemma SubmitKeepsInv(c: Cluster, e: M.Event)
    requires Inv(c) && Enabled(c, ManagerDoes(e)) && e.SubmitTask?
    ensures Inv(Next(c, ManagerDoes(e)))
  {
    var id := e.d.id;
    var issuer, stamp := c.issuer[id := ByManager], c.stamp[id := e.d.start];
    assert Next(c, ManagerDoes(e)) == c.(m := M.Next(c.m, e), issuer := issuer, stamp := stamp);
    SubmitStaysSound(c.m, e, c.issuer, c.stamp);
    M.StepKeepsObjects(c.m, e);
    IssueKeepsWorkers(c.ws, c.issuer, c.stamp, id, ByManager, e.d.start);
    IssueKeepsNet(c.net, c.issuer, c.stamp, id, ByManager, e.d.start);
  }

  lemma SubmitStaysSound(g: M.Manager, e: M.Event, issuer: map<Id, Issuer>, stamp: map<Id, Time>)
    requires ManagerSound(g, issuer, stamp) && M.Enabled(g, e) && e.SubmitTask? && e.d.id !in issuer
    requires forall id :: id in stamp ==> id in issuer
    ensures ManagerSound(M.Next(g, e), issuer[e.d.id := ByManager], stamp[e.d.id := e.d.start])
  {
    M.StepKeepsCoherent(g, e);
    M.StepKeepsThreads(g, e);
    SubmitKeepsSorted(g.s, e.o, e.d, stamp);
    assert M.Next(g, e).s.heap == g.s.heap[e.o := e.d];
  }

  // ---------- Steps of a worker ----------

  lemma AcceptKeepsInv(c: Cluster, w: Worker, we: WEvent)
    requires Inv(c) && Enabled(c, WorkerDoes(w, we)) && we.Accept?
    ensures Inv(Next(c, WorkerDoes(w, we)))
  {
    var id := we.d.id;
    var issuer := c.issuer[id := ByWorker(w)];
    assert Next(c, WorkerDoes(w, we)) == c.(ws := c.ws[w := Step(c.ws[w], we)], issuer := issuer);
    IssueKeepsWorkers(c.ws, c.issuer, c.stamp, id, ByWorker(w), 0);
    AcceptKeepsWorker(w, c.ws[w], we, issuer, c.stamp);
    ReplaceWorker(c.ws, w, Step(c.ws[w], we), issuer, c.stamp);
    IssueKeepsNet(c.net, c.issuer, c.stamp, id, ByWorker(w), 0);
  }

  lemma AcceptKeepsWorker(w: Worker, s: WState, we: WEvent, issuer: map<Id, Issuer>, stamp: map<Id, Time>)
    requires WorkerSound(w, s, issuer, stamp) && we.Accept? && CanStep(s, we)
    requires we.d.id in issuer && issuer[we.d.id] == ByWorker(w) && we.d.id !in stamp
    ensures WorkerSound(w, Step(s, we), issuer, stamp)
  {
    W.StepKeepsInv(s, we);
    var t := Step(s, we);
    assert t.heap == s.heap[we.o := we.d] && t.tasks == s.tasks;
    assert we.d.id !in s.tasks;
  }

  /** Any other step of a worker writes only filed tasks, and files a task only by starting it. */
  lemma StepKeepsWorker(w: Worker, s: WState, we: WEvent, issuer: map<Id, Issuer>, stamp: map<Id, Time>)
    requires WorkerSound(w, s, issuer, stamp) && CanStep(s, we) && !we.Accept? && !we.Start?
    ensures WorkerSound(w, Step(s, we), issuer, stamp)
  {
    W.StepKeepsInv(s, we);
    var t := Step(s, we);
    WorkerWritesFiled(s, we);
    forall o | o in t.heap
      ensures t.heap[o].id in issuer && issuer[t.heap[o].id] == ByWorker(w)
      ensures t.heap[o].id in t.tasks ==> t.heap[o].id in stamp && t.heap[o].start == stamp[t.heap[o].id]
      ensures t.heap[o].id !in t.tasks ==> t.heap[o].id !in stamp
    {
      assert o in s.heap && t.heap[o].id == s.heap[o].id && t.heap[o].start == s.heap[o].start;
    }
  }

  lemma WorkerWritesFiled(s: WState, we: WEvent)
    requires W.Inv(s) && CanStep(s, we) && !we.Accept? && !we.Start?
    ensures var t := Step(s, we);
            && t.heap.Keys == s.heap.Keys && t.tasks == s.tasks
            && forall o :: o in s.heap ==> t.heap[o].id == s.heap[o].id && t.heap[o].start == s.heap[o].start
  {
    match we
    case StopRequest(id) =>
    case FinishStop(now, ok) => StopWritesFiled(s, we);
    case MarkFailed(now) => SetStateWritesFiled(s, s.loop.id, now);
    case Inspect(o, gone, now) => SetStateWritesFiled(s, At(s.heap, o).id, now);
    case Take =>
    case BeginStop =>
    case Reject =>
    case Snapshot =>
  }

  lemma SetStateWritesFiled(s: WState, id: Id, now: Time)
    requires W.Inv(s)
    ensures var t := SetTaskState(s, id, Failed, now);
            && t.heap.Keys == s.heap.Keys && t.tasks == s.tasks
            && forall o :: o in s.heap ==> t.heap[o].id == s.heap[o].id && t.heap[o].start == s.heap[o].start
  {
  }

  lemma StopWritesFiled(s: WState, we: WEvent)
    requires W.Inv(s) && s.loop.Stopping? && we.FinishStop?
    ensures var t := Step(s, we);
            && t.heap.Keys == s.heap.Keys && t.tasks == s.tasks
            && forall o :: o in s.heap ==> t.heap[o].id == s.heap[o].id && t.heap[o].start == s.heap[o].start
  {
  }

  lemma StartKeepsWorker(w: Worker, s: WState, we: WEvent, issuer: map<Id, Issuer>, stamp: map<Id, Time>)
    requires WorkerSound(w, s, issuer, stamp) && we.Start? && CanStep(s, we)
    ensures s.loop.o in s.heap
    ensures var id := s.heap[s.loop.o].id;
            && id !in stamp && id in issuer && issuer[id] == ByWorker(w)
            && WorkerSound(w, Step(s, we), issuer, stamp[id := we.now])
  {
    W.StepKeepsInv(s, we);
    var o, t := s.loop.o, Step(s, we);
    var id := s.heap[o].id;
    assert W.Waiting(s, o);
    assert t.tasks == s.tasks[id := o];
    forall p | p in t.heap
      ensures t.heap[p].id in issuer && issuer[t.heap[p].id] == ByWorker(w)
      ensures t.heap[p].id in t.tasks ==>
                t.heap[p].id in stamp[id := we.now] && t.heap[p].start == stamp[id := we.now][t.heap[p].id]
      ensures t.heap[p].id !in t.tasks ==> t.heap[p].id !in stamp[id := we.now]
    {
      if p != o {
        assert t.heap[p] == s.heap[p] && t.heap[p].id != id;
      }
    }
  }

  lemma StampKeepsWorkers(
      ws: map<Worker, WState>, issuer: map<Id, Issuer>, stamp: map<Id, Time>, w: Worker, s: WState, id: Id, t: Time)
    requires WorkersSound(ws, issuer, stamp) && id in issuer && issuer[id] == ByWorker(w)
    requires WorkerSound(w, s, issuer, stamp[id := t])
    ensures WorkersSound(ws[w := s], issuer, stamp[id := t])
  {
  }

  /** A stamp for an ID that had none disturbs neither the manager's objects nor the reports. */
  lemma StampKeepsRest(c: Cluster, id: Id, t: Time)
    requires ManagerSound(c.m, c.issuer, c.stamp) && NetSound(c.net, c.issuer, c.stamp) && id !in c.stamp
    ensures ManagerSound(c.m, c.issuer, c.stamp[id := t]) && NetSound(c.net, c.issuer, c.stamp[id := t])
  {
  }

  lemma StartKeepsInv(c: Cluster, w: Worker, we: WEvent)
    requires Inv(c) && Enabled(c, WorkerDoes(w, we)) && we.Start?
    ensures Inv(Next(c, WorkerDoes(w, we)))
  {
    var s := c.ws[w];
    StartKeepsWorker(w, s, we, c.issuer, c.stamp);
    var id := s.heap[s.loop.o].id;
    assert Next(c, WorkerDoes(w, we)) == c.(ws := c.ws[w := Step(s, we)], stamp := c.stamp[id := we.now]);
    StampKeepsWorkers(c.ws, c.issuer, c.stamp, w, Step(s, we), id, we.now);
    StampKeepsRest(c, id, we.now);
  }

  lemma WorkerStepKeepsInv(c: Cluster, w: Worker, we: WEvent)
    requires Inv(c) && Enabled(c, WorkerDoes(w, we)) && !we.Accept? && !we.Start?
    ensures Inv(Next(c, WorkerDoes(w, we)))
  {
    var s := Step(c.ws[w], we);
    StepKeepsWorker(w, c.ws[w], we, c.issuer, c.stamp);
    ReplaceWorker(c.ws, w, s, c.issuer, c.stamp);
    assert Next(c, WorkerDoes(w, we)) == c.(ws := c.ws[w := s]);
  }

  lemma ReplaceWorker(ws: map<Worker, WState>, w: Worker, s: WState, issuer: map<Id, Issuer>, stamp: map<Id, Time>)
    requires WorkersSound(ws, issuer, stamp) && WorkerSound(w, s, issuer, stamp)
    ensures WorkersSound(ws[w := s], issuer, stamp)
  {
  }

  lemma CopiesAreSound(w: Worker, s: WState, ids: seq<Id>, issuer: map<Id, Issuer>, stamp: map<Id, Time>)
    requires WorkerSound(w, s, issuer, stamp) && forall id :: id in ids ==> id in s.tasks
    ensures ReportSound(Report(w, Copies(s, ids)), issuer, stamp)
  {
  }

  lemma FetchKeepsInv(c: Cluster, w: Worker, ids: seq<Id>)
    requires Inv(c) && Enabled(c, Fetch(w, ids))
    ensures Inv(Next(c, Fetch(w, ids)))
  {
    CopiesAreSound(w, c.ws[w], ids, c.issuer, c.stamp);
  }

  lemma StepKeepsInv(c: Cluster, e: Event)
    requires Inv(c) && Enabled(c, e)
    ensures Inv(Next(c, e)) && Next(c, e).m.s.workers == c.m.s.workers
  {
    match e
    case ManagerDoes(me) =>
      M.StepKeepsObjects(c.m, me);
      if me.SubmitTask? {
        SubmitKeepsInv(c, me);
      } else {
        ManagerStepKeepsInv(c, me);
      }
    case WorkerDoes(w, we) =>
      if we.Accept? {
        AcceptKeepsInv(c, w, we);
      } else if we.Start? {
        StartKeepsInv(c, w, we);
      } else {
        WorkerStepKeepsInv(c, w, we);
      }
    case Fetch(w, ids) => FetchKeepsInv(c, w, ids);
  }

  lemma {:induction false} RunKeepsInv(workers: seq<Worker>, trace: seq<Cluster>, events: seq<Event>, i: nat)
    requires Run(workers, trace, events) && i <= |events|
    ensures Inv(trace[i]) && trace[i].m.s.workers == workers
  {
    if i == 0 {
      NewIsCoherent(workers);
    } else {
      RunKeepsInv(workers, trace, events, i - 1);
      assert Enabled(trace[i - 1], events[i - 1]);
      StepKeepsInv(trace[i - 1], events[i - 1]);
    }
  }

  // ---------- What every run keeps ----------

  /**
   In every reachable state of the manager with any number of workers, `SortedTasks` is sorted by start
   time, although reconcile overwrites start times in place.
   */
  lemma SortedTasksStaysSorted(
      workers: seq<Worker>, trace: seq<Cluster>, events: seq<Event>, i: nat, a: nat, b: nat)
    requires Run(workers, trace, events) && i <= |events|
    requires a < b < |trace[i].m.s.sorted|
    ensures var s := trace[i].m.s; At(s.heap, s.sorted[a]).start <= At(s.heap, s.sorted[b]).start
  {
    RunKeepsInv(workers, trace, events, i);
    var s := trace[i].m.s;
    var keys := StartTimes(s.heap, s.sorted);
    assert keys[a] <= keys[b];
  }

  /** The copies of a started task: objects of the manager, the worker's own, and entries of reports. */
  ghost predicate IsCopy(c: Cluster, d: TaskData) {
    || (exists o :: o in c.m.s.heap && c.m.s.heap[o] == d)
    || (exists w, id :: w in c.ws && id in c.ws[w].tasks && At(c.ws[w].heap, c.ws[w].tasks[id]) == d)
    || (exists r :: r in c.net && d in r.tasks)
  }

  /** All copies of a task, wherever they are, have the same start time. */
  lemma CopiesAgreeOnStart(
      workers: seq<Worker>, trace: seq<Cluster>, events: seq<Event>, i: nat, d: TaskData, e: TaskData)
    requires Run(workers, trace, events) && i <= |events|
    requires IsCopy(trace[i], d) && IsCopy(trace[i], e) && d.id == e.id
    ensures d.start == e.start
  {
    RunKeepsInv(workers, trace, events, i);
    CopyIsStamped(trace[i], d);
    CopyIsStamped(trace[i], e);
  }

  lemma CopyIsStamped(c: Cluster, d: TaskData)
    requires Inv(c) && IsCopy(c, d)
    ensures d.id in c.stamp && d.start == c.stamp[d.id]
  {
  }

  /**
   A task never becomes Running or Failed at the manager under the ID its submitter was given, and never
   gets a container there: its worker reports it under another ID.
   */
  lemma SubmittedTaskNeverRuns(
      workers: seq<Worker>, trace: seq<Cluster>, events: seq<Event>, i: nat, o: Task)
    requires Run(workers, trace, events) && i <= |events| && o in trace[i].m.s.heap
    ensures var d := trace[i].m.s.heap[o];
            && d.id in trace[i].issuer
            && (trace[i].issuer[d.id] == ByManager ==> d.state != Running && d.state != Failed && d.containerID == "")
  {
    RunKeepsInv(workers, trace, events, i);
  }

  /** No ID is a task of two workers, nor of a worker and a submitter. */
  lemma WorkersShareNoId(
      workers: seq<Worker>, trace: seq<Cluster>, events: seq<Event>, i: nat, v: Worker, w: Worker, id: Id)
    requires Run(workers, trace, events) && i <= |events| && v in trace[i].ws && w in trace[i].ws
    requires id in trace[i].ws[v].tasks && id in trace[i].ws[w].tasks
    ensures v == w && id in trace[i].issuer && trace[i].issuer[id] == ByWorker(v)
  {
    RunKeepsInv(workers, trace, events, i);
    assert WorkerSound(v, trace[i].ws[v], trace[i].issuer, trace[i].stamp);
    assert WorkerSound(w, trace[i].ws[w], trace[i].issuer, trace[i].stamp);
  }

  // ---------- Which posts carry a start ----------

  ghost predicate OverwritesHeld(c: Cluster, e: Event, o: Task) {
    e.ManagerDoes? && Sends.Overwrites(c.m, e.e, o)
  }

  /** Nothing overwrites the state of `o` between two moments. */
  ghost predicate LeftAlone(trace: seq<Cluster>, events: seq<Event>, i: nat, j: nat, o: Task)
    requires |trace| == |events| + 1 && j <= |events|
  {
    forall k :: i <= k < j ==> !OverwritesHeld(trace[k], events[k], o)
  }

  lemma LeftAloneOnceMore(trace: seq<Cluster>, events: seq<Event>, i: nat, j: nat, o: Task)
    requires |trace| == |events| + 1 && i < j <= |events|
    ensures LeftAlone(trace, events, i, j, o)
       <==> LeftAlone(trace, events, i, j - 1, o) && !OverwritesHeld(trace[j - 1], events[j - 1], o)
  {
  }

  /** What event `k` of a run does to the manager; a report it merges has only live tasks. */
  lemma ManagerMovesAt(workers: seq<Worker>, trace: seq<Cluster>, events: seq<Event>, k: nat)
    requires Run(workers, trace, events) && k < |events|
    ensures M.Sound(trace[k].m)
    ensures var e, g, g' := events[k], trace[k].m, trace[k + 1].m;
            if e.ManagerDoes? then
              && M.Enabled(g, e.e) && g' == M.Next(g, e.e)
              && (e.e.MergeReport? ==> forall d :: d in e.e.report ==> Live(d.state))
            else g' == g
  {
    RunKeepsInv(workers, trace, events, k);
    assert Enabled(trace[k], events[k]);
    ManagerMoves(trace[k], events[k], trace[k + 1]);
    if events[k].ManagerDoes? && events[k].e.MergeReport? {
      assert ReportSound(Report(events[k].e.w, events[k].e.report), trace[k].issuer, trace[k].stamp);
    }
  }

  /** `c'` follows `c` with the event still being built, and Scheduled exactly if it was and is left alone. */
  ghost predicate BuildsOn(c: Cluster, e: Event, c': Cluster) {
    && Sends.Building(c.m) && Sends.Building(c'.m) && c'.m.sending.o == c.m.sending.o
    && var o := c.m.sending.o;
       At(c'.m.s.heap, o).state == Scheduled <==> At(c.m.s.heap, o).state == Scheduled && !OverwritesHeld(c, e, o)
  }

  lemma BuildingMovesAt(workers: seq<Worker>, trace: seq<Cluster>, events: seq<Event>, k: nat)
    requires Run(workers, trace, events) && k < |events| && Sends.Building(trace[k].m)
    requires events[k].ManagerDoes? ==> !events[k].e.SendReadTask?
    ensures BuildsOn(trace[k], events[k], trace[k + 1])
  {
    ManagerMovesAt(workers, trace, events, k);
    if events[k].ManagerDoes? {
      Sends.BuildingStep(trace[k].m, events[k].e);
    }
  }

  lemma MarkMovesAt(workers: seq<Worker>, trace: seq<Cluster>, events: seq<Event>, k: nat)
    requires Run(workers, trace, events) && k < |events| && events[k] == ManagerDoes(M.SendMark)
    ensures trace[k].m.sending.Chose? && Sends.Building(trace[k + 1].m)
    ensures trace[k + 1].m.sending.o == trace[k].m.sending.o
    ensures At(trace[k + 1].m.s.heap, trace[k].m.sending.o).state == Scheduled
  {
    ManagerMovesAt(workers, trace, events, k);
  }

  /** From the mark on, the task in hand is Scheduled until a stop request or a report overwrites it. */
  lemma {:induction false} ScheduledUntilOverwritten(
      workers: seq<Worker>, trace: seq<Cluster>, events: seq<Event>, i: nat, j: nat)
    requires Run(workers, trace, events) && i < j <= |events| && events[i] == ManagerDoes(M.SendMark)
    requires forall k :: i < k < j && events[k].ManagerDoes? ==> !events[k].e.SendReadTask?
    ensures trace[i].m.sending.Chose? && Sends.Building(trace[j].m)
    ensures var o := trace[i].m.sending.o;
            && trace[j].m.sending.o == o
            && (At(trace[j].m.s.heap, o).state == Scheduled <==> LeftAlone(trace, events, i + 1, j, o))
    decreases j
  {
    if j == i + 1 {
      MarkMovesAt(workers, trace, events, i);
    } else {
      ScheduledUntilOverwritten(workers, trace, events, i, j - 1);
      BuildingMovesAt(workers, trace, events, j - 1);
      LeftAloneOnceMore(trace, events, i + 1, j, trace[i].m.sending.o);
    }
  }

  /** The state once read stays in the event until the task is copied. */
  lemma {:induction false} StatedWaits(workers: seq<Worker>, trace: seq<Cluster>, events: seq<Event>, j: nat, k: nat)
    requires Run(workers, trace, events) && j < k <= |events| && events[j] == ManagerDoes(M.SendReadState)
    requires forall n :: j < n < k && events[n].ManagerDoes? ==> !events[n].e.SendReadTask?
    ensures var g := trace[j].m;
            && g.sending.Marked?
            && trace[k].m.sending == M.Stated(g.sending.o, g.sending.w, At(g.s.heap, g.sending.o).state)
    decreases k
  {
    if k == j + 1 {
      ManagerMovesAt(workers, trace, events, j);
    } else {
      StatedWaits(workers, trace, events, j, k - 1);
      StatedStaysAt(workers, trace, events, k - 1);
    }
  }

  lemma StatedStaysAt(workers: seq<Worker>, trace: seq<Cluster>, events: seq<Event>, k: nat)
    requires Run(workers, trace, events) && k < |events| && trace[k].m.sending.Stated?
    requires events[k].ManagerDoes? ==> !events[k].e.SendReadTask?
    ensures trace[k + 1].m.sending == trace[k].m.sending
  {
    ManagerMovesAt(workers, trace, events, k);
  }

  /**
   The event that is posted says Scheduled, and carries a Scheduled task, exactly if no stop request for
   the task and no report of it got the lock after `SendWork` had marked it and before it read the state,
   or copied the task; `i`, `j` and `k` are the moments of the mark, the reading and the copy.
   */
  lemma PostIsStartExactly(
      workers: seq<Worker>, trace: seq<Cluster>, events: seq<Event>, i: nat, j: nat, k: nat)
    requires Run(workers, trace, events) && i < j < k < |events|
    requires events[i] == ManagerDoes(M.SendMark) && events[j] == ManagerDoes(M.SendReadState)
    requires events[k].ManagerDoes? && events[k].e.SendReadTask?
    requires forall n :: i < n < k && events[n].ManagerDoes? ==> !events[n].e.SendReadTask?
    ensures trace[i].m.sending.Chose? && trace[k + 1].m.sending.Posted?
    ensures var o, post := trace[i].m.sending.o, trace[k + 1].m.sending;
            && post.o == o
            && (post.te.state == Scheduled <==> LeftAlone(trace, events, i + 1, j, o))
            && (post.te.task.state == Scheduled <==> LeftAlone(trace, events, i + 1, k, o))
  {
    ScheduledUntilOverwritten(workers, trace, events, i, j);
    ScheduledUntilOverwritten(workers, trace, events, i, k);
    StatedWaits(workers, trace, events, j, k);
    ManagerMovesAt(workers, trace, events, k);
  }

  // ---------- The parts of a run are runs of the parts ----------

  lemma ManagerMoves(c: Cluster, e: Event, c': Cluster)
    requires Enabled(c, e) && c' == Next(c, e)
    ensures if e.ManagerDoes? then M.Enabled(c.m, e.e) && c'.m == M.Next(c.m, e.e) else c'.m == c.m
  {
  }

  lemma WorkerMoves(c: Cluster, e: Event, c': Cluster, w: Worker)
    requires Enabled(c, e) && c' == Next(c, e) && w in c.ws
    ensures w in c'.ws
    ensures if e.WorkerDoes? && e.w == w then CanStep(c.ws[w], e.we) && c'.ws[w] == Step(c.ws[w], e.we)
            else c'.ws[w] == c.ws[w]
  {
  }

  /** What a run of the cluster does to the manager is a run of the manager, so all of `ManagerRuns` applies. */
  lemma {:induction false} ManagerPart(workers: seq<Worker>, trace: seq<Cluster>, events: seq<Event>, i: nat)
    returns (states: seq<M.Manager>, steps: seq<M.Event>)
    requires Run(workers, trace, events) && i <= |events|
    ensures M.Run(workers, states, steps) && states[|steps|] == trace[i].m
  {
    if i == 0 {
      states, steps := [M.Initial(workers)], [];
    } else {
      states, steps := ManagerPart(workers, trace, events, i - 1);
      var e := events[i - 1];
      ManagerMoves(trace[i - 1], e, trace[i]);
      if e.ManagerDoes? {
        M.RunGrows(workers, states, steps, e.e);
        states, steps := states + [trace[i].m], steps + [e.e];
      }
    }
  }

  /** What it does to one worker is a run of that worker, so all of `WorkerRuns` applies. */
  lemma {:induction false} WorkerPart(workers: seq<Worker>, trace: seq<Cluster>, events: seq<Event>, i: nat, w: Worker)
    returns (states: seq<WState>, steps: seq<WEvent>)
    requires Run(workers, trace, events) && i <= |events| && w in workers
    ensures W.Run(states, steps) && w in trace[i].ws && states[|steps|] == trace[i].ws[w]
  {
    if i == 0 {
      states, steps := [NEW_WORKER], [];
    } else {
      states, steps := WorkerPart(workers, trace, events, i - 1, w);
      var e := events[i - 1];
      WorkerMoves(trace[i - 1], e, trace[i], w);
      if e.WorkerDoes? && e.w == w {
        W.RunGrows(states, steps, e.we);
        states, steps := states + [trace[i].ws[w]], steps + [e.we];
      }
    }
  }

  // ---------- A run in which the manager misses a change ----------

  /** One more event of a run. */
  lemma Extend(workers: seq<Worker>, trace: seq<Cluster>, events: seq<Event>, e: Event)
    returns (trace': seq<Cluster>, events': seq<Event>)
    requires Run(workers, trace, events) && Enabled(trace[|events|], e)
    ensures Run(workers, trace', events') && events' == events + [e]
    ensures trace'[|events'|] == Next(trace[|events|], e)
  {
    trace', events' := trace + [Next(trace[|events|], e)], events + [e];
  }

  /** The worker has this one task. */
  ghost predicate HasOne(c: Cluster, w: Worker, o: Task, d: TaskData) {
    && w in c.ws && c.ws[w].tasks == map[d.id := o] && o in c.ws[w].heap && c.ws[w].heap[o] == d
  }

  /** A worker whose only task failed to start, before the run loop has recorded the failure. */
  lemma FailedStart(w: Worker, o: Task, d: TaskData, now: Time) returns (trace: seq<Cluster>, events: seq<Event>)
    requires d.state == Pending
    ensures Run([w], trace, events)
    ensures var c := trace[|events|];
            && c.m == M.Initial([w]) && c.net == multiset{}
            && HasOne(c, w, o, d.(start := now, state := Failed)) && c.ws[w].loop == Failing(d.id)
  {
    trace, events := [Initial([w])], [];
    trace, events := Extend([w], trace, events, WorkerDoes(w, Accept(o, d)));
    var s := NEW_WORKER.(heap := map[o := d], queue := [o]);
    assert trace[|events|].ws[w] == s;
    trace, events := Extend([w], trace, events, WorkerDoes(w, Take));
    assert trace[|events|].ws[w] == s.(queue := [], loop := Taken(o));
    trace, events := Extend([w], trace, events, WorkerDoes(w, WEvent.Start(now, false, "")));
  }

  lemma Fetched(w: Worker, trace: seq<Cluster>, events: seq<Event>, o: Task, d: TaskData)
    returns (trace': seq<Cluster>, events': seq<Event>)
    requires Run([w], trace, events) && HasOne(trace[|events|], w, o, d)
    ensures Run([w], trace', events')
    ensures trace'[|events'|] == trace[|events|].(net := trace[|events|].net + multiset{Report(w, [d])})
  {
    trace', events' := Extend([w], trace, events, Fetch(w, [d.id]));
    assert Copies(trace[|events|].ws[w], [d.id]) == [d];
  }

  /** The manager fetches the worker's one task and merges the report. */
  lemma Reconciled(w: Worker, trace: seq<Cluster>, events: seq<Event>, o: Task, d: TaskData, p: Task)
    returns (trace': seq<Cluster>, events': seq<Event>)
    requires Run([w], trace, events)
    requires var c := trace[|events|]; HasOne(c, w, o, d) && p !in c.m.s.heap && w in c.m.s.workers
    ensures Run([w], trace', events')
    ensures var c, c' := trace[|events|], trace'[|events'|];
            && c'.ws == c.ws && c'.net == c.net && c'.m == c.m.(s := MergeOne(c.m.s, w, d, p))
  {
    trace', events' := Fetched(w, trace, events, o, d);
    M.MergeOfOne(trace[|events|].m.s, w, d, p);
    trace', events' := Extend([w], trace', events', ManagerDoes(M.MergeReport(w, [d], [p])));
  }

  /**
   A run in which an unchanged state hides a change: the task is first reported between its failed start
   and the recording of the failure, so the manager never learns when it ended.
   */
  lemma EndTimeIsMissed(w: Worker, o: Task, d: TaskData, now: Time, later: Time, p: Task, q: Task)
    returns (trace: seq<Cluster>, events: seq<Event>)
    requires d.state == Pending && p != q && later != d.end
    ensures Run([w], trace, events)
    ensures var c, seen := trace[|events|], d.(start := now, state := Failed);
            && HasOne(c, w, o, seen.(end := later)) && c.net == multiset{}
            && c.m.s.db == map[d.id := p] && c.m.s.heap == map[p := seen]
            && c.m.s.heap[p].end != c.ws[w].heap[o].end
  {
    var seen := d.(start := now, state := Failed);
    trace, events := FailedStart(w, o, d, now);
    trace, events := Reconciled(w, trace, events, o, seen, p);
    assert trace[|events|].m.s.heap == map[p := seen] && trace[|events|].m.s.db == map[d.id := p];
    trace, events := Extend([w], trace, events, WorkerDoes(w, MarkFailed(later)));
    trace, events := Reconciled(w, trace, events, o, seen.(end := later), q);
  }
}
