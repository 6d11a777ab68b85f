/**
 Merging worker reports into the manager's state: what one report changes, that applying it twice
 changes nothing more, and that reports of different workers commute.
 */
module Reconcile {
  import opened Tasks
  import opened SortedList
  import opened ManagerState

  /** `TaskDb[k]` is an object of the heap whose ID is `k`. */
  ghost predicate Keyed(s: MState) {
    forall k :: k in s.db ==> s.db[k] in s.heap && s.heap[s.db[k]].id == k
  }

  /** Merging one task leaves every other ID's entry, and its data, alone. */
  lemma MergeOneFrame(s: MState, w: Worker, e: TaskData, o: Task, id: Id)
    requires Keyed(s) && o !in s.heap && id in s.db && id != e.id
    ensures var m := MergeOne(s, w, e, o);
            && id in m.db && m.db[id] == s.db[id] && m.heap[m.db[id]] == s.heap[s.db[id]]
            && (id in m.owner <==> id in s.owner) && (id in s.owner ==> m.owner[id] == s.owner[id])
  {
  }

  /** The data a reported task has after the merge. */
  function MergedData(s: MState, e: TaskData): TaskData {
    if e.id in s.db then
      var d := At(s.heap, s.db[e.id]);
      if d.state != e.state then Updated(d, e) else d
    else e
  }

  /** `m` holds `e` as a merge of it into `s` must: updated in place if known, adopted as `o` for `w` if not. */
  ghost predicate Merged(s: MState, m: MState, w: Worker, e: TaskData, o: Task) {
    && e.id in m.db && m.db[e.id] in m.heap
    && m.heap[m.db[e.id]] == MergedData(s, e)
    && m.db[e.id] == (if e.id in s.db then s.db[e.id] else o)
    && (e.id !in s.db ==> e.id in m.owner && m.owner[e.id] == w)
    && (e.id in s.db ==> (e.id in m.owner <==> e.id in s.owner) && (e.id in s.owner ==> m.owner[e.id] == s.owner[e.id]))
  }

  lemma MergeOneKeepsKeyed(s: MState, w: Worker, e: TaskData, o: Task)
    requires Keyed(s) && o !in s.heap
    ensures Keyed(MergeOne(s, w, e, o)) && MergeOne(s, w, e, o).heap.Keys <= s.heap.Keys + {o}
  {
  }

  lemma {:induction false} MergeKeepsKeyed(s: MState, w: Worker, report: seq<TaskData>, objs: seq<Task>)
    requires |objs| == |report|
    requires Keyed(s) && NewObjects(s.heap, objs)
    ensures Merge(s, w, report, objs).heap.Keys <= s.heap.Keys + set o | o in objs
    ensures Keyed(Merge(s, w, report, objs))
  {
    var n := |report|;
    if n > 0 {
      assert objs == objs[..n - 1] + [objs[n - 1]];
      MergeKeepsKeyed(s, w, report[..n - 1], objs[..n - 1]);
      MergeOneKeepsKeyed(Merge(s, w, report[..n - 1], objs[..n - 1]), w, report[n - 1], objs[n - 1]);
    }
  }

  /** The object for the last reported task is still new when its turn comes. */
  lemma LastIsNew(s: MState, w: Worker, report: seq<TaskData>, objs: seq<Task>)
    requires Keyed(s) && |objs| == |report| > 0 && NewObjects(s.heap, objs)
    ensures var n := |report|;
            objs[n - 1] !in Merge(s, w, report[..n - 1], objs[..n - 1]).heap
  {
    MergeKeepsKeyed(s, w, report[..|report| - 1], objs[..|report| - 1]);
  }

  /** IDs a report does not mention keep their entry and its data. */
  lemma {:induction false} MergeFrame(s: MState, w: Worker, report: seq<TaskData>, objs: seq<Task>, id: Id)
    requires Keyed(s) && |objs| == |report| && NewObjects(s.heap, objs)
    requires forall e :: e in report ==> e.id != id
    ensures var m := Merge(s, w, report, objs);
            && (id in m.db <==> id in s.db)
            && (id in m.owner <==> id in s.owner)
            && (id in s.db ==> m.db[id] == s.db[id] && m.db[id] in m.heap && m.heap[m.db[id]] == s.heap[s.db[id]])
            && (id in s.owner ==> m.owner[id] == s.owner[id])
  {
    var n := |report|;
    if n > 0 {
      MergeFrame(s, w, report[..n - 1], objs[..n - 1], id);
      MergeKeepsKeyed(s, w, report[..n - 1], objs[..n - 1]);
      LastIsNew(s, w, report, objs);
      if id in s.db {
        MergeOneFrame(Merge(s, w, report[..n - 1], objs[..n - 1]), w, report[n - 1], objs[n - 1], id);
      }
    }
  }

  /**
   After a merge the manager's entry for each reported ID has the reported state; an entry whose
   state differed also took the reported container and times, and an entry that was missing is a copy.
   */
  lemma {:induction false} MergeEntry(s: MState, w: Worker, report: seq<TaskData>, objs: seq<Task>, i: nat)
    requires Keyed(s) && |objs| == |report| && NewObjects(s.heap, objs) && DistinctIds(report)
    requires i < |report|
    ensures Merged(s, Merge(s, w, report, objs), w, report[i], objs[i])
  {
    if i == |report| - 1 {
      MergeLastEntry(s, w, report, objs);
    } else {
      var n := |report|;
      MergeEntry(s, w, report[..n - 1], objs[..n - 1], i);
      MergeKeepsKeyed(s, w, report[..n - 1], objs[..n - 1]);
      LastIsNew(s, w, report, objs);
      MergedStays(s, Merge(s, w, report[..n - 1], objs[..n - 1]), w, report[i], objs[i], report[n - 1], objs[n - 1]);
    }
  }

  lemma MergeLastEntry(s: MState, w: Worker, report: seq<TaskData>, objs: seq<Task>)
    requires Keyed(s) && |objs| == |report| > 0 && NewObjects(s.heap, objs) && DistinctIds(report)
    ensures var n := |report|;
            Merged(s, Merge(s, w, report, objs), w, report[n - 1], objs[n - 1])
  {
    var n := |report|;
    MergeKeepsKeyed(s, w, report[..n - 1], objs[..n - 1]);
    LastIsNew(s, w, report, objs);
    MergeFrame(s, w, report[..n - 1], objs[..n - 1], report[n - 1].id);
    MergedNow(s, Merge(s, w, report[..n - 1], objs[..n - 1]), w, report[n - 1], objs[n - 1]);
  }

  lemma MergedStays(s: MState, m: MState, w: Worker, e: TaskData, o: Task, e': TaskData, o': Task)
    requires Keyed(m) && Merged(s, m, w, e, o) && e.id != e'.id && o' !in m.heap
    ensures Merged(s, MergeOne(m, w, e', o'), w, e, o)
  {
  }

  lemma MergedNow(s: MState, m: MState, w: Worker, e: TaskData, o: Task)
    requires Keyed(s) && Keyed(m) && o !in m.heap
    requires e.id in m.db <==> e.id in s.db
    requires e.id in s.db ==> m.db[e.id] == s.db[e.id] && m.heap[m.db[e.id]] == s.heap[s.db[e.id]]
    requires e.id in m.owner <==> e.id in s.owner
    requires e.id in s.owner ==> m.owner[e.id] == s.owner[e.id]
    ensures Merged(s, MergeOne(m, w, e, o), w, e, o)
  {
  }

  /**
   The manager agrees with a report on all four reported fields exactly where the states differed
   before, the ID was new, or the fields agreed already: an unchanged state hides the other changes.
   */
  lemma AgreesExactlyWhen(s: MState, w: Worker, report: seq<TaskData>, objs: seq<Task>, i: nat)
    requires Keyed(s) && |objs| == |report| && NewObjects(s.heap, objs) && DistinctIds(report)
    requires i < |report|
    ensures var m, e := Merge(s, w, report, objs), report[i];
            e.id in m.db && m.db[e.id] in m.heap &&
            (Updated(m.heap[m.db[e.id]], e) == m.heap[m.db[e.id]]
             <==> (e.id in s.db && s.heap[s.db[e.id]].state == e.state
                   ==> s.heap[s.db[e.id]].containerID == e.containerID
                       && s.heap[s.db[e.id]].start == e.start && s.heap[s.db[e.id]].end == e.end))
  {
    MergeEntry(s, w, report, objs, i);
  }

  // ---------- Idempotence ----------

  lemma {:induction false} MergeOfKnownIsNothing(s: MState, w: Worker, report: seq<TaskData>, objs: seq<Task>)
    requires |objs| == |report|
    requires forall e :: e in report ==> e.id in s.db && At(s.heap, s.db[e.id]).state == e.state
    ensures Merge(s, w, report, objs) == s
  {
    var n := |report|;
    if n > 0 {
      MergeOfKnownIsNothing(s, w, report[..n - 1], objs[..n - 1]);
      assert report[n - 1] in report;
    }
  }

  /** The same report again, from any worker, changes nothing. */
  lemma MergeIsIdempotent(s: MState, w: Worker, w': Worker, report: seq<TaskData>, objs: seq<Task>, objs': seq<Task>)
    requires Keyed(s) && |objs| == |report| == |objs'| && NewObjects(s.heap, objs) && DistinctIds(report)
    ensures var m := Merge(s, w, report, objs);
            Merge(m, w', report, objs') == m
  {
    var m := Merge(s, w, report, objs);
    forall e | e in report ensures e.id in m.db && At(m.heap, m.db[e.id]).state == e.state {
      var i :| 0 <= i < |report| && report[i] == e;
      MergeEntry(s, w, report, objs, i);
    }
    MergeOfKnownIsNothing(m, w', report, objs');
  }

  // ---------- The worker's list and the sorted list ----------

  /** The objects made for the orphans of a report, in report order. */
  function Adopted(s: MState, report: seq<TaskData>, objs: seq<Task>): seq<Task>
    requires |objs| == |report|
  {
    if |report| == 0 then []
    else
      var n := |report|;
      Adopted(s, report[..n - 1], objs[..n - 1]) + (if report[n - 1].id in s.db then [] else [objs[n - 1]])
  }

  /** The orphan IDs of a report that `listed` lacks, in report order. */
  function NewlyListed(s: MState, listed: seq<Id>, report: seq<TaskData>): seq<Id> {
    if |report| == 0 then []
    else
      var n := |report|;
      NewlyListed(s, listed, report[..n - 1])
      + (if report[n - 1].id in s.db || report[n - 1].id in listed then [] else [report[n - 1].id])
  }

  /** An orphan of the report that the list lacks. */
  ghost predicate IsUnlisted(s: MState, listed: seq<Id>, report: seq<TaskData>, id: Id) {
    id !in s.db && id !in listed && exists i :: 0 <= i < |report| && report[i].id == id
  }

  /** The listed IDs are the missing orphans. */
  lemma {:induction false} NewlyListedMembers(s: MState, listed: seq<Id>, report: seq<TaskData>, id: Id)
    ensures id in NewlyListed(s, listed, report) <==> IsUnlisted(s, listed, report, id)
  {
    var n := |report|;
    if n > 0 {
      NewlyListedMembers(s, listed, report[..n - 1], id);
      if i :| 0 <= i < n - 1 && report[i].id == id {
        assert report[..n - 1][i].id == id;
      }
    }
  }

  /** Each is there once if the report names no ID twice. */
  lemma {:induction false} NewlyListedOnce(s: MState, listed: seq<Id>, report: seq<TaskData>, id: Id)
    requires DistinctIds(report)
    ensures multiset(NewlyListed(s, listed, report))[id] == if IsUnlisted(s, listed, report, id) then 1 else 0
  {
    var n := |report|;
    NewlyListedMembers(s, listed, report, id);
    if n > 0 {
      var init: seq<Id> := NewlyListed(s, listed, report[..n - 1]);
      NewlyListedOnce(s, listed, report[..n - 1], id);
      NewlyListedMembers(s, listed, report[..n - 1], id);
      assert id in init <==> multiset(init)[id] != 0;
    }
  }

  /** One more task of a report: what its worker's list gains; no other list changes. */
  lemma MergeOneAppends(s: MState, m: MState, w: Worker, init: seq<TaskData>, e: TaskData, o: Task)
    requires TasksOf(m, w) == TasksOf(s, w) + NewlyListed(s, TasksOf(s, w), init)
    requires (e.id in m.db <==> e.id in s.db) && e.id !in NewlyListed(s, TasksOf(s, w), init)
    ensures TasksOf(MergeOne(m, w, e, o), w) == TasksOf(s, w) + NewlyListed(s, TasksOf(s, w), init + [e])
    ensures forall v :: v != w ==>
              && (v in MergeOne(m, w, e, o).workerTasks <==> v in m.workerTasks)
              && TasksOf(MergeOne(m, w, e, o), v) == TasksOf(m, v)
  {
    assert (init + [e])[..|init|] == init;
  }

  lemma MergeFindsNone(s: MState, w: Worker, report: seq<TaskData>, objs: seq<Task>, id: Id)
    requires Keyed(s) && |objs| == |report| && NewObjects(s.heap, objs)
    requires forall e :: e in report ==> e.id != id
    ensures id in Merge(s, w, report, objs).db <==> id in s.db
  {
    MergeFrame(s, w, report, objs, id);
  }

  lemma {:induction false} MergeAppends(s: MState, w: Worker, report: seq<TaskData>, objs: seq<Task>)
    requires Keyed(s) && |objs| == |report| && NewObjects(s.heap, objs) && DistinctIds(report)
    ensures var m := Merge(s, w, report, objs);
            && TasksOf(m, w) == TasksOf(s, w) + NewlyListed(s, TasksOf(s, w), report)
            && (forall v :: v != w ==> (v in m.workerTasks <==> v in s.workerTasks) && TasksOf(m, v) == TasksOf(s, v))
  {
    var n := |report|;
    if n > 0 {
      var e, init := report[n - 1], report[..n - 1];
      MergeAppends(s, w, init, objs[..n - 1]);
      MergeFindsNone(s, w, init, objs[..n - 1], e.id);
      NewlyListedMembers(s, TasksOf(s, w), init, e.id);
      MergeOneAppends(s, Merge(s, w, init, objs[..n - 1]), w, init, e, objs[n - 1]);
      assert init + [e] == report;
    }
  }

  /** A merge appends to the reporting worker's list each orphan the list lacked, once, in report order. */
  lemma MergeTaskLists(s: MState, w: Worker, report: seq<TaskData>, objs: seq<Task>)
    requires Keyed(s) && |objs| == |report| && NewObjects(s.heap, objs) && DistinctIds(report)
    ensures var m, gained := Merge(s, w, report, objs), NewlyListed(s, TasksOf(s, w), report);
            && TasksOf(m, w) == TasksOf(s, w) + gained
            && (forall id :: multiset(gained)[id] == if IsUnlisted(s, TasksOf(s, w), report, id) then 1 else 0)
            && (forall v :: v != w ==> (v in m.workerTasks <==> v in s.workerTasks) && TasksOf(m, v) == TasksOf(s, v))
  {
    MergeAppends(s, w, report, objs);
    var gained := NewlyListed(s, TasksOf(s, w), report);
    forall id ensures multiset(gained)[id] == if IsUnlisted(s, TasksOf(s, w), report, id) then 1 else 0 {
      NewlyListedOnce(s, TasksOf(s, w), report, id);
    }
  }

  lemma MergeOneSorted(s: MState, w: Worker, e: TaskData, o: Task)
    ensures multiset(MergeOne(s, w, e, o).sorted)
         == multiset(s.sorted) + (if e.id in s.db then multiset{} else multiset{o})
  {
    InsertConserves(s.heap[o := e], s.sorted, o);
  }

  lemma AdoptedOneMore(s: MState, report: seq<TaskData>, objs: seq<Task>)
    requires |objs| == |report| > 0
    ensures var n := |report|;
            multiset(Adopted(s, report, objs))
            == multiset(Adopted(s, report[..n - 1], objs[..n - 1]))
               + (if report[n - 1].id in s.db then multiset{} else multiset{objs[n - 1]})
  {
  }

  /** A merge adds one new object per orphan to the sorted list and takes none away. */
  lemma {:induction false} MergeSortedList(s: MState, w: Worker, report: seq<TaskData>, objs: seq<Task>)
    requires Keyed(s) && |objs| == |report| && NewObjects(s.heap, objs) && DistinctIds(report)
    ensures multiset(Merge(s, w, report, objs).sorted) == multiset(s.sorted) + multiset(Adopted(s, report, objs))
  {
    var n := |report|;
    if n > 0 {
      MergeSortedList(s, w, report[..n - 1], objs[..n - 1]);
      MergeFindsNone(s, w, report[..n - 1], objs[..n - 1], report[n - 1].id);
      MergeOneSorted(Merge(s, w, report[..n - 1], objs[..n - 1]), w, report[n - 1], objs[n - 1]);
      AdoptedOneMore(s, report, objs);
    }
  }

  // ---------- Commutation ----------

  /** Equal but for the order of the sorted list. */
  ghost predicate SameUpToOrder(a: MState, b: MState) {
    a.(sorted := []) == b.(sorted := []) && multiset(a.sorted) == multiset(b.sorted)
  }

  lemma MergeOneRespects(a: MState, b: MState, w: Worker, e: TaskData, o: Task)
    requires SameUpToOrder(a, b)
    ensures SameUpToOrder(MergeOne(a, w, e, o), MergeOne(b, w, e, o))
  {
    assert a == b.(sorted := a.sorted);
    InsertConserves(a.heap[o := e], a.sorted, o);
    InsertConserves(a.heap[o := e], b.sorted, o);
  }

  lemma {:induction false} MergeRespects(a: MState, b: MState, w: Worker, report: seq<TaskData>, objs: seq<Task>)
    requires |objs| == |report| && SameUpToOrder(a, b)
    ensures SameUpToOrder(Merge(a, w, report, objs), Merge(b, w, report, objs))
  {
    var n := |report|;
    if n > 0 {
      MergeRespects(a, b, w, report[..n - 1], objs[..n - 1]);
      MergeOneRespects(Merge(a, w, report[..n - 1], objs[..n - 1]), Merge(b, w, report[..n - 1], objs[..n - 1]),
                       w, report[n - 1], objs[n - 1]);
    }
  }

  lemma MergeOnesCommute(s: MState, v: Worker, d: TaskData, p: Task, w: Worker, e: TaskData, o: Task)
    requires Keyed(s) && v != w && d.id != e.id && p != o && p !in s.heap && o !in s.heap
    ensures SameUpToOrder(MergeOne(MergeOne(s, v, d, p), w, e, o), MergeOne(MergeOne(s, w, e, o), v, d, p))
  {
    SortedAfterTwo(s, v, d, p, w, e, o);
    SortedAfterTwo(s, w, e, o, v, d, p);
    RestCommutes(s, v, d, p, w, e, o);
  }

  lemma RestCommutes(s: MState, v: Worker, d: TaskData, p: Task, w: Worker, e: TaskData, o: Task)
    requires Keyed(s) && v != w && d.id != e.id && p != o && p !in s.heap && o !in s.heap
    ensures MergeOne(MergeOne(s, v, d, p), w, e, o).(sorted := [])
         == MergeOne(MergeOne(s, w, e, o), v, d, p).(sorted := [])
  {
    if d.id in s.db && e.id in s.db {
      RefreshesCommute(s, v, d, p, w, e, o);
    } else if d.id in s.db {
      AdoptAndRefreshCommute(s, v, d, p, w, e, o);
    } else if e.id in s.db {
      AdoptAndRefreshCommute(s, w, e, o, v, d, p);
    } else {
      AdoptionsCommute(s, v, d, p, w, e, o);
    }
  }

  lemma RefreshesCommute(s: MState, v: Worker, d: TaskData, p: Task, w: Worker, e: TaskData, o: Task)
    requires Keyed(s) && d.id != e.id && d.id in s.db && e.id in s.db
    ensures MergeOne(MergeOne(s, v, d, p), w, e, o) == MergeOne(MergeOne(s, w, e, o), v, d, p)
  {
  }

  lemma AdoptAndRefreshCommute(s: MState, v: Worker, d: TaskData, p: Task, w: Worker, e: TaskData, o: Task)
    requires Keyed(s) && d.id in s.db && e.id !in s.db && o !in s.heap
    ensures MergeOne(MergeOne(s, v, d, p), w, e, o).(sorted := [])
         == MergeOne(MergeOne(s, w, e, o), v, d, p).(sorted := [])
  {
  }

  lemma AdoptionsCommute(s: MState, v: Worker, d: TaskData, p: Task, w: Worker, e: TaskData, o: Task)
    requires v != w && d.id != e.id && p != o && d.id !in s.db && e.id !in s.db
    ensures MergeOne(MergeOne(s, v, d, p), w, e, o).(sorted := [])
         == MergeOne(MergeOne(s, w, e, o), v, d, p).(sorted := [])
  {
    UpdatesCommute(s.heap, p, d, o, e);
    UpdatesCommute(s.db, d.id, p, e.id, o);
    UpdatesCommute(s.owner, d.id, v, e.id, w);
    UpdatesCommute(s.workerTasks, v, AddIfMissing(TasksOf(s, v), d.id), w, AddIfMissing(TasksOf(s, w), e.id));
  }

  lemma UpdatesCommute<K, V>(m: map<K, V>, a: K, x: V, b: K, y: V)
    requires a != b
    ensures m[a := x][b := y] == m[b := y][a := x]
  {
  }

  lemma SortedAfterTwo(s: MState, v: Worker, d: TaskData, p: Task, w: Worker, e: TaskData, o: Task)
    requires Keyed(s) && d.id != e.id
    ensures multiset(MergeOne(MergeOne(s, v, d, p), w, e, o).sorted)
         == multiset(s.sorted) + (if d.id in s.db then multiset{} else multiset{p})
            + (if e.id in s.db then multiset{} else multiset{o})
  {
    MergeOneSorted(s, v, d, p);
    MergeOneSorted(MergeOne(s, v, d, p), w, e, o);
  }

  lemma {:induction false} MergeOneCommutesWithMerge(
      s: MState, v: Worker, report: seq<TaskData>, objs: seq<Task>, w: Worker, e: TaskData, o: Task)
    requires Keyed(s) && v != w && |objs| == |report|
    requires NewObjects(s.heap, objs) && o !in s.heap && o !in objs
    requires forall d :: d in report ==> d.id != e.id
    ensures SameUpToOrder(MergeOne(Merge(s, v, report, objs), w, e, o), Merge(MergeOne(s, w, e, o), v, report, objs))
  {
    var n := |report|;
    if n > 0 {
      MergeOneCommutesWithMerge(s, v, report[..n - 1], objs[..n - 1], w, e, o);
      CommuteWithLast(s, v, report, objs, w, e, o);
      MergeOneRespects(MergeOne(Merge(s, v, report[..n - 1], objs[..n - 1]), w, e, o),
                       Merge(MergeOne(s, w, e, o), v, report[..n - 1], objs[..n - 1]), v, report[n - 1], objs[n - 1]);
    }
  }

  lemma CommuteWithLast(s: MState, v: Worker, report: seq<TaskData>, objs: seq<Task>, w: Worker, e: TaskData, o: Task)
    requires Keyed(s) && v != w && |objs| == |report| > 0
    requires NewObjects(s.heap, objs) && o !in s.heap && o !in objs
    requires forall d :: d in report ==> d.id != e.id
    ensures var n := |report|;
            var m := Merge(s, v, report[..n - 1], objs[..n - 1]);
            SameUpToOrder(MergeOne(MergeOne(m, v, report[n - 1], objs[n - 1]), w, e, o),
                          MergeOne(MergeOne(m, w, e, o), v, report[n - 1], objs[n - 1]))
  {
    var n := |report|;
    MergeKeepsKeyed(s, v, report[..n - 1], objs[..n - 1]);
    LastIsNew(s, v, report, objs);
    assert report[n - 1] in report && objs[n - 1] in objs;
    MergeOnesCommute(Merge(s, v, report[..n - 1], objs[..n - 1]), v, report[n - 1], objs[n - 1], w, e, o);
  }

  /**
   The reconcile goroutines commute: two workers' reports without a common ID leave the same maps, the
   same per-worker lists, the same task data and the same entries in the sorted list in either order.
   */
  lemma {:induction false} ReportsCommute(
      s: MState, v: Worker, report: seq<TaskData>, objs: seq<Task>, w: Worker, report': seq<TaskData>, objs': seq<Task>)
    requires Keyed(s) && v != w && |objs| == |report| && |objs'| == |report'|
    requires NewObjects(s.heap, objs + objs')
    requires forall d, e :: d in report && e in report' ==> d.id != e.id
    ensures SameUpToOrder(Merge(Merge(s, v, report, objs), w, report', objs'),
                          Merge(Merge(s, w, report', objs'), v, report, objs))
  {
    var n := |report'|;
    AreNew(s.heap, objs, objs');
    if n > 0 {
      var e, o, init, objs0 := report'[n - 1], objs'[n - 1], report'[..n - 1], objs'[..n - 1];
      assert objs + objs' == objs + objs0 + [o];
      AreNew(s.heap, objs + objs0, [o]);
      ReportsCommute(s, v, report, objs, w, init, objs0);
      var t := Merge(s, w, init, objs0);
      MergeOneRespects(Merge(Merge(s, v, report, objs), w, init, objs0), Merge(t, v, report, objs), w, e, o);
      MergeKeepsKeyed(s, w, init, objs0);
      assert o in objs + objs' && o !in objs + objs0;
      StillNew(s, w, init, objs, objs0);
      MergeOneCommutesWithMerge(t, v, report, objs, w, e, o);
    }
  }

  lemma AreNew(h: Heap, a: seq<Task>, b: seq<Task>)
    requires NewObjects(h, a + b)
    ensures NewObjects(h, a) && NewObjects(h, b)
    ensures forall x :: x in a ==> x !in b
  {
    forall i | 0 <= i < |a| ensures (a + b)[i] == a[i] && a[i] in a + b && a[i] !in b {
      assert (a + b)[i] == a[i];
      forall j | 0 <= j < |b| ensures b[j] != a[i] {
        assert (a + b)[|a| + j] == b[j];
      }
    }
    forall i | 0 <= i < |b| ensures (a + b)[|a| + i] == b[i] && b[i] in a + b {
    }
  }

  lemma StillNew(s: MState, w: Worker, report: seq<TaskData>, objs: seq<Task>, used: seq<Task>)
    requires Keyed(s) && |used| == |report| && NewObjects(s.heap, objs + used)
    ensures NewObjects(Merge(s, w, report, used).heap, objs)
  {
    AreNew(s.heap, objs, used);
    MergeKeepsKeyed(s, w, report, used);
  }

  // ---------- Any order of any number of reports ----------

  /** The locked section of one reconcile goroutine: the report it decoded, with the objects for its orphans. */
  datatype Section = Section(w: Worker, report: seq<TaskData>, objs: seq<Task>)

  /** Each section has its own new objects. */
  ghost predicate HasNewObjects(h: Heap, r: Section) {
    |r.objs| == |r.report| && NewObjects(h, r.objs)
  }

  /** Two sections of different workers that share neither an ID nor an object. */
  ghost predicate Apart(a: Section, b: Section) {
    && a.w != b.w
    && (forall d, e :: d in a.report && e in b.report ==> d.id != e.id)
    && (forall o :: o in a.objs ==> o !in b.objs)
  }

  /** One section a worker, no two of which share an ID or an object. */
  ghost predicate Independent(h: Heap, rs: multiset<Section>) {
    && (forall r :: r in rs ==> rs[r] == 1 && HasNewObjects(h, r))
    && (forall a, b :: a in rs && b in rs && a != b ==> Apart(a, b))
  }

  function MergeSection(s: MState, r: Section): MState {
    if |r.objs| == |r.report| then Merge(s, r.w, r.report, r.objs) else s
  }

  /** The sections in the order in which they got the lock. */
  function MergeAll(s: MState, rs: seq<Section>): MState {
    if |rs| == 0 then s else MergeSection(MergeAll(s, rs[..|rs| - 1]), rs[|rs| - 1])
  }

  lemma MergeAllThenOne(s: MState, rs: seq<Section>, r: Section)
    ensures MergeAll(s, rs + [r]) == MergeSection(MergeAll(s, rs), r)
  {
    assert (rs + [r])[..|rs|] == rs;
  }

  lemma SectionRespects(a: MState, b: MState, r: Section)
    requires SameUpToOrder(a, b)
    ensures SameUpToOrder(MergeSection(a, r), MergeSection(b, r))
  {
    if |r.objs| == |r.report| {
      MergeRespects(a, b, r.w, r.report, r.objs);
    }
  }

  lemma SectionsCommute(s: MState, a: Section, b: Section)
    requires Keyed(s) && HasNewObjects(s.heap, a) && HasNewObjects(s.heap, b) && Apart(a, b)
    ensures SameUpToOrder(MergeSection(MergeSection(s, a), b), MergeSection(MergeSection(s, b), a))
  {
    var objs := a.objs + b.objs;
    forall i, j | 0 <= i < j < |objs| ensures objs[i] != objs[j] {
      if i < |a.objs| <= j {
        assert objs[i] in a.objs && objs[j] in b.objs;
      }
    }
    ReportsCommute(s, a.w, a.report, a.objs, b.w, b.report, b.objs);
  }

  lemma FewerAreIndependent(h: Heap, rs: multiset<Section>, fewer: multiset<Section>)
    requires Independent(h, rs) && fewer <= rs
    ensures Independent(h, fewer)
  {
    forall r | r in fewer ensures fewer[r] == 1 && r in rs {
    }
  }

  lemma LastApart(h: Heap, rs: seq<Section>, last: Section)
    requires Independent(h, multiset(rs + [last]))
    ensures Independent(h, multiset(rs)) && HasNewObjects(h, last)
    ensures forall r :: r in rs ==> Apart(r, last)
  {
    FewerAreIndependent(h, multiset(rs + [last]), multiset(rs));
    assert last in multiset(rs + [last]);
    forall r | r in rs ensures Apart(r, last) {
      assert r in multiset(rs) && multiset(rs + [last])[r] == 1;
    }
  }

  /** The heap holds nothing but what it held before and objects of the sections. */
  ghost predicate GrownBy(h: Heap, h': Heap, rs: seq<Section>) {
    forall o :: o in h' ==> o in h || exists r :: r in rs && o in r.objs
  }

  lemma StaysReady(h: Heap, h': Heap, rs: seq<Section>, last: Section)
    requires HasNewObjects(h, last) && GrownBy(h, h', rs)
    requires forall r :: r in rs ==> Apart(r, last)
    ensures HasNewObjects(h', last)
  {
  }

  lemma {:induction false} MergeAllKeepsKeyed(s: MState, rs: seq<Section>)
    requires Keyed(s) && Independent(s.heap, multiset(rs))
    ensures Keyed(MergeAll(s, rs)) && GrownBy(s.heap, MergeAll(s, rs).heap, rs)
    decreases |rs|
  {
    if |rs| > 0 {
      var init, r := rs[..|rs| - 1], rs[|rs| - 1];
      assert rs == init + [r];
      LastApart(s.heap, init, r);
      MergeAllKeepsKeyed(s, init);
      var t := MergeAll(s, init);
      StaysReady(s.heap, t.heap, init, r);
      MergeKeepsKeyed(t, r.w, r.report, r.objs);
      assert r in rs && forall x :: x in init ==> x in rs;
    }
  }

  /** The last two sections can trade places. */
  lemma LastTwoCommute(s: MState, rs: seq<Section>, a: Section, b: Section)
    requires Keyed(s) && Independent(s.heap, multiset(rs + [a] + [b]))
    ensures SameUpToOrder(MergeAll(s, rs + [a] + [b]), MergeAll(s, rs + [b] + [a]))
  {
    LastApart(s.heap, rs + [a], b);
    LastApart(s.heap, rs, a);
    assert a in rs + [a] && forall r :: r in rs ==> r in rs + [a];
    MergeAllKeepsKeyed(s, rs);
    var t := MergeAll(s, rs);
    StaysReady(s.heap, t.heap, rs, a);
    StaysReady(s.heap, t.heap, rs, b);
    SectionsCommute(t, a, b);
    MergeAllThenOne(s, rs, a);
    MergeAllThenOne(s, rs + [a], b);
    MergeAllThenOne(s, rs, b);
    MergeAllThenOne(s, rs + [b], a);
  }

  lemma Transitive(a: MState, b: MState, c: MState)
    requires SameUpToOrder(a, b) && SameUpToOrder(b, c)
    ensures SameUpToOrder(a, c)
  {
  }

  /** A section that can wait until `init` is done can wait for one more. */
  lemma MovePast(s: MState, front: seq<Section>, r: Section, init: seq<Section>, last: Section)
    requires Keyed(s) && Independent(s.heap, multiset(front + init + [r] + [last]))
    requires SameUpToOrder(MergeAll(s, front + [r] + init), MergeAll(s, front + init + [r]))
    ensures SameUpToOrder(MergeAll(s, front + [r] + init + [last]), MergeAll(s, front + init + [last] + [r]))
  {
    SectionRespects(MergeAll(s, front + [r] + init), MergeAll(s, front + init + [r]), last);
    MergeAllThenOne(s, front + [r] + init, last);
    MergeAllThenOne(s, front + init + [r], last);
    LastTwoCommute(s, front + init, r, last);
    Transitive(MergeAll(s, front + [r] + init + [last]), MergeAll(s, front + init + [r] + [last]),
               MergeAll(s, front + init + [last] + [r]));
  }

  lemma TakeOut(front: seq<Section>, r: Section, back: seq<Section>)
    ensures multiset(front + [r] + back) == multiset(front + back) + multiset{r}
  {
  }

  lemma Rearranged(front: seq<Section>, r: Section, init: seq<Section>, last: Section)
    ensures front + [r] + (init + [last]) == front + [r] + init + [last]
    ensures front + (init + [last]) + [r] == front + init + [last] + [r]
    ensures multiset(front + init + [r] + [last]) == multiset(front + [r] + init + [last])
  {
    TakeOut(front, r, init);
  }

  /** A section can wait until all later ones had their turn. */
  lemma {:induction false} MoveLast(s: MState, front: seq<Section>, r: Section, back: seq<Section>)
    requires Keyed(s) && Independent(s.heap, multiset(front + [r] + back))
    ensures SameUpToOrder(MergeAll(s, front + [r] + back), MergeAll(s, front + back + [r]))
    decreases |back|
  {
    if |back| == 0 {
      assert front + [r] + back == front + back + [r];
    } else {
      var init, last := back[..|back| - 1], back[|back| - 1];
      assert back == init + [last];
      Rearranged(front, r, init, last);
      LastApart(s.heap, front + [r] + init, last);
      MoveLast(s, front, r, init);
      MovePast(s, front, r, init, last);
    }
  }

  /**
   The reconcile goroutines commute, however many there are: in whatever order they get the lock, reports
   of distinct workers without common IDs leave the same maps, the same per-worker lists, the same task
   data and the same entries in the sorted list.
   */
  lemma {:induction false} LockOrderIsIrrelevant(s: MState, a: seq<Section>, b: seq<Section>)
    requires Keyed(s) && multiset(a) == multiset(b) && Independent(s.heap, multiset(a))
    ensures SameUpToOrder(MergeAll(s, a), MergeAll(s, b))
    decreases |b|
  {
    if |b| == 0 {
      assert |multiset(a)| == |a|;
    } else {
      var init, r := b[..|b| - 1], b[|b| - 1];
      var front, back := SplitAt(s.heap, a, init, r) by {
        assert b == init + [r];
      }
      LockOrderIsIrrelevant(s, front + back, init);
      LastInOrder(s, front, r, back, init);
      assert b == init + [r];
    }
  }

  lemma SplitAt(h: Heap, a: seq<Section>, init: seq<Section>, r: Section)
    returns (front: seq<Section>, back: seq<Section>)
    requires multiset(a) == multiset(init + [r]) && Independent(h, multiset(a))
    ensures a == front + [r] + back && multiset(front + back) == multiset(init)
    ensures Independent(h, multiset(front + back))
  {
    assert r in multiset(a);
    var i :| 0 <= i < |a| && a[i] == r;
    front, back := a[..i], a[i + 1..];
    assert a == front + [r] + back;
    TakeOut(front, r, back);
    assert multiset(front + back) == multiset(a) - multiset{r};
    FewerAreIndependent(h, multiset(a), multiset(front + back));
  }

  lemma LastInOrder(s: MState, front: seq<Section>, r: Section, back: seq<Section>, init: seq<Section>)
    requires Keyed(s) && Independent(s.heap, multiset(front + [r] + back))
    requires SameUpToOrder(MergeAll(s, front + back), MergeAll(s, init))
    ensures SameUpToOrder(MergeAll(s, front + [r] + back), MergeAll(s, init + [r]))
  {
    MoveLast(s, front, r, back);
    SectionRespects(MergeAll(s, front + back), MergeAll(s, init), r);
    MergeAllThenOne(s, front + back, r);
    MergeAllThenOne(s, init, r);
    Transitive(MergeAll(s, front + [r] + back), MergeAll(s, front + back + [r]), MergeAll(s, init + [r]));
  }
}
