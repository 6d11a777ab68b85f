/**
 What every lock-protected section of the manager keeps: the indexes agree with each other, and, as
 long as nothing was cleaned up, the sorted list holds exactly the objects of the task map.
 */
module Coherence {
  import opened Tasks
  import opened SortedList
  import opened Health
  import opened ManagerState
  import opened Reconcile
  import C = Cleanup

  function ListedIds(h: Heap, xs: seq<Task>): set<Id> {
    set x | x in xs :: At(h, x).id
  }

  /** Every object the queue and the list refer to exists. */
  ghost predicate Closed(s: MState) {
    (forall o :: o in s.queue ==> o in s.heap) && (forall o :: o in s.sorted ==> o in s.heap)
  }

  /** Every task object the manager ever made has its ID in the sorted list. */
  ghost predicate Listed(s: MState) {
    forall o :: o in s.heap ==> s.heap[o].id in ListedIds(s.heap, s.sorted)
  }

  /** The owner index points at known workers whose lists hold the ID; no index outlives the task map. */
  ghost predicate Indexed(s: MState) {
    && (forall id :: id in s.owner ==> id in s.db && s.owner[id] in s.workers && id in TasksOf(s, s.owner[id]))
    && (forall id :: id in s.events ==> id in s.db)
    && (forall w :: w in s.workerTasks <==> w in s.workers)
  }

  ghost predicate Coherent(s: MState) {
    Keyed(s) && Closed(s) && Listed(s) && Indexed(s)
  }

  /** One object per ID, all of them in the task map, and each once in the sorted list. */
  ghost predicate Exact(s: MState) {
    && (forall o :: o in s.heap ==> s.heap[o].id in s.db && s.db[s.heap[o].id] == o)
    && (forall o :: o in s.heap ==> multiset(s.sorted)[o] == 1)
  }

  lemma ExactListIsTaskMap(s: MState)
    requires Keyed(s) && Closed(s) && Exact(s)
    ensures multiset(s.sorted) == multiset(s.db.Values)
  {
    forall o ensures multiset(s.sorted)[o] == multiset(s.db.Values)[o] {
      if o in s.heap {
        assert s.db[s.heap[o].id] == o;
        assert o in s.db.Values;
      } else {
        assert o !in s.sorted;
        assert o !in s.db.Values;
      }
    }
  }

  // ---------- The sorted list and IDs ----------

  lemma EnlistIds(h: Heap, xs: seq<Task>, o: Task)
    ensures ListedIds(h, Enlist(h, xs, o)) == ListedIds(h, xs) + {At(h, o).id}
    ensures forall x :: x in Enlist(h, xs, o) ==> x == o || x in xs
  {
    var i := FindTask(h, xs, At(h, o).id);
    var ys := Enlist(h, xs, o);
    if i >= 0 {
      forall id ensures id in ListedIds(h, ys) <==> id in ListedIds(h, xs) + {At(h, o).id} {
        if id in ListedIds(h, xs) {
          var x :| x in xs && At(h, x).id == id;
          var j :| 0 <= j < |xs| && xs[j] == x;
          assert ys[j] in ys && ys[i] in ys;
        }
        if id == At(h, o).id {
          assert ys[i] in ys;
        }
      }
    } else {
      InsertIds(h, xs, o);
    }
  }

  lemma InsertIds(h: Heap, xs: seq<Task>, o: Task)
    ensures ListedIds(h, Insert(h, xs, o)) == ListedIds(h, xs) + {At(h, o).id}
    ensures forall x :: x in Insert(h, xs, o) <==> x == o || x in xs
  {
  }

  /** Writing fields other than the ID of known objects changes no list of IDs. */
  lemma ListedIdsKept(h: Heap, h': Heap, xs: seq<Task>)
    requires forall x :: x in xs ==> At(h, x).id == At(h', x).id
    ensures ListedIds(h, xs) == ListedIds(h', xs)
  {
  }

  // ---------- Coherence ----------

  lemma NewIsCoherent(workers: seq<Worker>)
    ensures Coherent(New(workers)) && Exact(New(workers))
  {
  }

  lemma AddTaskKeepsCoherent(s: MState, o: Task)
    requires Coherent(s) && o in s.heap
    ensures Coherent(AddTask(s, o))
  {
    EnlistIds(s.heap, s.sorted, o);
  }

  /** A new object whose ID the new list names keeps every object listed. */
  lemma GrowthKeepsListed(s: MState, o: Task, d: TaskData, ys: seq<Task>)
    requires Closed(s) && Listed(s) && o !in s.heap
    requires ListedIds(s.heap[o := d], ys) == ListedIds(s.heap[o := d], s.sorted) + {d.id}
    requires forall x :: x in ys ==> x == o || x in s.sorted
    ensures var t := s.(heap := s.heap[o := d], sorted := ys); Closed(t) && Listed(t)
  {
  }

  lemma SubmitKeepsCoherent(s: MState, o: Task, d: TaskData)
    requires Coherent(s) && o !in s.heap
    ensures Coherent(Submit(s, o, d))
  {
    var h := s.heap[o := d];
    EnlistIds(h, s.sorted, o);
    GrowthKeepsListed(s, o, d, Enlist(h, s.sorted, o));
    FilingKeepsIndexed(s, o, d);
  }

  lemma FilingKeepsIndexed(s: MState, o: Task, d: TaskData)
    requires Keyed(s) && Indexed(s) && o !in s.heap
    ensures var t := s.(heap := s.heap[o := d], db := s.db[d.id := o]); Keyed(t) && Indexed(t)
  {
  }

  /** Writing fields other than the ID keeps the indexes as they are. */
  lemma WriteKeepsCoherent(s: MState, o: Task, d: TaskData)
    requires Coherent(s) && o in s.heap && d.id == s.heap[o].id
    ensures Coherent(s.(heap := s.heap[o := d]))
  {
    WriteKeepsListed(s, o, d);
    WriteKeepsKeyed(s, o, d);
  }

  lemma WriteKeepsKeyed(s: MState, o: Task, d: TaskData)
    requires Keyed(s) && Closed(s) && o in s.heap && d.id == s.heap[o].id
    ensures var t := s.(heap := s.heap[o := d]); Keyed(t) && Closed(t)
  {
  }

  lemma WriteKeepsListed(s: MState, o: Task, d: TaskData)
    requires Listed(s) && o in s.heap && d.id == s.heap[o].id
    ensures Listed(s.(heap := s.heap[o := d]))
  {
  }

  lemma WriteKeepsExact(s: MState, o: Task, d: TaskData)
    requires Exact(s) && o in s.heap && d.id == s.heap[o].id
    ensures Exact(s.(heap := s.heap[o := d]))
  {
  }

  lemma CommitKeepsCoherent(s: MState, o: Task, w: Worker, te: TaskEvent)
    requires Coherent(s) && o in s.heap && w in s.workers
    ensures Coherent(Commit(s, o, w, te))
  {
  }

  lemma AdoptKeepsCoherent(s: MState, w: Worker, e: TaskData, o: Task)
    requires Coherent(s) && o !in s.heap && w in s.workers && e.id !in s.db
    ensures Coherent(Adopt(s, w, e, o))
  {
    var h := s.heap[o := e];
    InsertIds(h, s.sorted, o);
    var ys := Insert(h, s.sorted, o);
    GrowthKeepsListed(s, o, e, ys);
    AdoptKeepsIndexed(s, w, e, o, ys);
  }

  lemma AdoptKeepsIndexed(s: MState, w: Worker, e: TaskData, o: Task, ys: seq<Task>)
    requires Keyed(s) && Indexed(s) && o !in s.heap && w in s.workers
    ensures var t := s.(heap := s.heap[o := e], sorted := ys, db := s.db[e.id := o], owner := s.owner[e.id := w],
                        workerTasks := s.workerTasks[w := AddIfMissing(TasksOf(s, w), e.id)]);
            Keyed(t) && Indexed(t)
  {
  }

  lemma MergeOneKeepsCoherent(s: MState, w: Worker, e: TaskData, o: Task)
    requires Coherent(s) && o !in s.heap && w in s.workers
    ensures Coherent(MergeOne(s, w, e, o))
  {
    if e.id !in s.db {
      AdoptKeepsCoherent(s, w, e, o);
    } else if At(s.heap, s.db[e.id]).state != e.state {
      WriteKeepsCoherent(s, s.db[e.id], Updated(s.heap[s.db[e.id]], e));
    }
  }

  lemma {:induction false} MergeKeepsCoherent(s: MState, w: Worker, report: seq<TaskData>, objs: seq<Task>)
    requires Coherent(s) && w in s.workers && |objs| == |report| && NewObjects(s.heap, objs)
    ensures Coherent(Merge(s, w, report, objs))
    ensures Merge(s, w, report, objs).workers == s.workers
  {
    var n := |report|;
    if n > 0 {
      MergeKeepsCoherent(s, w, report[..n - 1], objs[..n - 1]);
      LastIsNew(s, w, report, objs);
      MergeOneKeepsCoherent(Merge(s, w, report[..n - 1], objs[..n - 1]), w, report[n - 1], objs[n - 1]);
    }
  }

  /** The state in which the last task of a report is merged. */
  lemma BeforeLast(s: MState, w: Worker, report: seq<TaskData>, objs: seq<Task>) returns (m: MState)
    requires Coherent(s) && w in s.workers && |objs| == |report| > 0 && NewObjects(s.heap, objs)
    ensures var n := |report|;
            && m == Merge(s, w, report[..n - 1], objs[..n - 1])
            && Merge(s, w, report, objs) == MergeOne(m, w, report[n - 1], objs[n - 1])
            && Coherent(m) && w in m.workers && objs[n - 1] !in m.heap
  {
    var n := |report|;
    m := Merge(s, w, report[..n - 1], objs[..n - 1]);
    MergeKeepsCoherent(s, w, report[..n - 1], objs[..n - 1]);
    LastIsNew(s, w, report, objs);
  }

  lemma CleanKeepsCoherent(s: MState, ids: set<Id>)
    requires Coherent(s)
    ensures Coherent(Clean(s, ids))
  {
    var c := Clean(s, ids);
    forall id | id in c.owner ensures id in TasksOf(c, c.owner[id]) {
      C.RemoveFirstsMembers(TasksOf(s, s.owner[id]), OwnedBy(s, ids, s.owner[id]), id);
    }
  }

  lemma CleanUpKeepsCoherent(s: MState, now: Time)
    requires Coherent(s)
    ensures Coherent(CleanUp(s, now))
  {
    CleanKeepsCoherent(s, Victims(s, now - RETENTION));
  }

  // ---------- The list refines the map ----------

  lemma AddTaskKeepsExact(s: MState, o: Task)
    requires Coherent(s) && Exact(s) && o in s.heap
    ensures Exact(AddTask(s, o))
  {
  }

  lemma GrowthKeepsExact(s: MState, o: Task, d: TaskData, ys: seq<Task>)
    requires Closed(s) && Exact(s) && o !in s.heap && multiset(ys) == multiset(s.sorted) + multiset{o}
    requires forall x :: x in s.heap ==> s.heap[x].id != d.id
    ensures Exact(s.(heap := s.heap[o := d], db := s.db[d.id := o], sorted := ys))
  {
  }

  lemma SubmitKeepsExact(s: MState, o: Task, d: TaskData)
    requires Coherent(s) && Exact(s) && o !in s.heap
    requires forall x :: x in s.heap ==> s.heap[x].id != d.id
    ensures Exact(Submit(s, o, d))
  {
    var h := s.heap[o := d];
    forall j | 0 <= j < |s.sorted| ensures At(h, s.sorted[j]).id != d.id {
      assert s.sorted[j] in s.sorted;
    }
    assert FindTask(h, s.sorted, d.id) == -1;
    InsertConserves(h, s.sorted, o);
    GrowthKeepsExact(s, o, d, Insert(h, s.sorted, o));
  }

  lemma AdoptKeepsExact(s: MState, w: Worker, e: TaskData, o: Task)
    requires Coherent(s) && Exact(s) && o !in s.heap && e.id !in s.db
    ensures Exact(Adopt(s, w, e, o))
  {
    var h := s.heap[o := e];
    InsertConserves(h, s.sorted, o);
    GrowthKeepsExact(s, o, e, Insert(h, s.sorted, o));
  }

  lemma MergeOneKeepsExact(s: MState, w: Worker, e: TaskData, o: Task)
    requires Coherent(s) && Exact(s) && o !in s.heap
    ensures Exact(MergeOne(s, w, e, o))
  {
    if e.id !in s.db {
      AdoptKeepsExact(s, w, e, o);
    } else if At(s.heap, s.db[e.id]).state != e.state {
      WriteKeepsExact(s, s.db[e.id], Updated(s.heap[s.db[e.id]], e));
    }
  }

  lemma {:induction false} MergeKeepsExact(s: MState, w: Worker, report: seq<TaskData>, objs: seq<Task>)
    requires Coherent(s) && Exact(s) && w in s.workers && |objs| == |report| && NewObjects(s.heap, objs)
    ensures Exact(Merge(s, w, report, objs))
  {
    var n := |report|;
    if n > 0 {
      MergeKeepsExact(s, w, report[..n - 1], objs[..n - 1]);
      var m := BeforeLast(s, w, report, objs);
      MergeOneKeepsExact(m, w, report[n - 1], objs[n - 1]);
    }
  }

  // ---------- The length of the list ----------

  /** The list has as many entries as objects were ever made. */
  ghost predicate OneEntryPerObject(s: MState) {
    |s.sorted| == |s.heap|
  }

  /** Adding an object that is not new replaces an entry: its ID is listed. */
  lemma AddTaskKeepsCount(s: MState, o: Task)
    requires Coherent(s) && o in s.heap && OneEntryPerObject(s)
    ensures OneEntryPerObject(AddTask(s, o))
  {
    assert s.heap[o].id in ListedIds(s.heap, s.sorted);
    var x :| x in s.sorted && At(s.heap, x).id == s.heap[o].id;
    var j :| 0 <= j < |s.sorted| && s.sorted[j] == x;
    assert FindTask(s.heap, s.sorted, s.heap[o].id) >= 0;
  }

  lemma SubmitKeepsCount(s: MState, o: Task, d: TaskData)
    requires Coherent(s) && o !in s.heap && OneEntryPerObject(s)
    requires forall x :: x in s.heap ==> s.heap[x].id != d.id
    ensures OneEntryPerObject(Submit(s, o, d))
  {
    var h := s.heap[o := d];
    forall j | 0 <= j < |s.sorted| ensures At(h, s.sorted[j]).id != d.id {
      assert s.sorted[j] in s.sorted;
    }
    assert FindTask(h, s.sorted, d.id) == -1;
    InsertConserves(h, s.sorted, o);
    CountAdded(s.heap, o, d);
  }

  lemma CountAdded(h: Heap, o: Task, d: TaskData)
    ensures |h[o := d]| == |h| + (if o in h then 0 else 1)
  {
    assert h[o := d].Keys == h.Keys + {o};
  }

  lemma MergeOneKeepsCount(s: MState, w: Worker, e: TaskData, o: Task)
    requires Keyed(s) && o !in s.heap && OneEntryPerObject(s)
    ensures OneEntryPerObject(MergeOne(s, w, e, o))
  {
    if e.id in s.db {
      CountAdded(s.heap, s.db[e.id], Updated(At(s.heap, s.db[e.id]), e));
    } else {
      InsertConserves(s.heap[o := e], s.sorted, o);
      CountAdded(s.heap, o, e);
    }
  }

  lemma {:induction false} MergeKeepsCount(s: MState, w: Worker, report: seq<TaskData>, objs: seq<Task>)
    requires Keyed(s) && |objs| == |report| && NewObjects(s.heap, objs) && OneEntryPerObject(s)
    ensures OneEntryPerObject(Merge(s, w, report, objs))
  {
    var n := |report|;
    if n > 0 {
      MergeKeepsCount(s, w, report[..n - 1], objs[..n - 1]);
      MergeKeepsKeyed(s, w, report[..n - 1], objs[..n - 1]);
      LastIsNew(s, w, report, objs);
      MergeOneKeepsCount(Merge(s, w, report[..n - 1], objs[..n - 1]), w, report[n - 1], objs[n - 1]);
    }
  }

  /** Distinct IDs have distinct objects, so the map has as many values as keys. */
  lemma ValuesAreKeys(s: MState)
    requires Keyed(s)
    ensures |s.db.Values| == |s.db|
  {
    CountValues(s.db, s.heap, s.db.Keys);
    assert (set k | k in s.db.Keys :: s.db[k]) == s.db.Values;
  }

  lemma {:induction false} CountValues(db: map<Id, Task>, h: Heap, keys: set<Id>)
    requires keys <= db.Keys
    requires forall k :: k in db ==> db[k] in h && h[db[k]].id == k
    ensures |set k | k in keys :: db[k]| == |keys|
  {
    if keys == {} {
    } else {
      var x :| x in keys;
      CountValues(db, h, keys - {x});
      assert (set k | k in keys :: db[k]) == (set k | k in keys - {x} :: db[k]) + {db[x]};
      assert db[x] !in (set k | k in keys - {x} :: db[k]);
    }
  }

  /** A set no larger than one of its subsets is that subset. */
  lemma EqualSize(a: set<Task>, b: set<Task>)
    requires a <= b && |a| == |b|
    ensures a == b
  {
    assert b == a + (b - a);
  }

  /** A list as long as a set all of whose members it holds, holds each once. */
  lemma EachOnce(xs: seq<Task>, members: set<Task>)
    requires |xs| == |members| && forall x :: x in members ==> x in xs
    ensures multiset(xs) == multiset(members)
  {
    var rest := multiset(xs) - multiset(members);
    assert multiset(members) <= multiset(xs);
    assert multiset(xs) == multiset(members) + rest;
    assert |rest| == 0;
  }

  /** The list is the objects of the task map, each once, exactly when the two are equally long. */
  lemma ListIsMapWhenAsLong(s: MState)
    requires Coherent(s) && OneEntryPerObject(s)
    ensures multiset(s.sorted) == multiset(s.db.Values) <==> |s.sorted| == |s.db|
  {
    ValuesAreKeys(s);
    assert |multiset(s.sorted)| == |s.sorted|;
    if |s.sorted| == |s.db| {
      EqualSize(s.db.Values, s.heap.Keys);
      forall o | o in s.heap ensures o in s.sorted {
        assert s.heap[o].id in ListedIds(s.heap, s.sorted);
        var x :| x in s.sorted && At(s.heap, x).id == s.heap[o].id;
        assert o in s.db.Values && x in s.db.Values;
      }
      EachOnce(s.sorted, s.db.Values);
    }
  }

  // ---------- The IDs of the sorted list ----------

  /** The listed IDs are those of the task map and those cleanup took out of it. */
  ghost predicate ListsMapAndCleaned(s: MState, cleaned: set<Id>) {
    ListedIds(s.heap, s.sorted) == s.db.Keys + cleaned
  }

  lemma MergeOneKeepsListing(s: MState, w: Worker, e: TaskData, o: Task, cleaned: set<Id>)
    requires Coherent(s) && o !in s.heap && ListsMapAndCleaned(s, cleaned)
    ensures ListsMapAndCleaned(MergeOne(s, w, e, o), cleaned)
  {
    if e.id in s.db {
      ListedIdsKept(s.heap, Refresh(s.heap, s.db[e.id], e), s.sorted);
    } else {
      ListedIdsKept(s.heap, s.heap[o := e], s.sorted);
      InsertIds(s.heap[o := e], s.sorted, o);
    }
  }

  lemma AddTaskKeepsListing(s: MState, o: Task, cleaned: set<Id>)
    requires Coherent(s) && o in s.heap && ListsMapAndCleaned(s, cleaned)
    ensures ListsMapAndCleaned(AddTask(s, o), cleaned)
  {
    EnlistIds(s.heap, s.sorted, o);
  }

  lemma SubmitKeepsListing(s: MState, o: Task, d: TaskData, cleaned: set<Id>)
    requires Coherent(s) && o !in s.heap && ListsMapAndCleaned(s, cleaned)
    ensures ListsMapAndCleaned(Submit(s, o, d), cleaned)
  {
    ListedIdsKept(s.heap, s.heap[o := d], s.sorted);
    EnlistIds(s.heap[o := d], s.sorted, o);
  }

  lemma CommitKeepsListing(s: MState, o: Task, w: Worker, te: TaskEvent, cleaned: set<Id>)
    requires Coherent(s) && o in s.heap && ListsMapAndCleaned(s, cleaned)
    ensures ListsMapAndCleaned(Commit(s, o, w, te), cleaned)
  {
  }

  lemma CleanUpKeepsListing(s: MState, now: Time, cleaned: set<Id>)
    requires ListsMapAndCleaned(s, cleaned)
    ensures ListsMapAndCleaned(CleanUp(s, now), cleaned + Victims(s, now - RETENTION))
  {
  }

  lemma {:induction false} MergeKeepsListing(
      s: MState, w: Worker, report: seq<TaskData>, objs: seq<Task>, cleaned: set<Id>)
    requires Coherent(s) && w in s.workers && |objs| == |report| && NewObjects(s.heap, objs)
    requires ListsMapAndCleaned(s, cleaned)
    ensures ListsMapAndCleaned(Merge(s, w, report, objs), cleaned)
  {
    var n := |report|;
    if n > 0 {
      MergeKeepsListing(s, w, report[..n - 1], objs[..n - 1], cleaned);
      var m := BeforeLast(s, w, report, objs);
      MergeOneKeepsListing(m, w, report[n - 1], objs[n - 1], cleaned);
    }
  }

  // ---------- Sort order ----------

  /** The start time of every object is the one recorded for its ID. */
  ghost predicate Stamped(h: Heap, stamp: map<Id, Time>) {
    forall o :: o in h ==> h[o].id in stamp && h[o].start == stamp[h[o].id]
  }

  ghost predicate ReportStamped(report: seq<TaskData>, stamp: map<Id, Time>) {
    forall e :: e in report ==> e.id in stamp && e.start == stamp[e.id]
  }

  lemma SortKept(h: Heap, h': Heap, xs: seq<Task>)
    requires SortedByStart(h, xs)
    requires forall x :: x in xs ==> At(h, x).start == At(h', x).start
    ensures SortedByStart(h', xs)
  {
    forall i | 0 <= i < |xs| ensures StartTimes(h, xs)[i] == StartTimes(h', xs)[i] {
      assert xs[i] in xs;
    }
    assert StartTimes(h, xs) == StartTimes(h', xs);
  }

  lemma AddTaskKeepsSorted(s: MState, o: Task, stamp: map<Id, Time>)
    requires Closed(s) && o in s.heap && Stamped(s.heap, stamp) && SortedByStart(s.heap, s.sorted)
    ensures SortedByStart(AddTask(s, o).heap, AddTask(s, o).sorted)
  {
    EnlistKeepsSorted(s.heap, s.sorted, o);
  }

  lemma SubmitKeepsSorted(s: MState, o: Task, d: TaskData, stamp: map<Id, Time>)
    requires Closed(s) && o !in s.heap && Stamped(s.heap, stamp) && SortedByStart(s.heap, s.sorted)
    requires d.id !in stamp
    ensures SortedByStart(Submit(s, o, d).heap, Submit(s, o, d).sorted)
    ensures Stamped(Submit(s, o, d).heap, stamp[d.id := d.start])
  {
    var h := s.heap[o := d];
    SortKept(s.heap, h, s.sorted);
    EnlistKeepsSorted(h, s.sorted, o);
  }

  /**
   Reconcile writes start times in place and never re-sorts; the list stays sorted because the times
   it writes are the ones already there.
   */
  lemma {:induction false} MergeKeepsSorted(
      s: MState, w: Worker, report: seq<TaskData>, objs: seq<Task>, stamp: map<Id, Time>)
    requires Coherent(s) && w in s.workers && |objs| == |report| && NewObjects(s.heap, objs)
    requires Stamped(s.heap, stamp) && ReportStamped(report, stamp) && SortedByStart(s.heap, s.sorted)
    ensures Stamped(Merge(s, w, report, objs).heap, stamp)
    ensures SortedByStart(Merge(s, w, report, objs).heap, Merge(s, w, report, objs).sorted)
  {
    var n := |report|;
    if n > 0 {
      MergeKeepsSorted(s, w, report[..n - 1], objs[..n - 1], stamp);
      var m := BeforeLast(s, w, report, objs);
      assert report[n - 1] in report;
      MergeOneKeepsSorted(m, w, report[n - 1], objs[n - 1], stamp);
    }
  }

  lemma MergeOneKeepsSorted(s: MState, w: Worker, e: TaskData, o: Task, stamp: map<Id, Time>)
    requires Coherent(s) && o !in s.heap
    requires Stamped(s.heap, stamp) && e.id in stamp && e.start == stamp[e.id] && SortedByStart(s.heap, s.sorted)
    ensures Stamped(MergeOne(s, w, e, o).heap, stamp)
    ensures SortedByStart(MergeOne(s, w, e, o).heap, MergeOne(s, w, e, o).sorted)
  {
    if e.id in s.db {
      SortKept(s.heap, Refresh(s.heap, s.db[e.id], e), s.sorted);
    } else {
      var h := s.heap[o := e];
      SortKept(s.heap, h, s.sorted);
      InsertKeepsSorted(h, s.sorted, o);
    }
  }

  /**
   Without that agreement the order can break: two tasks in order, and a report that moves the first
   one's start time past the second's.
   */
  lemma DisagreeingReportUnsorts(a: Task, b: Task, c: Task, spec: TaskSpec, w: Worker)
    requires a != b
    ensures var early := TaskData(1, spec, "", Pending, 10, ZERO_TIME);
            var late := TaskData(2, spec, "", Pending, 20, ZERO_TIME);
            var s := Submit(Submit(New([w]), a, early), b, late);
            var m := Merge(s, w, [early.(state := Running, start := 30)], [c]);
            SortedByStart(s.heap, s.sorted) && !SortedByStart(m.heap, m.sorted)
  {
    var early := TaskData(1, spec, "", Pending, 10, ZERO_TIME);
    var late := TaskData(2, spec, "", Pending, 20, ZERO_TIME);
    var s0 := Submit(New([w]), a, early);
    assert s0.sorted == [a];
    var h := map[a := early, b := late];
    assert FindTask(h, [a], 2) == -1;
    assert StartTimes(h, [a]) == [10];
    assert Position(h, [a], b) == 1;
    var s := Submit(s0, b, late);
    assert s.sorted == [a, b] && s.heap == h;
    var e := early.(state := Running, start := 30);
    var report := [e];
    assert Merge(s, w, report[..0], [c][..0]) == s;
    var m := Merge(s, w, report, [c]);
    assert m == MergeOne(s, w, e, c);
    assert s.db[1] == a;
    assert m.heap[a].start == 30 && m.heap[b].start == 20;
    assert StartTimes(m.heap, m.sorted)[0] == 30 && StartTimes(m.heap, m.sorted)[1] == 20;
    assert StartTimes(s.heap, s.sorted) == [10, 20];
  }
}
