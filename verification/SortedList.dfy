/**
 The manager's time-ordered task list: binary search by start time, insertion, replacement.
 */
module SortedList {
  import opened Tasks

  ghost predicate Ascending(keys: seq<Time>) {
    forall i, j :: 0 <= i < j < |keys| ==> keys[i] <= keys[j]
  }

  ghost predicate SortedByStart(h: Heap, xs: seq<Task>) {
    Ascending(StartTimes(h, xs))
  }

  /** `sort.Search` for the first key after `k`, between `lo` and `hi`; the keys may be in any order. */
  function Search(keys: seq<Time>, k: Time, lo: nat, hi: nat): (i: nat)
    requires lo <= hi <= |keys|
    ensures lo <= i <= hi
    decreases hi - lo
  {
    if lo == hi then lo
    else
      var mid := (lo + hi) / 2;
      if keys[mid] > k then Search(keys, k, lo, mid) else Search(keys, k, mid + 1, hi)
  }

  function InsertAt<T>(xs: seq<T>, i: nat, x: T): seq<T>
    requires i <= |xs|
  {
    xs[..i] + [x] + xs[i..]
  }

  /** Where `InsertSorted` puts `o`. */
  function Position(h: Heap, xs: seq<Task>, o: Task): (i: nat)
    ensures i <= |xs|
  {
    Search(StartTimes(h, xs), At(h, o).start, 0, |xs|)
  }

  /** The list `InsertSorted` returns. */
  function Insert(h: Heap, xs: seq<Task>, o: Task): seq<Task> {
    InsertAt(xs, Position(h, xs, o), o)
  }

  /** The index of the first object with this ID, or -1. */
  function FindTask(h: Heap, xs: seq<Task>, id: Id): (i: int)
    ensures -1 <= i < |xs|
    ensures i >= 0 ==> At(h, xs[i]).id == id && forall j :: 0 <= j < i ==> At(h, xs[j]).id != id
    ensures i < 0 ==> forall j :: 0 <= j < |xs| ==> At(h, xs[j]).id != id
  {
    if |xs| == 0 then -1
    else if At(h, xs[0]).id == id then 0
    else
      var r := FindTask(h, xs[1..], id);
      if r < 0 then -1 else r + 1
  }

  /** What `AddTask` does to the list: replace the entry with this ID, or insert a new one. */
  function Enlist(h: Heap, xs: seq<Task>, o: Task): seq<Task> {
    var i := FindTask(h, xs, At(h, o).id);
    if i >= 0 then xs[i := o] else Insert(h, xs, o)
  }

  // ---------- Insertion ----------

  /** On ascending keys the search finds the end of the keys not after `k`. */
  lemma {:induction false} SearchIsUpperBound(keys: seq<Time>, k: Time, lo: nat, hi: nat)
    requires Ascending(keys) && lo <= hi <= |keys|
    requires forall j :: 0 <= j < lo ==> keys[j] <= k
    requires forall j :: hi <= j < |keys| ==> keys[j] > k
    ensures forall j :: 0 <= j < Search(keys, k, lo, hi) ==> keys[j] <= k
    ensures forall j :: Search(keys, k, lo, hi) <= j < |keys| ==> keys[j] > k
    decreases hi - lo
  {
    if lo < hi {
      var mid := (lo + hi) / 2;
      if keys[mid] > k {
        SearchIsUpperBound(keys, k, lo, mid);
      } else {
        SearchIsUpperBound(keys, k, mid + 1, hi);
      }
    }
  }

  lemma InsertKeepsSorted(h: Heap, xs: seq<Task>, o: Task)
    requires SortedByStart(h, xs)
    ensures SortedByStart(h, Insert(h, xs, o))
  {
    var keys, k := StartTimes(h, xs), At(h, o).start;
    SearchIsUpperBound(keys, k, 0, |xs|);
    assert StartTimes(h, Insert(h, xs, o)) == InsertAt(keys, Position(h, xs, o), k);
  }

  /** On any list, sorted or not, insertion neither loses nor invents an entry. */
  lemma InsertConserves(h: Heap, xs: seq<Task>, o: Task)
    ensures multiset(Insert(h, xs, o)) == multiset(xs) + multiset{o}
    ensures |Insert(h, xs, o)| == |xs| + 1
  {
    var i := Position(h, xs, o);
    assert xs == xs[..i] + xs[i..];
  }

  /** Enlisting puts the object into the list; the one entry it may displace is the first with its ID. */
  lemma EnlistDisplacesAtMostSameId(h: Heap, xs: seq<Task>, o: Task)
    ensures var i, ys := FindTask(h, xs, At(h, o).id), Enlist(h, xs, o);
            && o in ys
            && (if i >= 0 then
                  && multiset(ys) + multiset{xs[i]} == multiset(xs) + multiset{o}
                  && |ys| == |xs| && ys[i] == o && forall j :: 0 <= j < |xs| && j != i ==> ys[j] == xs[j]
                else multiset(ys) == multiset(xs) + multiset{o} && |ys| == |xs| + 1)
  {
    var i := FindTask(h, xs, At(h, o).id);
    if i >= 0 {
      ReplaceEntry(xs, i, o);
    } else {
      InsertConserves(h, xs, o);
      assert o in multiset(Insert(h, xs, o));
    }
  }

  lemma ReplaceEntry(xs: seq<Task>, i: nat, o: Task)
    requires i < |xs|
    ensures multiset(xs[i := o]) + multiset{xs[i]} == multiset(xs) + multiset{o}
    ensures o in xs[i := o]
  {
    var ys := xs[i := o];
    assert ys[i] == o;
    assert xs == xs[..i] + [xs[i]] + xs[i + 1..];
    assert ys == xs[..i] + [o] + xs[i + 1..];
  }

  lemma EnlistKeepsSorted(h: Heap, xs: seq<Task>, o: Task)
    requires SortedByStart(h, xs)
    requires forall x :: x in xs && At(h, x).id == At(h, o).id ==> At(h, x).start == At(h, o).start
    ensures SortedByStart(h, Enlist(h, xs, o))
  {
    var i := FindTask(h, xs, At(h, o).id);
    if i >= 0 {
      assert xs[i] in xs;
      assert StartTimes(h, xs[i := o]) == StartTimes(h, xs);
    } else {
      InsertKeepsSorted(h, xs, o);
    }
  }

  // ---------- Any arrival sequence is sorted stably ----------

  function InsertAll(h: Heap, arrivals: seq<Task>): seq<Task> {
    if |arrivals| == 0 then []
    else Insert(h, InsertAll(h, arrivals[..|arrivals| - 1]), arrivals[|arrivals| - 1])
  }

  /** The objects that start at `t`, in list order. */
  function StartingAt(h: Heap, xs: seq<Task>, t: Time): seq<Task> {
    if |xs| == 0 then []
    else
      var init := StartingAt(h, xs[..|xs| - 1], t);
      if At(h, xs[|xs| - 1]).start == t then init + [xs[|xs| - 1]] else init
  }

  lemma {:induction false} StartingAtConcat(h: Heap, xs: seq<Task>, ys: seq<Task>, t: Time)
    ensures StartingAt(h, xs + ys, t) == StartingAt(h, xs, t) + StartingAt(h, ys, t)
  {
    if |ys| == 0 {
      assert xs + ys == xs;
    } else {
      assert (xs + ys)[..|xs + ys| - 1] == xs + ys[..|ys| - 1];
      StartingAtConcat(h, xs, ys[..|ys| - 1], t);
    }
  }

  lemma {:induction false} StartingAtNone(h: Heap, xs: seq<Task>, t: Time)
    requires forall x :: x in xs ==> At(h, x).start != t
    ensures StartingAt(h, xs, t) == []
  {
    if |xs| > 0 {
      StartingAtNone(h, xs[..|xs| - 1], t);
    }
  }

  lemma InsertIsStable(h: Heap, xs: seq<Task>, o: Task, t: Time)
    requires SortedByStart(h, xs)
    ensures StartingAt(h, Insert(h, xs, o), t) == StartingAt(h, xs + [o], t)
  {
    var i := Position(h, xs, o);
    var front, back := xs[..i], xs[i..];
    assert xs == front + back;
    StartingAtConcat(h, front + [o], back, t);
    StartingAtConcat(h, front, [o], t);
    StartingAtConcat(h, front, back, t);
    StartingAtConcat(h, xs, [o], t);
    if At(h, o).start == t {
      TailStartsLater(h, xs, o);
      StartingAtNone(h, back, t);
    } else {
      StartingAtNone(h, [o], t);
    }
  }

  lemma TailStartsLater(h: Heap, xs: seq<Task>, o: Task)
    requires SortedByStart(h, xs)
    ensures forall x :: x in xs[Position(h, xs, o)..] ==> At(h, x).start > At(h, o).start
  {
    var i, keys := Position(h, xs, o), StartTimes(h, xs);
    SearchIsUpperBound(keys, At(h, o).start, 0, |xs|);
    forall x | x in xs[i..] ensures At(h, x).start > At(h, o).start {
      var j :| 0 <= j < |xs[i..]| && xs[i..][j] == x;
      assert keys[i + j] > At(h, o).start;
    }
  }

  /** Inserting the arrivals one by one is a stable sort of them by start time. */
  lemma {:induction false} InsertAllIsStableSort(h: Heap, arrivals: seq<Task>)
    ensures SortedByStart(h, InsertAll(h, arrivals))
    ensures multiset(InsertAll(h, arrivals)) == multiset(arrivals)
    ensures forall t :: StartingAt(h, InsertAll(h, arrivals), t) == StartingAt(h, arrivals, t)
  {
    if |arrivals| > 0 {
      var init, o := arrivals[..|arrivals| - 1], arrivals[|arrivals| - 1];
      assert arrivals == init + [o];
      InsertAllIsStableSort(h, init);
      var xs := InsertAll(h, init);
      InsertKeepsSorted(h, xs, o);
      InsertConserves(h, xs, o);
      forall t ensures StartingAt(h, Insert(h, xs, o), t) == StartingAt(h, arrivals, t) {
        InsertIsStable(h, xs, o, t);
        StartingAtConcat(h, xs, [o], t);
        StartingAtConcat(h, init, [o], t);
      }
    }
  }
}
