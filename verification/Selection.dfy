/**
 Choosing the worker for a task: the schedulable workers, and round robin over them.
 */
module Selection {
  import opened Tasks
  import opened Health
  import opened Arithmetic

  // ---------- The schedulable list ----------

  function Filter(xs: seq<Worker>, p: Worker -> bool): seq<Worker> {
    if |xs| == 0 then []
    else
      var init, w := Filter(xs[..|xs| - 1], p), xs[|xs| - 1];
      if p(w) then init + [w] else init
  }

  function HealthyWorkers(workers: seq<Worker>, r: Record): seq<Worker> {
    Filter(workers, (w: Worker) => r.IsHealthy(w))
  }

  function ReadyWorkers(workers: seq<Worker>, r: Record): seq<Worker> {
    Filter(workers, (w: Worker) => r.IsReady(w))
  }

  /** The members of `b` that are in `a`, in the order of `b`. */
  function InBoth(a: seq<Worker>, b: seq<Worker>): seq<Worker> {
    Filter(b, (w: Worker) => w in a)
  }

  /** The list the manager computes from health read at one time and readiness read at another. */
  function Schedulable(workers: seq<Worker>, health: Record, readiness: Record): seq<Worker> {
    InBoth(HealthyWorkers(workers, health), ReadyWorkers(workers, readiness))
  }

  lemma {:induction false} FilterMembers(xs: seq<Worker>, p: Worker -> bool, w: Worker)
    ensures w in Filter(xs, p) <==> w in xs && p(w)
  {
    if |xs| > 0 {
      assert xs == xs[..|xs| - 1] + [xs[|xs| - 1]];
      FilterMembers(xs[..|xs| - 1], p, w);
    }
  }

  lemma {:induction false} FilterConcat(xs: seq<Worker>, ys: seq<Worker>, p: Worker -> bool)
    ensures Filter(xs + ys, p) == Filter(xs, p) + Filter(ys, p)
  {
    if |ys| == 0 {
      assert xs + ys == xs;
    } else {
      var init := ys[..|ys| - 1];
      assert (xs + ys)[..|xs + ys| - 1] == xs + init;
      FilterConcat(xs, init, p);
    }
  }

  /** Each entry that passes is kept where it stands between the others, and each other entry goes. */
  lemma FilterAround(front: seq<Worker>, w: Worker, back: seq<Worker>, p: Worker -> bool)
    ensures Filter(front + [w] + back, p) == Filter(front, p) + (if p(w) then [w] else []) + Filter(back, p)
  {
    FilterConcat(front + [w], back, p);
    FilterConcat(front, [w], p);
  }

  lemma {:induction false} FilterOfFilter(xs: seq<Worker>, p: Worker -> bool, q: Worker -> bool, both: Worker -> bool)
    requires forall w :: w in xs ==> (both(w) <==> p(w) && q(w))
    ensures Filter(Filter(xs, p), q) == Filter(xs, both)
  {
    if |xs| > 0 {
      var init, w := xs[..|xs| - 1], xs[|xs| - 1];
      FilterOfFilter(init, p, q, both);
      assert w in xs;
      if p(w) {
        assert (Filter(init, p) + [w])[..|Filter(init, p)|] == Filter(init, p);
      }
    }
  }

  /**
   Whatever the two records say, the schedulable list is the configured list, in its order, without
   the workers that are not both healthy and ready.
   */
  lemma SchedulableIsFilter(workers: seq<Worker>, health: Record, readiness: Record)
    ensures Schedulable(workers, health, readiness)
         == Filter(workers, (w: Worker) => health.IsHealthy(w) && readiness.IsReady(w))
  {
    var healthy := HealthyWorkers(workers, health);
    forall w | w in workers ensures w in healthy <==> health.IsHealthy(w) {
      FilterMembers(workers, (w: Worker) => health.IsHealthy(w), w);
    }
    FilterOfFilter(workers, (w: Worker) => readiness.IsReady(w), (w: Worker) => w in healthy,
                   (w: Worker) => health.IsHealthy(w) && readiness.IsReady(w));
  }

  /** The workers that are healthy in one record and ready in another. */
  function Eligible(workers: seq<Worker>, health: Record, readiness: Record): set<Worker> {
    set w | w in workers && health.IsHealthy(w) && readiness.IsReady(w)
  }

  lemma SchedulableMembers(workers: seq<Worker>, health: Record, readiness: Record, w: Worker)
    ensures w in Schedulable(workers, health, readiness) <==> w in Eligible(workers, health, readiness)
  {
    SchedulableIsFilter(workers, health, readiness);
    FilterMembers(workers, (w: Worker) => health.IsHealthy(w) && readiness.IsReady(w), w);
  }

  // ---------- The choice ----------

  datatype Choice = Chosen(worker: Worker, last: nat) | NoWorker

  function PickFrom(list: seq<Worker>, last: nat): Choice
    requires |list| > 0
  {
    var next := (last + 1) % |list|;
    Chosen(list[next], next)
  }

  /** `SelectWorker`, with the health map and the state map read at two different times. */
  function Select(workers: seq<Worker>, health: Record, readiness: Record, last: nat): Choice {
    if |workers| == 0 then NoWorker
    else if |HealthyWorkers(workers, health)| == 0 then NoWorker
    else if |ReadyWorkers(workers, readiness)| == 0 then NoWorker
    else
      var list := Schedulable(workers, health, readiness);
      if |list| == 0 then NoWorker else PickFrom(list, last)
  }

  /** Selection fails exactly when no configured worker is both healthy and ready. */
  lemma SelectFailsIffNoneEligible(workers: seq<Worker>, health: Record, readiness: Record, last: nat)
    ensures var c := Select(workers, health, readiness, last);
            && (c == NoWorker <==> Eligible(workers, health, readiness) == {})
            && (c.Chosen? ==> c.worker in Eligible(workers, health, readiness))
            && (c.Chosen? ==> c.last < |Schedulable(workers, health, readiness)|)
  {
    var list := Schedulable(workers, health, readiness);
    forall w ensures w in list <==> w in Eligible(workers, health, readiness) {
      SchedulableMembers(workers, health, readiness, w);
    }
    if Eligible(workers, health, readiness) != {} {
      var w :| w in Eligible(workers, health, readiness);
      assert w in list;
      FilterMembers(workers, (w: Worker) => health.IsHealthy(w), w);
      FilterMembers(workers, (w: Worker) => readiness.IsReady(w), w);
      assert w in HealthyWorkers(workers, health) && w in ReadyWorkers(workers, readiness);
    }
    if |list| > 0 {
      assert list[0] in list;
      if Select(workers, health, readiness, last).Chosen? {
        assert list[(last + 1) % |list|] in list;
      }
    }
  }

  /**
   A chosen worker was healthy when health was read, and had failed at most five checks in a row when
   readiness was read, after whatever checks came in between.
   */
  lemma ChosenWorkerRecord(workers: seq<Worker>, before: seq<Check>, between: seq<Check>, last: nat)
    requires Select(workers, After(workers, before), After(workers, before + between), last).Chosen?
    ensures var w := Select(workers, After(workers, before), After(workers, before + between), last).worker;
            && w in workers
            && |ResultsOf(before, w)| > 0 && ResultsOf(before, w)[|ResultsOf(before, w)| - 1]
            && exists n: nat :: n <= 5 && TrailingDowns(ResultsOf(before + between, w), n)
  {
    var h, r := After(workers, before), After(workers, before + between);
    SelectFailsIffNoneEligible(workers, h, r, last);
    var w := Select(workers, h, r, last).worker;
    HealthOfHistory(workers, before, w);
    HealthOfHistory(workers, before + between, w);
    assert TrailingDowns(ResultsOf(before + between, w), r.Failures(w));
  }

  // ---------- Fairness ----------

  /** `lastWorker` after k selections from an unchanged list. */
  function LastAfter(list: seq<Worker>, last: nat, k: nat): nat
    requires |list| > 0
  {
    if k == 0 then last else PickFrom(list, LastAfter(list, last, k - 1)).last
  }

  /** The workers that k selections from an unchanged list pick, in order. */
  function Picks(list: seq<Worker>, last: nat, k: nat): seq<Worker>
    requires |list| > 0
  {
    if k == 0 then []
    else Picks(list, last, k - 1) + [PickFrom(list, LastAfter(list, last, k - 1)).worker]
  }

  /** The index picked by the j-th of consecutive selections over n workers. */
  function PickedIndex(last: nat, n: nat, j: nat): nat
    requires n > 0
  {
    if j == 0 then (last + 1) % n else (PickedIndex(last, n, j - 1) + 1) % n
  }

  /** How many of the first k selections picked index i. */
  function TimesPicked(last: nat, n: nat, k: nat, i: nat): nat
    requires n > 0
  {
    if k == 0 then 0
    else TimesPicked(last, n, k - 1, i) + (if PickedIndex(last, n, k - 1) == i then 1 else 0)
  }

  lemma SuccessorIndex(p: nat, n: nat)
    requires p < n
    ensures (p + 1) % n == (if p + 1 == n then 0 else p + 1)
  {
  }

  function Wrap(x: nat, n: nat): int {
    if x < n then x else x - n
  }

  /** The j-th pick is j places after the first one, around the ring. */
  lemma {:induction false} PickedIndexClosed(last: nat, n: nat, j: nat)
    requires n > 0
    ensures PickedIndex(last, n, j) == Wrap((last + 1) % n + j % n, n) < n
  {
    ModStep(last, n);
    if j == 0 {
      DivModOf(0, n, 0, 0);
    } else {
      PickedIndexClosed(last, n, j - 1);
      ModStep(j - 1, n);
      SuccessorIndex(PickedIndex(last, n, j - 1), n);
    }
  }

  /** How many steps after `last` index i comes up first. */
  function Offset(last: nat, n: nat, i: nat): nat
    requires n > 0 && i < n
  {
    var first := (last + 1) % n;
    if i >= first then i - first else i + n - first
  }

  /** Exact number of picks: a full round each n, plus one once the current round has passed the offset. */
  lemma {:induction false} TimesPickedExactly(last: nat, n: nat, k: nat, i: nat)
    requires n > 0 && i < n
    ensures TimesPicked(last, n, k, i) == k / n + (if Offset(last, n, i) < k % n then 1 else 0)
  {
    if k > 0 {
      TimesPickedExactly(last, n, k - 1, i);
      PickedIndexClosed(last, n, k - 1);
      ModStep(last, n);
      ModStep(k - 1, n);
    } else {
      DivModOf(0, n, 0, 0);
    }
  }

  ghost predicate Distinct(list: seq<Worker>) {
    forall i, j :: 0 <= i < j < |list| ==> list[i] != list[j]
  }

  lemma {:induction false} FilterKeepsDistinct(xs: seq<Worker>, p: Worker -> bool)
    requires Distinct(xs)
    ensures Distinct(Filter(xs, p))
  {
    if |xs| > 0 {
      var init, last := xs[..|xs| - 1], xs[|xs| - 1];
      FilterKeepsDistinct(init, p);
      FilterMembers(init, p, last);
    }
  }

  lemma {:induction false} LastIsPickedIndex(list: seq<Worker>, last: nat, k: nat)
    requires |list| > 0 && k > 0
    ensures LastAfter(list, last, k) == PickedIndex(last, |list|, k - 1)
  {
    if k > 1 {
      LastIsPickedIndex(list, last, k - 1);
    }
  }

  lemma {:induction false} PicksAreCounted(list: seq<Worker>, last: nat, k: nat, i: nat)
    requires Distinct(list) && i < |list|
    ensures multiset(Picks(list, last, k))[list[i]] == TimesPicked(last, |list|, k, i)
  {
    if k > 0 {
      PicksAreCounted(list, last, k - 1, i);
      LastIsPickedIndex(list, last, k);
      PickedIndexClosed(last, |list|, k - 1);
      var init, p := Picks(list, last, k - 1), PickedIndex(last, |list|, k - 1);
      assert Picks(list, last, k) == init + [list[p]];
      assert list[p] == list[i] <==> p == i;
    }
  }

  /** Round robin is fair: from any start, k selections pick each of n workers floor(k/n) or ceil(k/n) times. */
  lemma RoundRobinIsFair(list: seq<Worker>, last: nat, k: nat, w: Worker)
    requires Distinct(list) && w in list
    ensures k / |list| <= multiset(Picks(list, last, k))[w] <= (k + |list| - 1) / |list|
  {
    var i :| 0 <= i < |list| && list[i] == w;
    PicksAreCounted(list, last, k, i);
    TimesPickedExactly(last, |list|, k, i);
    RoundedUp(k, |list|);
  }

  lemma {:induction false} PicksAt(list: seq<Worker>, last: nat, k: nat, j: nat)
    requires |list| > 0
    ensures |Picks(list, last, k)| == k && PickedIndex(last, |list|, j) < |list|
    ensures j < k ==> Picks(list, last, k)[j] == list[PickedIndex(last, |list|, j)]
  {
    PickedIndexClosed(last, |list|, j);
    if k > 0 {
      PicksAt(list, last, k - 1, j);
      LastIsPickedIndex(list, last, k);
    }
  }

  /** Within a round the picks go on around the ring from the first of it. */
  lemma {:induction false} PicksGoAround(last: nat, n: nat, j: nat, i: nat)
    requires i < n
    ensures PickedIndex(last, n, j) < n
    ensures PickedIndex(last, n, j + i) == Wrap(PickedIndex(last, n, j) + i, n)
  {
    PickedIndexClosed(last, n, j);
    if i > 0 {
      PicksGoAround(last, n, j, i - 1);
      SuccessorIndex(PickedIndex(last, n, j + (i - 1)), n);
    }
  }

  /** Any n consecutive selections visit each of the n entries of the list once: they are a rotation of it. */
  lemma EachRoundVisitsAll(list: seq<Worker>, last: nat, j: nat)
    requires |list| > 0
    ensures |Picks(list, last, j + |list|)| == j + |list|
    ensures multiset(Picks(list, last, j + |list|)[j..]) == multiset(list)
  {
    var n := |list|;
    PicksAt(list, last, j + n, j);
    var f, round := PickedIndex(last, n, j), Picks(list, last, j + n)[j..];
    forall i | 0 <= i < n ensures round[i] == (list[f..] + list[..f])[i] {
      PicksAt(list, last, j + n, j + i);
      PicksGoAround(last, n, j, i);
    }
    assert round == list[f..] + list[..f];
    assert list == list[..f] + list[f..];
  }
}
