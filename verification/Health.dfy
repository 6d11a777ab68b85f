/**
 Worker health as the manager records it, and what a history of health checks leaves behind.
 */
module Health {
  import opened Tasks

  datatype WorkerState = Ready | Unhealthy | Overloaded

  /** The three health maps; reading a missing key gives Go's zero value. */
  datatype Record = Record(up: map<Worker, bool>, state: map<Worker, WorkerState>, failures: map<Worker, int>) {
    predicate IsHealthy(w: Worker) {
      w in up && up[w]
    }

    predicate IsReady(w: Worker) {
      (if w in state then state[w] else Ready) == Ready
    }

    function Failures(w: Worker): int {
      if w in failures then failures[w] else 0
    }

    function MarkDown(w: Worker): Record {
      var n := Failures(w) + 1;
      Record(up[w := false], if n > 5 then state[w := Unhealthy] else state, failures[w := n])
    }

    function MarkUp(w: Worker): Record {
      Record(up[w := true], state[w := Ready], failures[w := 0])
    }
  }

  function Initial(workers: seq<Worker>): Record {
    Record(
      map w | w in workers :: false,
      map w | w in workers :: Ready,
      map w | w in workers :: 0)
  }

  /** One health check result. */
  datatype Check = Check(worker: Worker, up: bool)

  function Apply(r: Record, c: Check): Record {
    if c.up then r.MarkUp(c.worker) else r.MarkDown(c.worker)
  }

  function After(workers: seq<Worker>, history: seq<Check>): Record {
    if |history| == 0 then Initial(workers)
    else Apply(After(workers, history[..|history| - 1]), history[|history| - 1])
  }

  /** The results for one worker, in order. */
  function ResultsOf(history: seq<Check>, w: Worker): seq<bool> {
    if |history| == 0 then []
    else
      var init, last := ResultsOf(history[..|history| - 1], w), history[|history| - 1];
      if last.worker == w then init + [last.up] else init
  }

  /** `n` is the length of the longest run of downs that ends the results. */
  ghost predicate TrailingDowns(results: seq<bool>, n: nat) {
    && n <= |results|
    && (forall i :: |results| - n <= i < |results| ==> !results[i])
    && (n < |results| ==> results[|results| - 1 - n])
  }

  /** What every history of checks leaves recorded about a worker, in terms of that worker's results alone. */
  lemma {:induction false} HealthOfHistory(workers: seq<Worker>, history: seq<Check>, w: Worker)
    ensures var r, results := After(workers, history), ResultsOf(history, w);
            && r.Failures(w) >= 0
            && TrailingDowns(results, r.Failures(w))
            && (r.IsReady(w) <==> r.Failures(w) <= 5)
            && (w in r.state && r.state[w] == Unhealthy <==> r.Failures(w) > 5)
            && (r.IsHealthy(w) <==> |results| > 0 && results[|results| - 1])
  {
    if |history| > 0 {
      HealthOfHistory(workers, history[..|history| - 1], w);
    }
  }

  /** The record of a worker depends on that worker's checks only. */
  lemma ChecksAreIndependent(workers: seq<Worker>, a: seq<Check>, b: seq<Check>, w: Worker)
    requires ResultsOf(a, w) == ResultsOf(b, w)
    ensures After(workers, a).Failures(w) == After(workers, b).Failures(w)
    ensures After(workers, a).IsReady(w) == After(workers, b).IsReady(w)
    ensures After(workers, a).IsHealthy(w) == After(workers, b).IsHealthy(w)
  {
    HealthOfHistory(workers, a, w);
    HealthOfHistory(workers, b, w);
  }

  /** In one snapshot a healthy worker is always ready. */
  lemma HealthyImpliesReady(workers: seq<Worker>, history: seq<Check>, w: Worker)
    requires After(workers, history).IsHealthy(w)
    ensures After(workers, history).IsReady(w) && After(workers, history).Failures(w) == 0
  {
  }
}
