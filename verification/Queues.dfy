/**
 First in, first out: a queue from which tasks leave in front and to which they are added at the end.
 */
module Queues {
  import opened Tasks

  /** One step of a queue: `first` leaves in front, `more` joins at the end. */
  predicate Moves(queue: seq<Task>, first: seq<Task>, more: seq<Task>, queue': seq<Task>) {
    queue + more == first + queue'
  }

  function Flat(parts: seq<seq<Task>>): seq<Task> {
    if |parts| == 0 then [] else Flat(parts[..|parts| - 1]) + parts[|parts| - 1]
  }

  /** All that left, followed by what is there, is all that joined, in the order in which it joined. */
  lemma {:induction false} MovesAddUp(queues: seq<seq<Task>>, left: seq<seq<Task>>, joined: seq<seq<Task>>)
    requires |left| == |joined| && |queues| == |left| + 1 && queues[0] == []
    requires forall k :: 0 <= k < |left| ==> Moves(queues[k], left[k], joined[k], queues[k + 1])
    ensures Flat(left) + queues[|left|] == Flat(joined)
  {
    if |left| > 0 {
      var n := |left| - 1;
      MovesAddUp(queues[..n + 1], left[..n], joined[..n]);
      assert Moves(queues[n], left[n], joined[n], queues[n + 1]);
      assert Flat(left[..n]) + (left[n] + queues[n + 1]) == Flat(left[..n]) + (queues[n] + joined[n]);
      assert Flat(left[..n]) + left[n] + queues[n + 1] == Flat(left[..n]) + (left[n] + queues[n + 1]);
      assert Flat(joined[..n]) + joined[n] == Flat(left[..n]) + (queues[n] + joined[n]);
    }
  }
}
