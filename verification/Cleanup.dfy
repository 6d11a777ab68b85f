/**
 Cleanup of old completed tasks: the loop runs over a map in an order Go does not fix, and every
 order gives the same state.
 */
module Cleanup {
  import opened Tasks
  import opened ManagerState

  // ---------- Removing first occurrences ----------

  lemma RemoveFirstsNone(ids: seq<Id>, gone: set<Id>)
    requires gone !! set x | x in ids
    ensures RemoveFirsts(ids, gone) == ids
  {
  }

  lemma {:induction false} RemoveFirstAbsent(ids: seq<Id>, id: Id)
    requires id !in ids
    ensures RemoveFirst(ids, id) == ids
  {
    if |ids| > 0 {
      RemoveFirstAbsent(ids[1..], id);
    }
  }

  /** Cutting out the first match is what the scan does. */
  lemma {:induction false} RemoveFirstAt(ids: seq<Id>, id: Id, i: nat)
    requires i < |ids| && ids[i] == id && id !in ids[..i]
    ensures RemoveFirst(ids, id) == ids[..i] + ids[i + 1..]
  {
    if i > 0 {
      assert ids[0] in ids[..i];
      assert ids[1..][..i - 1] == ids[..i][1..];
      RemoveFirstAt(ids[1..], id, i - 1);
    }
  }

  lemma {:induction false} RemoveOneMore(ids: seq<Id>, gone: set<Id>, id: Id)
    requires id !in gone
    ensures RemoveFirsts(ids, gone + {id}) == RemoveFirst(RemoveFirsts(ids, gone), id)
  {
    if |ids| > 0 {
      if ids[0] == id {
        assert gone + {id} - {id} == gone;
      } else if ids[0] in gone {
        assert gone + {id} - {ids[0]} == gone - {ids[0]} + {id};
        RemoveOneMore(ids[1..], gone - {ids[0]}, id);
      } else {
        RemoveOneMore(ids[1..], gone, id);
      }
    }
  }

  /** The IDs of a list that are not in `gone`, in order. */
  function Without(ids: seq<Id>, gone: set<Id>): seq<Id> {
    if |ids| == 0 then []
    else if ids[0] in gone then Without(ids[1..], gone)
    else [ids[0]] + Without(ids[1..], gone)
  }

  /** Each removed ID loses exactly one occurrence where it has one, and the other IDs keep their order. */
  lemma {:induction false} RemoveFirstsLosesOneEach(ids: seq<Id>, gone: set<Id>, id: Id)
    ensures multiset(RemoveFirsts(ids, gone))[id]
         == multiset(ids)[id] - (if id in gone && id in ids then 1 else 0)
    ensures Without(RemoveFirsts(ids, gone), gone) == Without(ids, gone)
  {
    if |ids| > 0 {
      assert ids == [ids[0]] + ids[1..];
      if ids[0] in gone {
        RemoveFirstsLosesOneEach(ids[1..], gone - {ids[0]}, id);
        WithoutMore(RemoveFirsts(ids[1..], gone - {ids[0]}), gone, ids[0]);
        WithoutMore(ids[1..], gone, ids[0]);
      } else {
        RemoveFirstsLosesOneEach(ids[1..], gone, id);
      }
    }
  }

  lemma {:induction false} WithoutMore(ids: seq<Id>, gone: set<Id>, id: Id)
    requires id in gone
    ensures Without(ids, gone) == Without(Without(ids, gone - {id}), gone)
  {
    if |ids| > 0 {
      WithoutMore(ids[1..], gone, id);
    }
  }

  lemma {:induction false} RemoveFirstsMembers(ids: seq<Id>, gone: set<Id>, id: Id)
    requires id !in gone
    ensures id in RemoveFirsts(ids, gone) <==> id in ids
  {
    if |ids| > 0 {
      if ids[0] in gone {
        RemoveFirstsMembers(ids[1..], gone - {ids[0]}, id);
      } else {
        RemoveFirstsMembers(ids[1..], gone, id);
      }
    }
  }

  // ---------- The loop ----------

  lemma CleanNothing(s: MState)
    ensures Clean(s, {}) == s
  {
    forall w | w in s.workerTasks ensures RemoveFirsts(s.workerTasks[w], OwnedBy(s, {}, w)) == s.workerTasks[w] {
      RemoveFirstsNone(s.workerTasks[w], OwnedBy(s, {}, w));
    }
  }

  /** Cleaning one more task is cleaning the larger set. */
  lemma CleanStep(s: MState, done: set<Id>, id: Id)
    requires id !in done
    ensures CleanOne(Clean(s, done), id) == Clean(s, done + {id})
  {
    var c, d := Clean(s, done), Clean(s, done + {id});
    forall w | w in s.workerTasks ensures CleanOne(c, id).workerTasks[w] == d.workerTasks[w] {
      CleanStepList(s, done, id, w);
    }
    assert CleanOne(c, id).db == d.db;
    assert CleanOne(c, id).owner == d.owner;
    assert CleanOne(c, id).events == d.events;
  }

  lemma CleanStepList(s: MState, done: set<Id>, id: Id, w: Worker)
    requires id !in done && w in s.workerTasks
    ensures CleanOne(Clean(s, done), id).workerTasks[w] == Clean(s, done + {id}).workerTasks[w]
  {
    var ids, gone := s.workerTasks[w], OwnedBy(s, done, w);
    if id in s.owner && s.owner[id] == w {
      assert OwnedBy(s, done + {id}, w) == gone + {id};
      RemoveOneMore(ids, gone, id);
      if id !in RemoveFirsts(ids, gone) {
        RemoveFirstAbsent(RemoveFirsts(ids, gone), id);
      }
    } else {
      assert OwnedBy(s, done + {id}, w) == gone;
    }
  }

  /** The loop over the task map, visiting its keys in a given order. */
  function CleanInOrder(s: MState, order: seq<Id>, cutoff: Time): MState {
    if |order| == 0 then s
    else
      var id, before := order[|order| - 1], CleanInOrder(s, order[..|order| - 1], cutoff);
      if Expired(before, id, cutoff) then CleanOne(before, id) else before
  }

  lemma {:induction false} CleanPrefix(s: MState, order: seq<Id>, cutoff: Time)
    requires forall i, j :: 0 <= i < j < |order| ==> order[i] != order[j]
    ensures CleanInOrder(s, order, cutoff) == Clean(s, set id | id in order && Expired(s, id, cutoff))
  {
    if |order| == 0 {
      assert (set id | id in order && Expired(s, id, cutoff)) == {};
      CleanNothing(s);
    } else {
      var init, id := order[..|order| - 1], order[|order| - 1];
      CleanPrefix(s, init, cutoff);
      var done := set x | x in init && Expired(s, x, cutoff);
      assert order == init + [id];
      assert id !in init;
      if Expired(s, id, cutoff) {
        CleanStep(s, done, id);
        assert (set x | x in order && Expired(s, x, cutoff)) == done + {id};
      } else {
        assert (set x | x in order && Expired(s, x, cutoff)) == done;
      }
    }
  }

  /** Every iteration order over `TaskDb` leaves the same state. */
  lemma CleanUpIsOrderIndependent(s: MState, order: seq<Id>, now: Time)
    requires forall i, j :: 0 <= i < j < |order| ==> order[i] != order[j]
    requires forall id :: id in order <==> id in s.db
    ensures CleanInOrder(s, order, now - RETENTION) == CleanUp(s, now)
  {
    CleanPrefix(s, order, now - RETENTION);
    assert (set id | id in order && Expired(s, id, now - RETENTION)) == Victims(s, now - RETENTION);
  }

  /** A task of the map that is completed and started more than a day, 86,400 seconds, before `now`. */
  predicate IsOldAndCompleted(s: MState, id: Id, now: Time) {
    && id in s.db && At(s.heap, s.db[id]).state == Completed
    && At(s.heap, s.db[id]).start + 86_400_000_000_000 < now
  }

  /**
   What cleanup removes and what it leaves alone, key by key: exactly the tasks that are completed and
   started more than 24 hours ago leave the maps. Each worker's list loses one occurrence, the first, of
   each of them that this worker owns, and keeps every other entry in order.
   */
  lemma CleanUpRemovesExactlyExpired(s: MState, now: Time, id: Id, w: Worker)
    ensures var c, d := CleanUp(s, now), if id in s.db then At(s.heap, s.db[id]) else NO_TASK;
            var goes := id in s.db && d.state == Completed && d.start + 86_400_000_000_000 < now;
            var gone := set x | x in s.owner && s.owner[x] == w && IsOldAndCompleted(s, x, now);
            && (id in c.db <==> id in s.db && !goes)
            && (id in c.db ==> c.db[id] == s.db[id])
            && (id in c.events <==> id in s.events && !goes)
            && (id in c.events ==> c.events[id] == s.events[id])
            && (id in c.owner <==> id in s.owner && !goes)
            && (id in c.owner ==> c.owner[id] == s.owner[id])
            && multiset(TasksOf(c, w))[id]
               == multiset(TasksOf(s, w))[id] - (if id in gone && id in TasksOf(s, w) then 1 else 0)
            && Without(TasksOf(c, w), gone) == Without(TasksOf(s, w), gone)
            && c == s.(db := c.db, events := c.events, owner := c.owner, workerTasks := c.workerTasks)
  {
    var victims := Victims(s, now - RETENTION);
    var gone := set x | x in s.owner && s.owner[x] == w && IsOldAndCompleted(s, x, now);
    assert gone == OwnedBy(s, victims, w);
    if w in s.workerTasks {
      RemoveFirstsLosesOneEach(s.workerTasks[w], gone, id);
    }
  }
}
