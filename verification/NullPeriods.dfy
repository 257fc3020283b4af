/**
 * Actions handed to the scheduler ready-made are not checked for a null period. One that is live and due keeps its
 * slice from ever ending; nothing else does.
 */
module NullPeriods {
  import opened Scheduling
  import opened PriorityQueue
  import opened Simulation

  datatype Queue = Queue(heap: set<Item>, nextEpoch: nat)

  function Pulled(q: Queue, cancelled: set<nat>, x: Item): Queue {
    if Live(x, cancelled) then Queue(q.heap - {x} + Renewed(x, q.nextEpoch), q.nextEpoch + |Renewed(x, q.nextEpoch)|)
    else q.(heap := q.heap - {x})
  }

  ghost predicate PullStep(cancelled: set<nat>, q: Queue, q': Queue) {
    exists x :: IsLeast(x, q.heap) && q' == Pulled(q, cancelled, x)
  }

  /** The queue while a slice is pulled: the least item goes, and if it recurs it comes back. */
  ghost predicate IsPulling(cancelled: set<nat>, queues: seq<Queue>) {
    |queues| > 0 && forall k :: 0 <= k < |queues| - 1 ==> PullStep(cancelled, queues[k], queues[k + 1])
  }

  ghost predicate Due(q: Queue, cancelled: set<nat>, t: int) {
    exists x :: x in q.heap && Live(x, cancelled) && x.time == t
  }

  /** Pulling takes everything live and due at `t` out of the queue. */
  ghost predicate Ends(cancelled: set<nat>, q: Queue, t: int, queues: seq<Queue>) {
    IsPulling(cancelled, queues) && queues[0] == q && !Due(queues[|queues| - 1], cancelled, t)
  }

  /** However often the queue is pulled, a live action with a null period is still there, due at the same time. */
  lemma {:induction false} NeverLeaves(cancelled: set<nat>, queues: seq<Queue>, x: Item, k: nat) returns (y: Item)
    requires IsPulling(cancelled, queues) && k < |queues|
    requires x in queues[0].heap && Live(x, cancelled) && !Moves(x.action)
    ensures y in queues[k].heap && SameKey(x, y) && y.action == x.action
  {
    if k == 0 {
      y := x;
    } else {
      var z := NeverLeaves(cancelled, queues, x, k - 1);
      var q := queues[k - 1];
      assert PullStep(cancelled, queues[k - 1], queues[k - 1 + 1]);
      var least :| IsLeast(least, q.heap) && queues[k] == Pulled(q, cancelled, least);
      y := if least == z then Item(z.time, z.channel, q.nextEpoch, z.action) else z;
    }
  }

  /** What is left to pull up to time `t`. */
  ghost function UpTo(q: Queue, t: int): set<Item> { set x | x in q.heap && x.time <= t }

  lemma PulledWellFormed(q: Queue, cancelled: set<nat>, x: Item)
    requires WellFormed(q.heap, q.nextEpoch) && x in q.heap
    ensures var q' := Pulled(q, cancelled, x); WellFormed(q'.heap, q'.nextEpoch)
  {
  }

  /** Without a null period every pull leaves less to pull. */
  lemma PulledShrinks(q: Queue, cancelled: set<nat>, x: Item, t: int)
    requires x in q.heap && x.time <= t && (Live(x, cancelled) ==> x.time == t)
    requires NoNullAt(q.heap, cancelled, t)
    requires forall y :: y in q.heap && Live(y, cancelled) ==> t <= y.time
    ensures var q' := Pulled(q, cancelled, x);
      && UpTo(q', t) == UpTo(q, t) - {x} && x in UpTo(q, t)
      && NoNullAt(q'.heap, cancelled, t) && (forall y :: y in q'.heap && Live(y, cancelled) ==> t <= y.time)
  {
    var q' := Pulled(q, cancelled, x);
    forall y | y in q'.heap && y !in q.heap
      ensures y.time > t
    {
      assert y in Renewed(x, q.nextEpoch);
    }
  }

  lemma {:induction false} PullsDry(cancelled: set<nat>, q: Queue, t: int) returns (queues: seq<Queue>)
    requires WellFormed(q.heap, q.nextEpoch) && NoNullAt(q.heap, cancelled, t)
    requires forall x :: x in q.heap && Live(x, cancelled) ==> t <= x.time
    ensures Ends(cancelled, q, t, queues)
    decreases |UpTo(q, t)|
  {
    if !Due(q, cancelled, t) {
      queues := [q];
    } else {
      var x := LeastExists(q.heap);
      assert x.time <= t;
      PulledWellFormed(q, cancelled, x);
      PulledShrinks(q, cancelled, x, t);
      var q' := Pulled(q, cancelled, x);
      var rest := PullsDry(cancelled, q', t);
      queues := [q] + rest;
      PullsFirst(cancelled, q, x, rest);
    }
  }

  lemma PullsFirst(cancelled: set<nat>, q: Queue, x: Item, rest: seq<Queue>)
    requires IsLeast(x, q.heap) && IsPulling(cancelled, rest) && rest[0] == Pulled(q, cancelled, x)
    ensures IsPulling(cancelled, [q] + rest)
  {
    assert PullStep(cancelled, q, rest[0]);
    hide PullStep;
    var all := [q] + rest;
    forall k | 0 <= k < |all| - 1
      ensures PullStep(cancelled, all[k], all[k + 1])
    {
      if k > 0 {
        assert PullStep(cancelled, rest[k - 1], rest[k - 1 + 1]);
      }
    }
  }

  /** At its earliest time, a queue is pulled dry exactly if nothing live and due then has a null period. */
  lemma SliceEndsExactly(cancelled: set<nat>, q: Queue, t: int)
    requires WellFormed(q.heap, q.nextEpoch) && forall x :: x in q.heap && Live(x, cancelled) ==> t <= x.time
    ensures (exists queues :: Ends(cancelled, q, t, queues)) <==> NoNullAt(q.heap, cancelled, t)
  {
    if NoNullAt(q.heap, cancelled, t) {
      var queues := PullsDry(cancelled, q, t);
    } else {
      var x :| x in q.heap && Live(x, cancelled) && x.time == t && !Moves(x.action);
      forall queues | IsPulling(cancelled, queues) && queues[0] == q
        ensures Due(queues[|queues| - 1], cancelled, t)
      {
        var y := NeverLeaves(cancelled, queues, x, |queues| - 1);
      }
    }
  }

  /** Such a queue is one call away: a ready-made action with a null period is accepted for any future time. */
  lemma NullPeriodIsAccepted(s: SimState, at: int, action: Action)
    requires s.time < at && !Moves(action)
    ensures var s' := Answer(s, ScheduleReady(at, action));
      action.key.None? ==> !NoNullAt(s'.heap, s'.cancelled, at)
  {
    var s' := Answer(s, ScheduleReady(at, action));
    assert Item(at, 0, s.nextEpoch, action) in s'.heap;
  }
}
