/** Events scheduled for one time and one mailbox are processed in the order they were scheduled. */
module ScheduledMessages {
  import opened Bytes
  import opened Scheduling
  import opened CausalMessaging

  /** The calls of sender `a`, in order. */
  ghost function CallsOf(log: seq<Event>, a: nat): seq<nat> {
    if log == [] then [] else
    var e := log[|log| - 1];
    CallsOf(log[..|log| - 1], a) + if e.Call? && e.from == a then [|log| - 1] else []
  }

  /**
   * Who performs a future: `agent` makes its calls one after the other, and the i-th is for the action at position
   * `at[i]`. Positions ascend; those left out are of events cancelled in the meantime.
   */
  datatype Plan = Plan(agent: nat, at: seq<nat>)

  ghost predicate Performs(log: seq<Event>, future: seq<Item>, p: Plan) {
    && |p.at| == |CallsOf(log, p.agent)|
    && (forall i :: 0 <= i < |p.at| ==> p.at[i] < |future|)
    && (forall i, j :: 0 <= i < j < |p.at| ==> p.at[i] < p.at[j])
  }

  /** Message `m` was sent by the `i`-th call of the plan, for action `x`. */
  ghost predicate SentFor(log: seq<Event>, future: seq<Item>, p: Plan, i: nat, x: Item, m: nat)
    requires Performs(log, future, p)
  {
    && i < |p.at| && future[p.at[i]] == x
    && IsMessage(log, m) && log[m].from == p.agent && log[m].call == CallsOf(log, p.agent)[i]
  }

  lemma {:induction false} CallsAscend(log: seq<Event>, a: nat)
    ensures forall c :: c in CallsOf(log, a) ==> c < |log|
    ensures forall i, j :: 0 <= i < j < |CallsOf(log, a)| ==> CallsOf(log, a)[i] < CallsOf(log, a)[j]
  {
    if log != [] {
      CallsAscend(log[..|log| - 1], a);
      var before, all := CallsOf(log[..|log| - 1], a), CallsOf(log, a);
      forall i, j | 0 <= i < j < |all|
        ensures all[i] < all[j]
      {
        assert all[i] == before[i] && before[i] in before;
      }
    }
  }

  /** Each future holds its actions in the order of the whole slice. */
  lemma {:induction false} FutureIsSorted(futures: seq<seq<Item>>, f: nat)
    requires Sorted(Flatten(futures)) && f < |futures|
    ensures Sorted(futures[f]) && forall x :: x in futures[f] ==> x in Flatten(futures)
    decreases |futures|
  {
    var all, rest := Flatten(futures), Flatten(futures[1..]);
    assert all == futures[0] + rest;
    if f == 0 {
      SortedParts(futures[0], rest);
    } else {
      SortedParts(futures[0], rest);
      FutureIsSorted(futures[1..], f - 1);
      assert futures[f] == futures[1..][f - 1];
    }
  }

  lemma SortedParts(a: seq<Item>, b: seq<Item>)
    requires Sorted(a + b)
    ensures Sorted(a) && Sorted(b)
  {
    var c := a + b;
    forall i, j | 0 <= i < j < |a|
      ensures Before(a[i], a[j])
    {
      assert a[i] == c[i] && a[j] == c[j];
    }
    forall i, j | 0 <= i < j < |b|
      ensures Before(b[i], b[j])
    {
      assert b[i] == c[|a| + i] && b[j] == c[|a| + j];
    }
  }

  /** Of two actions of a slice for the same mailbox, the one scheduled first comes first, in the same future. */
  lemma SameFuture(s: SimState, bound: int, mid: SimState, f: nat, g: nat, i: nat, j: nat)
    requires Spawned(s, bound, mid)
    requires var futures := mid.batches[|s.batches|].futures;
      && f < |futures| && g < |futures| && i < |futures[f]| && j < |futures[g]|
      && futures[f][i].channel == futures[g][j].channel && futures[f][i].epoch < futures[g][j].epoch
    ensures f == g && i < j
  {
    var futures := mid.batches[|s.batches|].futures;
    FutureIsSorted(futures, f);
    hide Flatten, Reinsertions, SliceQueue, EarliestLive;
    var x, y := futures[f][i], futures[g][j];
    assert x in futures[f] && y in futures[g];
    assert f == g;
    assert SameKey(x, y);
  }

  /**
   * If the scheduler holds two events for the same time and the same mailbox, the model that gets both messages
   * processes the one scheduled first before the other, however the executor interleaves the futures of the slice.
   */
  lemma ScheduledInOrder(s: SimState, bound: int, mid: SimState, nets: seq<Net>, ops: seq<NetOp>, k: nat,
                         plans: seq<Plan>, f: nat, i: nat, m1: nat, g: nat, j: nat, m2: nat,
                         x: Item, y: Item, b: nat, l: nat)
    returns (first: nat)
    requires Spawned(s, bound, mid) && IsRun(nets, ops) && k < |nets| && b in nets[k].mailboxes
    requires var futures, log := mid.batches[|s.batches|].futures, nets[k].log;
      && |plans| == |futures| && f < |futures| && g < |futures|
      && (forall h :: 0 <= h < |futures| ==> Performs(log, futures[h], plans[h]))
      && SentFor(log, futures[f], plans[f], i, x, m1) && SentFor(log, futures[g], plans[g], j, y, m2)
      && log[m1].to == log[m2].to == b
      && l < |log| && log[l] == Start(b, m2)
    requires SameKey(x, y) && x.epoch < y.epoch
    ensures first < l && nets[k].log[first] == Start(b, m1)
  {
    var futures, log := mid.batches[|s.batches|].futures, nets[k].log;
    hide Spawned, IsRun, CallsOf;
    SameFuture(s, bound, mid, f, g, plans[f].at[i], plans[g].at[j]);
    CallsAscend(log, plans[f].agent);
    assert i < j;
    first := OneToOne(nets, ops, k, b, m1, m2, l);
  }
}
