/** The scheduler queue: an associative priority queue that is first-in first-out among equal keys. */
module PriorityQueue {
  import opened Bytes
  import opened Scheduling

  lemma {:induction false} LeastExists(s: set<Item>) returns (m: Item)
    requires s != {}
    requires forall x, y :: x in s && y in s && x.epoch == y.epoch ==> x == y
    ensures IsLeast(m, s)
    decreases |s|
  {
    var x :| x in s;
    var rest := s - {x};
    assert s == rest + {x};
    if rest == {} {
      m := x;
    } else {
      var y := LeastExists(rest);
      m := if Before(x, y) then x else y;
    }
  }

  class PriorityQueue {
    var heap: set<Item>
    var nextEpoch: nat

    constructor ()
      ensures heap == {} && nextEpoch == 0
    {
      heap, nextEpoch := {}, 0;
    }

    ghost predicate Valid()
      reads this
    {
      WellFormed(heap, nextEpoch)
    }

    method Insert(time: int, channel: nat, action: Action)
      requires Valid()
      modifies this
      ensures Valid()
      ensures heap == old(heap) + {Item(time, channel, old(nextEpoch), action)}
      ensures nextEpoch == old(nextEpoch) + 1
    {
      heap := heap + {Item(time, channel, nextEpoch, action)};
      nextEpoch := nextEpoch + 1;
    }

    method Peek() returns (r: Option<Item>)
      requires Valid()
      ensures r.None? <==> heap == {}
      ensures r.Some? ==> IsLeast(r.value, heap)
    {
      if heap == {} {
        return None;
      }
      ghost var least := LeastExists(heap);
      var x :| x in heap && forall y :: y in heap && y != x ==> Before(x, y);
      r := Some(x);
    }

    method Pull() returns (r: Option<Item>)
      requires Valid()
      modifies this`heap
      ensures Valid()
      ensures r.None? <==> old(heap) == {}
      ensures r.Some? ==> IsLeast(r.value, old(heap)) && heap == old(heap) - {r.value}
      ensures r.None? ==> heap == old(heap)
    {
      r := Peek();
      if r.Some? {
        heap := heap - {r.value};
      }
    }
  }
}
