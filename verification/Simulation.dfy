/** The simulation loop: time slices pulled from the scheduler queue, spawned mailbox by mailbox. */
module Simulation {
  import opened Bytes
  import opened Scheduling
  import opened PriorityQueue

  // ---------------------------------------------------------------------------------------------------------------
  // What holds while a slice is being pulled
  // ---------------------------------------------------------------------------------------------------------------

  ghost function Rest(s: SimState, e: seq<Item>, gone: set<Item>): set<Item> { s.heap - Elems(e) - gone }

  /** `e` has been pulled for the slice at `t` and `gone` thrown away as cancelled. */
  ghost predicate Pulling(s: SimState, t: int, e: seq<Item>, gone: set<Item>, heap: set<Item>, nextEpoch: nat) {
    && WellFormed(s.heap, s.nextEpoch)
    && Sorted(e) && (forall x :: x in e ==> x in s.heap && Live(x, s.cancelled) && x.time == t && Moves(x.action))
    && gone <= s.heap && (forall x :: x in gone ==> !Live(x, s.cancelled))
    && heap == Rest(s, e, gone) + Elems(Reinsertions(e, s.nextEpoch))
    && nextEpoch == s.nextEpoch + |Reinsertions(e, s.nextEpoch)|
    && (forall x, y :: x in e && y in Rest(s, e, gone) ==> Before(x, y))
    && (forall x :: x in Rest(s, e, gone) ==> t <= x.time)
  }

  lemma BackIsLater(s: SimState, t: int, e: seq<Item>, y: Item)
    requires forall x :: x in e ==> Live(x, s.cancelled) && x.time == t && Moves(x.action)
    requires y in Reinsertions(e, s.nextEpoch)
    ensures t < y.time && Live(y, s.cancelled) && s.nextEpoch <= y.epoch
  {
    ReinsertionsAre(e, s.nextEpoch, y);
    var x :| x in e && x.action == y.action && x.channel == y.channel
             && x.action.period.Some? && y.time == x.time + x.action.period.value;
  }

  lemma PullingWellFormed(s: SimState, t: int, e: seq<Item>, gone: set<Item>, heap: set<Item>, nextEpoch: nat)
    requires Pulling(s, t, e, gone, heap, nextEpoch)
    ensures WellFormed(heap, nextEpoch)
    ensures forall x :: x in heap ==> t <= x.time
    ensures forall x :: x in heap && (x.time == t || !Live(x, s.cancelled)) ==> x in Rest(s, e, gone)
  {
    var back := Reinsertions(e, s.nextEpoch);
    forall y | y in back
      ensures t < y.time && Live(y, s.cancelled) && s.nextEpoch <= y.epoch < nextEpoch
    {
      BackIsLater(s, t, e, y);
      ReinsertionsAre(e, s.nextEpoch, y);
    }
    forall x, y | x in back && y in back && x.epoch == y.epoch
      ensures x == y
    {
      var i :| 0 <= i < |back| && back[i] == x;
      var j :| 0 <= j < |back| && back[j] == y;
      ReinsertionsNumbered(e, s.nextEpoch, i);
      ReinsertionsNumbered(e, s.nextEpoch, j);
    }
  }

  function Renewed(x: Item, epoch: nat): set<Item> {
    if x.action.period.Some? then {Item(x.time + x.action.period.value, x.channel, epoch, x.action)} else {}
  }

  /** Pulling the least item, live and due at `t`, extends the slice by one. */
  lemma PullOne(s: SimState, t: int, e: seq<Item>, gone: set<Item>, heap: set<Item>, nextEpoch: nat, x: Item)
    requires Pulling(s, t, e, gone, heap, nextEpoch)
    requires IsLeast(x, heap) && Live(x, s.cancelled) && x.time == t && NoNullAt(s.heap, s.cancelled, t)
    ensures x in Rest(s, e, gone)
    ensures Elems(Reinsertions(e + [x], s.nextEpoch)) == Elems(Reinsertions(e, s.nextEpoch)) + Renewed(x, nextEpoch)
    ensures Pulling(s, t, e + [x], gone, heap - {x} + Renewed(x, nextEpoch), nextEpoch + |Renewed(x, nextEpoch)|)
  {
    hide Sorted, Reinsertions, Renewed, WellFormed;
    PullingWellFormed(s, t, e, gone, heap, nextEpoch);
    var R, B, N := Rest(s, e, gone), Elems(Reinsertions(e, s.nextEpoch)), Renewed(x, nextEpoch);
    BackGrows(e, x, s.nextEpoch);
    ElemsAppend(e, x);
    NotBack(s, t, e, x);
    SortedAppend(e, x);
    assert Rest(s, e + [x], gone) == R - {x};
    Replace(heap, R, B, N, x);
  }

  lemma NotBack(s: SimState, t: int, e: seq<Item>, x: Item)
    requires forall y :: y in e ==> Live(y, s.cancelled) && y.time == t && Moves(y.action)
    requires x.time == t
    ensures x !in Elems(Reinsertions(e, s.nextEpoch))
  {
    if x in Reinsertions(e, s.nextEpoch) { BackIsLater(s, t, e, x); }
  }

  lemma Replace(heap: set<Item>, R: set<Item>, B: set<Item>, N: set<Item>, x: Item)
    requires heap == R + B && x !in B
    ensures heap - {x} + N == (R - {x}) + (B + N)
  {
  }

  lemma ElemsAppend(e: seq<Item>, x: Item)
    ensures Elems(e + [x]) == Elems(e) + {x}
  {
  }

  lemma BackGrows(e: seq<Item>, x: Item, epoch: nat)
    ensures var n := |Reinsertions(e, epoch)|;
            && Elems(Reinsertions(e + [x], epoch)) == Elems(Reinsertions(e, epoch)) + Renewed(x, epoch + n)
            && |Reinsertions(e + [x], epoch)| == n + |Renewed(x, epoch + n)|
  {
    ReinsertionsAppend(e, x, epoch);
    var back := Reinsertions(e, epoch);
    if x.action.period.Some? {
      ElemsAppend(back, Item(x.time + x.action.period.value, x.channel, epoch + |back|, x.action));
    }
  }

  lemma SortedAppend(e: seq<Item>, x: Item)
    requires Sorted(e) && forall y :: y in e ==> Before(y, x)
    ensures Sorted(e + [x])
  {
  }

  /** Throwing cancelled items away does not disturb the slice. */
  lemma Discard(s: SimState, t: int, e: seq<Item>, gone: set<Item>, heap: set<Item>, nextEpoch: nat, more: set<Item>)
    requires Pulling(s, t, e, gone, heap, nextEpoch)
    requires more <= heap && forall x :: x in more ==> !Live(x, s.cancelled)
    ensures Pulling(s, t, e, gone + more, heap - more, nextEpoch)
    ensures Rest(s, e, gone + more) <= Rest(s, e, gone)
  {
    hide Sorted, WellFormed, Reinsertions;
    PullingWellFormed(s, t, e, gone, heap, nextEpoch);
    var R, B := Rest(s, e, gone), Elems(Reinsertions(e, s.nextEpoch));
    assert Rest(s, e, gone + more) == R - more;
    assert more !! B by {
      forall x | x in more
        ensures x !in B
      {
        if x in Reinsertions(e, s.nextEpoch) { BackIsLater(s, t, e, x); }
      }
    }
    assert heap - more == (R - more) + B;
  }

  /** The head of the queue once cancelled items were dropped: live and within bounds, or nothing is due. */
  ghost predicate Peeked(next: Option<Item>, heap: set<Item>, cancelled: set<nat>, bound: int) {
    match next
    case Some(x) => IsLeast(x, heap) && Live(x, cancelled) && x.time <= bound
    case None => forall x :: x in heap ==> bound < x.time
  }

  /** When nothing is left at `t`, what was pulled is exactly the slice. */
  lemma SliceIsComplete(s: SimState, bound: int, t: int, e: seq<Item>, gone: set<Item>, heap: set<Item>, nextEpoch: nat,
                        next: Option<Item>)
    requires Pulling(s, t, e, gone, heap, nextEpoch) && e != [] && t <= bound
    requires Peeked(next, heap, s.cancelled, bound) && (next.Some? ==> next.value.time != t)
    ensures EarliestLive(s.heap, s.cancelled, bound, t)
    ensures IsSlice(s.heap, s.cancelled, t, e)
    ensures SliceQueue(s, t, e, gone, heap, nextEpoch)
  {
    hide Sorted, WellFormed, Reinsertions;
    PullingWellFormed(s, t, e, gone, heap, nextEpoch);
    assert e[0] in e;
    forall x | x in heap
      ensures t < x.time
    {
    }
    forall x | x in s.heap && Live(x, s.cancelled)
      ensures t <= x.time && (x.time == t ==> x in e)
    {
      assert x in e || x in Rest(s, e, gone);
    }
  }

  /** Adding the next mailbox's actions keeps one future per mailbox. */
  lemma GroupAppended(futures: seq<seq<Item>>, group: seq<Item>)
    requires Grouped(futures) && group != []
    requires forall x, y :: x in group && y in group ==> SameKey(x, y)
    requires forall x, y :: x in Flatten(futures) && y in group ==> x.channel < y.channel
    ensures Grouped(futures + [group])
    ensures Flatten(futures + [group]) == Flatten(futures) + group
  {
    FlattenAppend(futures, [group]);
    assert Flatten([group]) == group + Flatten([]);
    FlattenHas(futures);
    hide Flatten;
    var all := futures + [group];
    forall i, j, x: Item, y: Item | 0 <= i < j < |all| && x in all[i] && y in all[j]
      ensures x.channel < y.channel
    {
      if j == |futures| { assert x in futures[i]; }
    }
  }

  lemma LoneGroup(x: Item)
    ensures Grouped([[x]]) && Flatten([[x]]) == [x]
  {
    assert Flatten([[x]]) == [x] + Flatten([]);
  }

  lemma SomeGroup(futures: seq<seq<Item>>)
    requires Grouped(futures) && futures != []
    ensures Flatten(futures) != []
  {
    assert futures[0] != [];
  }

  lemma FlattenHas(futures: seq<seq<Item>>)
    ensures forall i, x :: 0 <= i < |futures| && x in futures[i] ==> x in Flatten(futures)
  {
    forall i, x | 0 <= i < |futures| && x in futures[i]
      ensures x in Flatten(futures)
    {
      InFlatten(futures, i, x);
    }
  }

  lemma {:induction false} InFlatten(futures: seq<seq<Item>>, i: nat, x: Item)
    requires i < |futures| && x in futures[i]
    ensures x in Flatten(futures)
  {
    if i > 0 {
      InFlatten(futures[1..], i - 1, x);
    }
  }

  class Simulation {
    const queue: PriorityQueue
    const inlineLoneActions: bool
    /** What the models ask for when a batch runs, as any function of all that ran so far. */
    const respond: seq<Batch> -> seq<Request>
    var time: int
    var cancelled: set<nat>
    var batches: seq<Batch>
    ghost var inserted: set<Item>

    constructor (start: int, inlineLoneActions: bool, respond: seq<Batch> -> seq<Request>)
      ensures fresh(queue) && Valid()
      ensures View() == SimState(start, {}, 0, {}, [], {})
      ensures this.inlineLoneActions == inlineLoneActions && this.respond == respond
    {
      queue := new PriorityQueue();
      this.inlineLoneActions, this.respond := inlineLoneActions, respond;
      time, cancelled, batches, inserted := start, {}, [], {};
    }

    ghost function View(): SimState
      reads this, queue
    {
      SimState(time, queue.heap, queue.nextEpoch, cancelled, batches, inserted)
    }

    /** Between slices everything queued lies in the future. */
    ghost predicate Valid()
      reads this, queue
    {
      queue.Valid() && forall x :: x in queue.heap ==> time < x.time
    }

    method ScheduleEvent(at: int, channel: nat, action: Action) returns (ok: bool)
      requires Valid()
      modifies queue, this`inserted
      ensures Valid()
      ensures ok <==> time < at && action.period != Some(0)
      ensures queue.heap == old(queue.heap) + if ok then {Item(at, channel, old(queue.nextEpoch), action)} else {}
      ensures View() == Answer(old(View()), Schedule(at, channel, action))
    {
      if time >= at || !Moves(action) {
        return false;
      }
      inserted := inserted + {Item(at, channel, queue.nextEpoch, action)};
      queue.Insert(at, channel, action);
      ok := true;
    }

    /** A ready-made action is taken as it is, null period or not. */
    method ScheduleAction(at: int, action: Action) returns (ok: bool)
      requires Valid()
      modifies queue, this`inserted
      ensures Valid()
      ensures ok <==> time < at
      ensures queue.heap == old(queue.heap) + if ok then {Item(at, 0, old(queue.nextEpoch), action)} else {}
      ensures View() == Answer(old(View()), ScheduleReady(at, action))
    {
      if time >= at {
        return false;
      }
      inserted := inserted + {Item(at, 0, queue.nextEpoch, action)};
      queue.Insert(at, 0, action);
      ok := true;
    }

    /** Runs what was spawned; on the way the models schedule and cancel actions. */
    method RunExecutor()
      requires Valid()
      modifies this`cancelled, this`inserted, queue
      ensures Valid()
      ensures View() == AnswerAll(old(View()), respond(batches))
    {
      var requests := respond(batches);
      assert requests[..|requests|] == requests;
      for i := 0 to |requests|
        invariant Valid() && batches == old(batches)
        invariant View() == AnswerAll(old(View()), requests[..i])
      {
        assert requests[..i + 1][..i] == requests[..i];
        match requests[i]
        case Schedule(at, channel, action) =>
          var ok := ScheduleEvent(at, channel, action);
        case ScheduleReady(at, action) =>
          var ok := ScheduleAction(at, action);
        case Cancel(key) =>
          cancelled := cancelled + {key};
      }
    }

    /** The next action within `bound`, dropping cancelled ones that come first. */
    method PeekNextKey(bound: int) returns (r: Option<Item>, ghost discarded: set<Item>)
      requires queue.Valid()
      modifies queue`heap
      ensures queue.Valid()
      ensures discarded <= old(queue.heap) && queue.heap == old(queue.heap) - discarded
      ensures forall x :: x in discarded ==> !Live(x, cancelled)
      ensures Peeked(r, queue.heap, cancelled, bound)
    {
      discarded := {};
      while true
        invariant queue.Valid()
        invariant discarded <= old(queue.heap) && queue.heap == old(queue.heap) - discarded
        invariant forall x :: x in discarded ==> !Live(x, cancelled)
        decreases queue.heap
      {
        r := queue.Peek();
        if r.None? || bound < r.value.time {
          return None, discarded;
        }
        if Live(r.value, cancelled) {
          return r, discarded;
        }
        var pulled := queue.Pull();
        discarded := discarded + {pulled.value};
      }
    }

    /** Takes the next action; a recurring one goes straight back into the queue, one period later. */
    method PullNextAction() returns (x: Item)
      requires queue.Valid() && queue.heap != {}
      modifies queue, this`inserted
      ensures queue.Valid()
      ensures IsLeast(x, old(queue.heap))
      ensures queue.heap == old(queue.heap) - {x} + Renewed(x, old(queue.nextEpoch))
      ensures queue.nextEpoch == old(queue.nextEpoch) + |Renewed(x, old(queue.nextEpoch))|
      ensures inserted == old(inserted) + Renewed(x, old(queue.nextEpoch))
    {
      hide WellFormed, IsLeast;
      var pulled := queue.Pull();
      x := pulled.value;
      if x.action.period.Some? {
        inserted := inserted + {Item(x.time + x.action.period.value, x.channel, queue.nextEpoch, x.action)};
        queue.Insert(x.time + x.action.period.value, x.channel, x.action);
      }
    }

    /** Where the queue stands while slice `t` of state `s` is being pulled: `e` is out and `head` is next. */
    ghost predicate InSlice(s: SimState, t: int, e: seq<Item>, gone: set<Item>)
      reads this, queue
    {
      && Pulling(s, t, e, gone, queue.heap, queue.nextEpoch)
      && cancelled == s.cancelled && NoNullAt(s.heap, s.cancelled, t)
      && inserted == s.inserted + Elems(Reinsertions(e, s.nextEpoch))
    }

    method PullThenPeek(bound: int, head: Item, ghost s: SimState, t: int, ghost e: seq<Item>, ghost gone: set<Item>)
      returns (x: Item, next: Option<Item>, ghost gone': set<Item>)
      requires InSlice(s, t, e, gone) && IsLeast(head, queue.heap) && Live(head, cancelled) && head.time == t
      modifies queue, this`inserted
      ensures x == head && InSlice(s, t, e + [x], gone') && queue.Valid()
      ensures Peeked(next, queue.heap, cancelled, bound)
      ensures x in Rest(s, e, gone) && Rest(s, e + [x], gone') <= Rest(s, e, gone) - {x}
      ensures next.Some? ==> Before(x, next.value) && t <= next.value.time
    {
      hide Sorted, WellFormed, Reinsertions, Renewed;
      PullingWellFormed(s, t, e, gone, queue.heap, queue.nextEpoch);
      PullOne(s, t, e, gone, queue.heap, queue.nextEpoch, head);
      x := PullNextAction();
      ElemsAppend(e, x);
      ghost var heap := queue.heap;
      ghost var discarded;
      next, discarded := PeekNextKey(bound);
      Discard(s, t, e + [x], gone, heap, queue.nextEpoch, discarded);
      gone' := gone + discarded;
      NextIsLater(s, t, e + [x], gone', queue.heap, queue.nextEpoch, x, next);
    }

    /** Pulls all other actions for the mailbox of `first`, in the order they were scheduled. */
    method PullMailbox(bound: int, first: Item, peeked: Option<Item>, ghost s: SimState, t: int, ghost e: seq<Item>,
                       ghost gone: set<Item>)
      returns (group: seq<Item>, next: Option<Item>, ghost gone': set<Item>)
      requires InSlice(s, t, e + [first], gone) && queue.Valid() && first.time == t
      requires Peeked(peeked, queue.heap, cancelled, bound)
      requires peeked.Some? ==> Before(first, peeked.value)
      modifies queue, this`inserted
      ensures InSlice(s, t, e + group, gone') && queue.Valid()
      ensures Peeked(next, queue.heap, cancelled, bound) && (next.Some? ==> t <= next.value.time)
      ensures group != [] && forall x :: x in group ==> SameKey(first, x)
      ensures next.Some? && next.value.time == t ==> first.channel < next.value.channel
      ensures Rest(s, e + group, gone') <= Rest(s, e + [first], gone)
    {
      hide InSlice, Rest, WellFormed;
      group, next, gone' := [first], peeked, gone;
      while next.Some? && SameKey(next.value, first)
        invariant InSlice(s, t, e + group, gone') && queue.Valid()
        invariant Peeked(next, queue.heap, cancelled, bound)
        invariant next.Some? ==> Before(first, next.value)
        invariant group != [] && forall x :: x in group ==> SameKey(first, x)
        invariant Rest(s, e + group, gone') <= Rest(s, e + [first], gone)
        decreases Rest(s, e + group, gone')
      {
        var x;
        ghost var before := e + group;
        x, next, gone' := PullThenPeek(bound, next.value, s, t, before, gone');
        group := group + [x];
        assert e + group == before + [x];
      }
    }

    /** Adds the future of the mailbox of `action`, already pulled, to those of the mailboxes before it. */
    method AddMailbox(bound: int, action: Item, peeked: Option<Item>, futures: seq<seq<Item>>, ghost s: SimState,
                      t: int, ghost gone: set<Item>)
      returns (futures': seq<seq<Item>>, next: Option<Item>, ghost gone': set<Item>)
      requires InSlice(s, t, Flatten(futures) + [action], gone) && queue.Valid() && action.time == t && Grouped(futures)
      requires forall x :: x in Flatten(futures) ==> x.channel < action.channel
      requires Peeked(peeked, queue.heap, cancelled, bound)
      requires peeked.Some? ==> Before(action, peeked.value)
      modifies queue, this`inserted
      ensures InSlice(s, t, Flatten(futures'), gone') && queue.Valid() && Grouped(futures') && futures' != []
      ensures Peeked(next, queue.heap, cancelled, bound)
      ensures next.Some? && next.value.time == t ==>
                forall x :: x in Flatten(futures') ==> x.channel < next.value.channel
      ensures Rest(s, Flatten(futures'), gone') <= Rest(s, Flatten(futures) + [action], gone)
    {
      hide Flatten, InSlice, Rest, Grouped;
      var group;
      group, next, gone' := PullMailbox(bound, action, peeked, s, t, Flatten(futures), gone);
      GroupAppended(futures, group);
      futures' := futures + [group];
    }

    /**
     * Pulls everything due at `t`, mailbox by mailbox; a lone action may be handed over on its own. It ends because
     * nothing live and due at `t` has a null period, which `InSlice` says; otherwise it would not.
     */
    method PullSlice(bound: int, head: Item, ghost s: SimState, t: int, ghost discarded: set<Item>)
      returns (futures: seq<seq<Item>>, ghost gone: set<Item>)
      requires InSlice(s, t, [], discarded) && t <= bound
      requires IsLeast(head, queue.heap) && Live(head, cancelled) && head.time == t
      modifies queue, this`inserted
      ensures InSlice(s, t, Flatten(futures), gone) && Grouped(futures)
      ensures EarliestLive(s.heap, s.cancelled, bound, t)
      ensures IsSlice(s.heap, s.cancelled, t, Flatten(futures))
      ensures SliceQueue(s, t, Flatten(futures), gone, queue.heap, queue.nextEpoch)
    {
      assert Grouped([]) && Flatten<Item>([]) == [];
      hide Flatten, InSlice, Rest, Grouped, EarliestLive, IsSlice, SliceQueue;
      var current, first, next := head, true, None;
      futures, gone := [], discarded;
      while true
        invariant InSlice(s, t, Flatten(futures), gone) && Grouped(futures) && (first ==> futures == [])
        invariant IsLeast(current, queue.heap) && Live(current, cancelled) && current.time == t
        invariant forall x :: x in Flatten(futures) ==> x.channel < current.channel
        decreases Rest(s, Flatten(futures), gone)
      {
        ghost var e := Flatten(futures);
        var action;
        action, next, gone := PullThenPeek(bound, current, s, t, e, gone);
        if first && inlineLoneActions && (next.None? || t < next.value.time) {
          LoneGroup(action);
          futures := [[action]];
          assert e + [action] == [action];
          break;
        }
        first := false;
        futures, next, gone := AddMailbox(bound, action, next, futures, s, t, gone);
        if next.None? || next.value.time != t {
          SomeGroup(futures);
          break;
        }
        current := next.value;
      }
      SlicePulled(bound, t, s, Flatten(futures), gone, next);
    }

    lemma SlicePulled(bound: int, t: int, s: SimState, e: seq<Item>, gone: set<Item>, next: Option<Item>)
      requires InSlice(s, t, e, gone) && e != [] && t <= bound
      requires Peeked(next, queue.heap, cancelled, bound) && (next.Some? ==> next.value.time != t)
      ensures EarliestLive(s.heap, s.cancelled, bound, t) && IsSlice(s.heap, s.cancelled, t, e)
      ensures SliceQueue(s, t, e, gone, queue.heap, queue.nextEpoch)
    {
      SliceIsComplete(s, bound, t, e, gone, queue.heap, queue.nextEpoch, next);
    }

    /**
     * Advances to the next time at which something live is due, if that is within `bound`, and runs all of it;
     * otherwise only drops cancelled actions.
     */
    method StepToNextBounded(bound: int) returns (r: Option<int>)
      requires Valid() && SliceEnds(View(), bound)
      modifies this, queue
      ensures Valid()
      ensures r.None? ==> IdleStep(old(View()), bound, View())
      ensures r.Some? ==> r.value == time <= bound && old(time) < time && SliceStep(respond, old(View()), bound, View())
    {
      ghost var s := View();
      var head;
      ghost var gone;
      head, gone := PeekNextKey(bound);
      if head.None? {
        return None;
      }
      var t := head.value.time;
      PullingStarts(s, t, gone, queue.heap, head.value);
      var futures;
      futures, gone := PullSlice(bound, head.value, s, t, gone);
      PullingWellFormed(s, t, Flatten(futures), gone, queue.heap, queue.nextEpoch);
      time := t;
      batches := batches + [Batch(t, futures)];
      ghost var mid := View();
      SpawnedBy(s, bound, mid, futures, gone);
      RunExecutor();
      r := Some(t);
    }

    /** Runs slice after slice until the simulation time is `target`. */
    method StepUntilUnchecked(target: int) returns (ghost run: seq<SimState>)
      requires Valid() && time <= target && SlicesEnd(respond, View(), target)
      modifies this, queue
      ensures Valid() && time == target
      ensures IsRun(respond, target, run) && run[0] == old(View())
      ensures Reaches(run[|run| - 1], target, View())
    {
      run := [View()];
      while true
        invariant Valid() && time <= target
        invariant IsRun(respond, target, run) && run[0] == old(View()) && run[|run| - 1] == View()
        decreases target - time
      {
        var r := StepToNextBounded(target);
        if r.None? {
          ghost var last := View();
          time := target;
          return;
        }
        RunExtends(respond, target, run, View());
        run := run + [View()];
        if r.value == target {
          return;
        }
      }
    }

    method StepUntil(target: int) returns (ok: bool, ghost run: seq<SimState>)
      requires Valid() && (time < target ==> SlicesEnd(respond, View(), target))
      modifies this, queue
      ensures Valid() && (ok <==> old(time) < target)
      ensures !ok ==> View() == old(View())
      ensures ok ==> time == target && IsRun(respond, target, run) && run[0] == old(View())
                     && Reaches(run[|run| - 1], target, View())
    {
      run := [];
      if time >= target {
        return false, run;
      }
      run := StepUntilUnchecked(target);
      ok := true;
    }

    method StepBy(duration: nat) returns (ghost run: seq<SimState>)
      requires Valid() && SlicesEnd(respond, View(), time + duration)
      modifies this, queue
      ensures Valid() && time == old(time) + duration
      ensures IsRun(respond, time, run) && run[0] == old(View()) && Reaches(run[|run| - 1], time, View())
    {
      hide SlicesEnd, IsRun, Reaches;
      run := StepUntilUnchecked(time + duration);
    }
  }

  /** Nothing live and due at the next time, if that is within `bound`, has a null period. */
  ghost predicate SliceEnds(s: SimState, bound: int) {
    forall t :: EarliestLive(s.heap, s.cancelled, bound, t) ==> NoNullAt(s.heap, s.cancelled, t)
  }

  /** So it is at every slice of every run up to `target`. */
  ghost predicate SlicesEnd(respond: seq<Batch> -> seq<Request>, s: SimState, target: int) {
    forall run :: IsRun(respond, target, run) && run[0] == s ==> SliceEnds(run[|run| - 1], target)
  }

  /** No model hands over an action with a null period that is due by `target`. */
  ghost predicate Harmless(respond: seq<Batch> -> seq<Request>, target: int) {
    forall h, r :: r in respond(h) && r.ScheduleReady? && r.time <= target ==> Moves(r.action)
  }

  lemma {:induction false} AnswersKeepNoNull(s: SimState, requests: seq<Request>, target: int)
    requires NoNullBy(s.heap, s.cancelled, target)
    requires forall r :: r in requests && r.ScheduleReady? && r.time <= target ==> Moves(r.action)
    ensures NoNullBy(AnswerAll(s, requests).heap, AnswerAll(s, requests).cancelled, target)
  {
    if requests != [] {
      AnswersKeepNoNull(s, requests[..|requests| - 1], target);
      assert requests[|requests| - 1] in requests;
    }
  }

  lemma SliceKeepsNoNull(respond: seq<Batch> -> seq<Request>, s: SimState, target: int, s': SimState)
    requires NoNullBy(s.heap, s.cancelled, target) && Harmless(respond, target) && SliceStep(respond, s, target, s')
    ensures NoNullBy(s'.heap, s'.cancelled, target)
  {
    hide Reinsertions, Grouped, Sorted, Flatten;
    var mid :| Spawned(s, target, mid) && s' == AnswerAll(mid, respond(mid.batches));
    var e := Flatten(mid.batches[|s.batches|].futures);
    forall y | y in mid.heap && Live(y, mid.cancelled) && y.time <= target
      ensures Moves(y.action)
    {
      if y in Reinsertions(e, s.nextEpoch) {
        ReinsertionsAre(e, s.nextEpoch, y);
        var x :| x in e && x.action == y.action;
      }
    }
    AnswersKeepNoNull(mid, respond(mid.batches), target);
  }

  lemma {:induction false} RunKeepsNoNull(respond: seq<Batch> -> seq<Request>, target: int, run: seq<SimState>, k: nat)
    requires IsRun(respond, target, run) && Harmless(respond, target) && k < |run|
    requires NoNullBy(run[0].heap, run[0].cancelled, target)
    ensures NoNullBy(run[k].heap, run[k].cancelled, target)
  {
    hide NoNullBy, SliceStep, Harmless;
    if k > 0 {
      RunKeepsNoNull(respond, target, run, k - 1);
      SliceKeepsNoNull(respond, run[k - 1], target, run[k]);
    }
  }

  /** What a caller can check: no null period is queued, or will be handed over, for a time up to the target. */
  lemma HarmlessSlicesEnd(respond: seq<Batch> -> seq<Request>, s: SimState, target: int)
    requires NoNullBy(s.heap, s.cancelled, target) && Harmless(respond, target)
    ensures SlicesEnd(respond, s, target)
  {
    forall run | IsRun(respond, target, run) && run[0] == s
      ensures SliceEnds(run[|run| - 1], target)
    {
      RunKeepsNoNull(respond, target, run, |run| - 1);
    }
  }

  lemma PullingStarts(s: SimState, t: int, gone: set<Item>, heap: set<Item>, head: Item)
    requires WellFormed(s.heap, s.nextEpoch)
    requires gone <= s.heap && heap == s.heap - gone && (forall x :: x in gone ==> !Live(x, s.cancelled))
    requires IsLeast(head, heap) && head.time == t
    ensures Pulling(s, t, [], gone, heap, s.nextEpoch)
    ensures Elems(Reinsertions([], s.nextEpoch)) == {}
  {
    assert Rest(s, [], gone) == heap;
  }

  lemma SpawnedBy(s: SimState, bound: int, mid: SimState, futures: seq<seq<Item>>, gone: set<Item>)
    requires mid.batches == s.batches + [Batch(mid.time, futures)]
    requires EarliestLive(s.heap, s.cancelled, bound, mid.time)
          && IsSlice(s.heap, s.cancelled, mid.time, Flatten(futures))
    requires Grouped(futures) && mid.cancelled == s.cancelled
    requires mid.inserted == s.inserted + Elems(Reinsertions(Flatten(futures), s.nextEpoch))
    requires SliceQueue(s, mid.time, Flatten(futures), gone, mid.heap, mid.nextEpoch)
    ensures Spawned(s, bound, mid)
  {
    assert mid.batches[|s.batches|] == Batch(mid.time, futures);
  }

  /** States linked by time slices, none past `target`. */
  ghost predicate IsRun(respond: seq<Batch> -> seq<Request>, target: int, run: seq<SimState>) {
    |run| > 0 && forall k :: 0 <= k < |run| - 1 ==> SliceStep(respond, run[k], target, run[k + 1])
  }

  /** The last slice was at `target`, or nothing live was left by then and time just moves on. */
  ghost predicate Reaches(last: SimState, target: int, end: SimState) {
    || (end == last && last.time == target)
    || exists idle :: IdleStep(last, target, idle) && end == idle.(time := target)
  }

  lemma RunExtends(respond: seq<Batch> -> seq<Request>, target: int, run: seq<SimState>, s: SimState)
    requires IsRun(respond, target, run) && SliceStep(respond, run[|run| - 1], target, s)
    ensures IsRun(respond, target, run + [s])
  {
    var longer := run + [s];
    forall k | 0 <= k < |longer| - 1
      ensures SliceStep(respond, longer[k], target, longer[k + 1])
    {
      if k < |run| - 1 { assert longer[k] == run[k] && longer[k + 1] == run[k + 1]; }
    }
  }

  lemma NextIsLater(s: SimState, t: int, e: seq<Item>, gone: set<Item>, heap: set<Item>, nextEpoch: nat, x: Item,
                    next: Option<Item>)
    requires Pulling(s, t, e, gone, heap, nextEpoch) && x in e
    requires next.Some? ==> next.value in heap
    ensures next.Some? ==> Before(x, next.value) && t <= next.value.time
  {
    hide Sorted, WellFormed, Reinsertions;
    PullingWellFormed(s, t, e, gone, heap, nextEpoch);
  }
}
