/** Whole runs of a simulation: everything due runs once and in order, and periodic actions keep their beat. */
module SimulationRuns {
  import opened Arithmetic
  import opened Bytes
  import opened Scheduling
  import opened Simulation

  /**
   * Everything whose future was handed to the executor, in order. A keyed event that another action of its own slice
   * cancels is among it, though its future then does nothing.
   */
  ghost function Executed(batches: seq<Batch>): seq<Item> {
    if batches == [] then [] else
    Executed(batches[..|batches| - 1]) + Flatten(batches[|batches| - 1].futures)
  }

  ghost predicate Numbered(inserted: set<Item>, nextEpoch: nat) {
    && (forall x :: x in inserted ==> x.epoch < nextEpoch)
    && (forall x, y :: x in inserted && y in inserted && x.epoch == y.epoch ==> x == y)
  }

  /** Nothing that was ever scheduled is unaccounted for: it waits in the queue, has run, or was cancelled. */
  ghost predicate Accounted(s: SimState) {
    forall x :: x in s.inserted ==> x in s.heap || x in Executed(s.batches) || !Live(x, s.cancelled)
  }

  ghost predicate RunInv(s: SimState) {
    && Numbered(s.inserted, s.nextEpoch)
    && s.heap <= s.inserted && Elems(Executed(s.batches)) <= s.inserted
    && (forall x :: x in s.heap ==> s.time < x.time)
    && (forall x :: x in Executed(s.batches) ==> x.time <= s.time)
    && Sorted(Executed(s.batches))
    && Accounted(s)
  }

  lemma NewSimulationHolds(start: int)
    ensures RunInv(SimState(start, {}, 0, {}, [], {}))
  {
    assert Executed([]) == [];
  }

  lemma ExecutedAppend(s: SimState, bound: int, mid: SimState)
    requires Spawned(s, bound, mid)
    ensures Executed(mid.batches) == Executed(s.batches) + Flatten(mid.batches[|s.batches|].futures)
  {
    hide Reinsertions, Sorted, Grouped, SliceQueue, EarliestLive;
  }

  lemma SortedConcat(a: seq<Item>, b: seq<Item>)
    requires Sorted(a) && Sorted(b) && forall x, y :: x in a && y in b ==> Before(x, y)
    ensures Sorted(a + b)
  {
    var c := a + b;
    forall i, j | 0 <= i < j < |c|
      ensures Before(c[i], c[j])
    {
      if i < |a| <= j { assert c[i] in a && c[j] in b; }
    }
  }

  /** The items put back take new numbers, one each. */
  lemma BackNumbered(inserted: set<Item>, e: seq<Item>, epoch: nat)
    requires Numbered(inserted, epoch)
    ensures Numbered(inserted + Elems(Reinsertions(e, epoch)), epoch + |Reinsertions(e, epoch)|)
  {
    var back := Reinsertions(e, epoch);
    forall y | y in back
      ensures epoch <= y.epoch < epoch + |back|
    {
      ReinsertionsAre(e, epoch, y);
    }
    forall x, y | x in back && y in back && x.epoch == y.epoch
      ensures x == y
    {
      var i :| 0 <= i < |back| && back[i] == x;
      var j :| 0 <= j < |back| && back[j] == y;
      ReinsertionsNumbered(e, epoch, i);
      ReinsertionsNumbered(e, epoch, j);
    }
  }

  lemma SpawnKeepsInv(s: SimState, bound: int, mid: SimState)
    requires RunInv(s) && Spawned(s, bound, mid)
    ensures RunInv(mid) && s.time < mid.time <= bound
  {
    hide Sorted, Executed, Reinsertions, Grouped, Flatten;
    ExecutedAppend(s, bound, mid);
    var t, e := mid.time, Flatten(mid.batches[|s.batches|].futures);
    var gone :| SliceQueue(s, t, e, gone, mid.heap, mid.nextEpoch);
    BackNumbered(s.inserted, e, s.nextEpoch);
    SortedConcat(Executed(s.batches), e);
  }

  lemma AnswerKeepsInv(s: SimState, r: Request)
    requires RunInv(s)
    ensures RunInv(Answer(s, r)) && Answer(s, r).time == s.time && Answer(s, r).batches == s.batches
    ensures s.cancelled <= Answer(s, r).cancelled
  {
    hide Sorted, Executed;
  }

  lemma {:induction false} AnswersKeepInv(s: SimState, requests: seq<Request>)
    requires RunInv(s)
    ensures RunInv(AnswerAll(s, requests))
    ensures AnswerAll(s, requests).time == s.time && AnswerAll(s, requests).batches == s.batches
    ensures s.cancelled <= AnswerAll(s, requests).cancelled
  {
    if requests != [] {
      hide RunInv;
      AnswersKeepInv(s, requests[..|requests| - 1]);
      AnswerKeepsInv(AnswerAll(s, requests[..|requests| - 1]), requests[|requests| - 1]);
    }
  }

  lemma SliceKeepsInv(respond: seq<Batch> -> seq<Request>, s: SimState, bound: int, s': SimState)
    requires RunInv(s) && SliceStep(respond, s, bound, s')
    ensures RunInv(s') && s.time < s'.time <= bound && s.cancelled <= s'.cancelled
  {
    hide RunInv;
    var mid :| Spawned(s, bound, mid) && s' == AnswerAll(mid, respond(mid.batches));
    SpawnKeepsInv(s, bound, mid);
    AnswersKeepInv(mid, respond(mid.batches));
  }

  lemma {:induction false} RunKeepsInv(respond: seq<Batch> -> seq<Request>, target: int, run: seq<SimState>, k: nat)
    requires IsRun(respond, target, run) && RunInv(run[0]) && k < |run|
    ensures RunInv(run[k]) && run[0].cancelled <= run[k].cancelled
  {
    hide RunInv, SliceStep;
    if k > 0 {
      RunKeepsInv(respond, target, run, k - 1);
      SliceKeepsInv(respond, run[k - 1], target, run[k]);
    }
  }

  lemma ReachKeepsInv(last: SimState, target: int, end: SimState)
    requires RunInv(last) && last.time <= target && Reaches(last, target, end)
    ensures RunInv(end) && end.time == target && end.batches == last.batches && end.cancelled == last.cancelled
  {
    hide Sorted, Executed;
  }

  /**
   * Stepping to a target: every action ever scheduled for a time up to the target, also by models on the way, has
   * run or was cancelled; nothing ran twice; and all ran in order of time, mailbox and scheduling. To run is to be
   * handed to the executor, as `Executed` says.
   */
  lemma EverythingDueRuns(respond: seq<Batch> -> seq<Request>, target: int, run: seq<SimState>, end: SimState)
    requires IsRun(respond, target, run) && RunInv(run[0])
    requires run[|run| - 1].time <= target && Reaches(run[|run| - 1], target, end)
    ensures RunInv(end) && end.time == target
    ensures forall x :: x in end.inserted && x.time <= target ==> x in Executed(end.batches) || !Live(x, end.cancelled)
    ensures forall x :: x in Executed(end.batches) ==> x in end.inserted && x.time <= target
    ensures forall i, j :: 0 <= i < j < |Executed(end.batches)| ==>
              Before(Executed(end.batches)[i], Executed(end.batches)[j])
              && Executed(end.batches)[i] != Executed(end.batches)[j]
  {
    hide Executed, SliceStep;
    RunKeepsInv(respond, target, run, |run| - 1);
    ReachKeepsInv(run[|run| - 1], target, end);
  }

  /** From a new simulation on: schedule and cancel anything, then step to a target. */
  lemma WholeSimulation(respond: seq<Batch> -> seq<Request>, start: int, requests: seq<Request>, target: int,
                        run: seq<SimState>, end: SimState)
    requires IsRun(respond, target, run) && run[0] == AnswerAll(SimState(start, {}, 0, {}, [], {}), requests)
    requires run[|run| - 1].time <= target && Reaches(run[|run| - 1], target, end)
    ensures end.time == target
    ensures forall x :: x in end.inserted && x.time <= target ==> x in Executed(end.batches) || !Live(x, end.cancelled)
    ensures forall x :: x in Executed(end.batches) ==> x in end.inserted && start < x.time <= target
    ensures Sorted(Executed(end.batches))
  {
    assert Executed([]) == [];
    hide RunInv, SliceStep, Executed, Answer, Sorted, Reaches;
    NewSimulationHolds(start);
    AnswersKeepInv(SimState(start, {}, 0, {}, [], {}), requests);
    EverythingDueRuns(respond, target, run, end);
    RunSorted(end);
    RunStarts(respond, target, run, |run| - 1);
    ReachKeepsBatches(run[|run| - 1], target, end);
  }

  lemma RunSorted(s: SimState)
    requires RunInv(s)
    ensures Sorted(Executed(s.batches))
  {
  }

  lemma ReachKeepsBatches(last: SimState, target: int, end: SimState)
    requires Reaches(last, target, end)
    ensures end.batches == last.batches && end.cancelled == last.cancelled
  {
  }

  /** What runs in a slice is live when it is pulled and due after the time before. */
  lemma SliceRuns(respond: seq<Batch> -> seq<Request>, s: SimState, bound: int, s': SimState, x: Item)
    requires RunInv(s) && SliceStep(respond, s, bound, s') && x in Executed(s'.batches) && x !in Executed(s.batches)
    ensures Live(x, s.cancelled) && s.time < x.time
  {
    var mid :| Spawned(s, bound, mid) && s' == AnswerAll(mid, respond(mid.batches));
    assert forall y :: y in s.heap ==> s.time < y.time;
    hide RunInv, Answer, Reinsertions, Grouped;
    SpawnKeepsInv(s, bound, mid);
    AnswersKeepInv(mid, respond(mid.batches));
    ExecutedAppend(s, bound, mid);
    hide Executed, Flatten;
  }

  lemma {:induction false} RunStarts(respond: seq<Batch> -> seq<Request>, target: int, run: seq<SimState>, k: nat)
    requires IsRun(respond, target, run) && RunInv(run[0]) && k < |run|
    ensures run[0].time <= run[k].time
    ensures forall x :: x in Executed(run[k].batches) && x !in Executed(run[0].batches) ==> run[0].time < x.time
  {
    hide RunInv, SliceStep, Executed;
    if k > 0 {
      RunStarts(respond, target, run, k - 1);
      RunKeepsInv(respond, target, run, k - 1);
      SliceKeepsInv(respond, run[k - 1], target, run[k]);
      forall x | x in Executed(run[k].batches) && x !in Executed(run[0].batches)
        ensures run[0].time < x.time
      {
        if x !in Executed(run[k - 1].batches) { SliceRuns(respond, run[k - 1], target, run[k], x); }
      }
    }
  }

  /** An action cancelled by some point of a run, and not run by then, never runs: it is not even handed over. */
  lemma {:induction false} CancelledNeverRuns(respond: seq<Batch> -> seq<Request>, target: int, run: seq<SimState>,
                                              j: nat, k: nat, x: Item)
    requires IsRun(respond, target, run) && RunInv(run[0]) && j <= k < |run|
    requires !Live(x, run[j].cancelled) && x !in Executed(run[j].batches)
    ensures !Live(x, run[k].cancelled) && x !in Executed(run[k].batches)
  {
    hide RunInv, SliceStep, Executed;
    if j < k {
      CancelledNeverRuns(respond, target, run, j, k - 1, x);
      RunKeepsInv(respond, target, run, k - 1);
      SliceKeepsInv(respond, run[k - 1], target, run[k]);
      if x in Executed(run[k].batches) {
        SliceRuns(respond, run[k - 1], target, run[k], x);
      }
    }
  }

  // ---------------------------------------------------------------------------------------------------------------
  // A slice is determined by the queue
  // ---------------------------------------------------------------------------------------------------------------

  lemma SortedInit(d: seq<Item>, init: seq<Item>, last: Item)
    requires d == init + [last] && Sorted(d)
    ensures Sorted(init) && last in d
    ensures forall x :: x in init <==> x in d && x != last
    ensures forall x :: x in d ==> x == last || Before(x, last)
  {
    forall x | x in init
      ensures Before(x, last)
    {
      var i :| 0 <= i < |init| && init[i] == x;
      assert d[i] == x && d[|init|] == last;
    }
    assert forall i :: 0 <= i < |init| ==> d[i] == init[i];
  }

  lemma {:induction false} SortedIsUnique(d: seq<Item>, e: seq<Item>)
    requires Sorted(d) && Sorted(e) && forall x :: x in d <==> x in e
    ensures d == e
    decreases |d|
  {
    assert |e| == 0 || e[0] in d;
    if d != [] {
      assert d[0] in e;
      var (d', x) := (d[..|d| - 1], d[|d| - 1]);
      var (e', y) := (e[..|e| - 1], e[|e| - 1]);
      SortedInit(d, d', x);
      SortedInit(e, e', y);
      assert x == y;
      SortedIsUnique(d', e');
    }
  }

  /** The first future ends where the mailbox changes. */
  lemma FirstFuture(f: seq<seq<Item>>)
    requires Grouped(f) && f != []
    ensures Grouped(f[1..])
    ensures var all := Flatten(f);
            && 0 < |f[0]| <= |all| && f[0] == all[..|f[0]|] && Flatten(f[1..]) == all[|f[0]|..]
            && (forall i :: 0 <= i < |f[0]| ==> all[i].channel == all[0].channel)
            && (|f[0]| < |all| ==> all[|f[0]|].channel != all[0].channel)
  {
    var all, n := Flatten(f), |f[0]|;
    assert all == f[0] + Flatten(f[1..]);
    forall i | 0 <= i < n
      ensures all[i].channel == all[0].channel
    {
      assert all[i] == f[0][i] && all[0] == f[0][0];
      assert f[0][i] in f[0] && f[0][0] in f[0];
      assert SameKey(f[0][i], f[0][0]);
    }
    if n < |all| {
      assert Flatten(f[1..]) == f[1] + Flatten(f[1..][1..]);
      assert all[n] == f[1][0] && f[1][0] in f[1] && f[0][0] in f[0];
    }
  }

  lemma {:induction false} GroupingIsUnique(f: seq<seq<Item>>, g: seq<seq<Item>>)
    requires Grouped(f) && Grouped(g) && Flatten(f) == Flatten(g)
    ensures f == g
  {
    hide Grouped;
    if f != [] { FirstFuture(f); }
    if g != [] { FirstFuture(g); }
    if f != [] && g != [] {
      assert |f[0]| == |g[0]|;
      GroupingIsUnique(f[1..], g[1..]);
      assert f == [f[0]] + f[1..] && g == [g[0]] + g[1..];
    }
  }

  /**
   * What a slice hands to the executor depends on the queue alone: pulling a lone action on its own gives the very
   * batch that the general path gives, and a rerun gives the same batches.
   */
  lemma SpawnIsDetermined(s: SimState, bound: int, m1: SimState, m2: SimState)
    requires Spawned(s, bound, m1) && Spawned(s, bound, m2)
    ensures m1.time == m2.time && m1.batches == m2.batches && m1.nextEpoch == m2.nextEpoch && m1.inserted == m2.inserted
  {
    hide Reinsertions, Sorted, Flatten, Grouped;
    var b1, b2 := m1.batches[|s.batches|], m2.batches[|s.batches|];
    SortedIsUnique(Flatten(b1.futures), Flatten(b2.futures));
    GroupingIsUnique(b1.futures, b2.futures);
    assert m1.batches == s.batches + [b1] && m2.batches == s.batches + [b2];
  }

  // ---------------------------------------------------------------------------------------------------------------
  // Periodic actions
  // ---------------------------------------------------------------------------------------------------------------

  /** Times at which actions with identity `a` ran. */
  ghost function TimesOf(a: nat, e: seq<Item>): seq<int> {
    if e == [] then [] else
    TimesOf(a, e[..|e| - 1]) + (if e[|e| - 1].action.id == a then [e[|e| - 1].time] else [])
  }

  ghost function Ticks(t: int, p: nat, n: nat): seq<int> {
    if n == 0 then [] else Ticks(t, p, n - 1) + [t + (n - 1) * p]
  }

  /** `x` is the one queued item of action `a`. */
  ghost predicate Only(heap: set<Item>, a: nat, x: Item) {
    x in heap && x.action.id == a && forall y :: y in heap && y.action.id == a ==> y == x
  }

  /** No model schedules an action with identity `a`. */
  ghost predicate Untouched(respond: seq<Batch> -> seq<Request>, a: nat) {
    forall h, r :: r in respond(h) && !r.Cancel? ==> r.action.id != a
  }

  lemma {:induction false} TimesConcat(a: nat, d: seq<Item>, e: seq<Item>)
    ensures TimesOf(a, d + e) == TimesOf(a, d) + TimesOf(a, e)
    decreases |e|
  {
    if e == [] {
      assert d + e == d;
    } else {
      TimesConcat(a, d, e[..|e| - 1]);
      assert (d + e)[..|d + e| - 1] == d + e[..|e| - 1];
    }
  }

  lemma {:induction false} NoneRan(a: nat, e: seq<Item>, epoch: nat)
    requires forall y :: y in e ==> y.action.id != a
    ensures TimesOf(a, e) == []
    ensures forall y :: y in Reinsertions(e, epoch) ==> y.action.id != a
    decreases |e|
  {
    if e != [] {
      NoneRan(a, e[..|e| - 1], epoch);
    }
  }

  /** One occurrence in a slice: it ran once and is put back once. */
  lemma {:induction false} OneRan(a: nat, e: seq<Item>, epoch: nat, x: Item) returns (y: Item)
    requires Sorted(e) && x in e && x.action.id == a && (forall z :: z in e && z.action.id == a ==> z == x)
    requires x.action.period.Some?
    ensures TimesOf(a, e) == [x.time]
    ensures Only(Elems(Reinsertions(e, epoch)), a, y)
    ensures y.action == x.action && y.time == x.time + x.action.period.value
    decreases |e|
  {
    var init, last := e[..|e| - 1], e[|e| - 1];
    if last == x {
      forall z | z in init
        ensures z.action.id != a
      {
        var i :| 0 <= i < |init| && init[i] == z;
        assert Before(e[i], e[|e| - 1]);
      }
      NoneRan(a, init, epoch);
      y := Item(x.time + x.action.period.value, x.channel, epoch + |Reinsertions(init, epoch)|, x.action);
    } else {
      assert Sorted(init) && x in init && last.action.id != a;
      y := OneRan(a, init, epoch, x);
    }
  }

  lemma {:induction false} AnswersKeepOnly(s: SimState, requests: seq<Request>, a: nat, x: Item)
    requires Only(s.heap, a, x) && forall r :: r in requests && !r.Cancel? ==> r.action.id != a
    ensures Only(AnswerAll(s, requests).heap, a, x)
  {
    if requests != [] {
      AnswersKeepOnly(s, requests[..|requests| - 1], a, x);
      assert requests[|requests| - 1] in requests;
    }
  }

  /** A live periodic action in one slice: it runs if its time has come and moves on by its period, or stays. */
  lemma SlicePeriodic(respond: seq<Batch> -> seq<Request>, s: SimState, bound: int, s': SimState, a: nat, x: Item)
    returns (y: Item)
    requires RunInv(s) && SliceStep(respond, s, bound, s') && Untouched(respond, a)
    requires Only(s.heap, a, x) && x.action.period.Some? && Live(x, s.cancelled)
    ensures Only(s'.heap, a, y) && y.action == x.action
    ensures s'.time == x.time ==>
              y.time == x.time + x.action.period.value
              && TimesOf(a, Executed(s'.batches)) == TimesOf(a, Executed(s.batches)) + [x.time]
    ensures s'.time != x.time ==>
              y == x && TimesOf(a, Executed(s'.batches)) == TimesOf(a, Executed(s.batches))
    ensures x.time <= s'.time ==> s'.time == x.time
  {
    hide Executed, TimesOf, Accounted;
    var mid :| Spawned(s, bound, mid) && s' == AnswerAll(mid, respond(mid.batches));
    SpawnKeepsInv(s, bound, mid);
    AnswersKeepInv(mid, respond(mid.batches));
    ExecutedAppend(s, bound, mid);
    var e := Flatten(mid.batches[|s.batches|].futures);
    TimesConcat(a, Executed(s.batches), e);
    y := SpawnPeriodic(s, bound, mid, a, x);
    AnswersKeepOnly(mid, respond(mid.batches), a, y);
  }

  lemma SpawnPeriodic(s: SimState, bound: int, mid: SimState, a: nat, x: Item) returns (y: Item)
    requires RunInv(s) && Spawned(s, bound, mid)
    requires Only(s.heap, a, x) && x.action.period.Some? && Live(x, s.cancelled)
    ensures Only(mid.heap, a, y) && y.action == x.action && mid.time <= x.time
    ensures var e := Flatten(mid.batches[|s.batches|].futures);
            if mid.time == x.time then y.time == x.time + x.action.period.value && TimesOf(a, e) == [x.time]
            else y == x && TimesOf(a, e) == []
  {
    hide Executed, TimesOf, Accounted, Reinsertions, Grouped, Numbered, Flatten;
    var t, e := mid.time, Flatten(mid.batches[|s.batches|].futures);
    var gone :| SliceQueue(s, t, e, gone, mid.heap, mid.nextEpoch);
    if t == x.time {
      y := OneRan(a, e, s.nextEpoch, x);
    } else {
      NoneRan(a, e, s.nextEpoch);
      y := x;
    }
  }

  /** How often an action first due at `t` with period `p` is due up to `target`. */
  function Beats(t: int, p: nat, target: int): nat
    requires 0 < p
  {
    if target < t then 0 else (target - t) / p + 1
  }

  lemma BeatsAre(t: int, p: nat, target: int, n: nat)
    requires 0 < p && target < t + n * p && (n > 0 ==> t + (n - 1) * p <= target)
    ensures n == Beats(t, p, target)
  {
    if n > 0 {
      var q := (target - t) / p;
      assert q * p <= target - t < q * p + p;
      assert (n - 1) * p == n * p - p;
      if q < n - 1 { LessTimes(q + 1, n - 1, p); }
      if n - 1 < q { LessTimes(n, q, p); }
    }
  }

  /** `n` beats of `x` have run since `s` and the next one is queued. */
  ghost predicate OnBeat(s: SimState, s': SimState, a: nat, x: Item, n: nat, y: Item)
    requires x.action.period.Some?
  {
    var p := x.action.period.value;
    && Only(s'.heap, a, y) && y.action == x.action && y.time == x.time + n * p
    && TimesOf(a, Executed(s'.batches)) == TimesOf(a, Executed(s.batches)) + Ticks(x.time, p, n)
    && (n > 0 ==> x.time + (n - 1) * p <= s'.time)
  }

  lemma BeatGoesOn(respond: seq<Batch> -> seq<Request>, s: SimState, mid: SimState, bound: int, s': SimState,
                   a: nat, x: Item, n: nat, y: Item) returns (n': nat, y': Item)
    requires RunInv(mid) && SliceStep(respond, mid, bound, s') && Untouched(respond, a)
    requires x.action.period.Some? && OnBeat(s, mid, a, x, n, y) && Live(x, mid.cancelled)
    ensures OnBeat(s, s', a, x, n', y')
  {
    hide RunInv, SliceStep, Executed, TimesOf, Untouched, Only;
    SliceKeepsInv(respond, mid, bound, s');
    y' := SlicePeriodic(respond, mid, bound, s', a, y);
    if s'.time == y.time {
      n' := n + 1;
      var p := x.action.period.value;
      assert (n + 1) * p == n * p + p;
      assert Ticks(x.time, p, n + 1) == Ticks(x.time, p, n) + [y.time];
      Associative(TimesOf(a, Executed(s.batches)), Ticks(x.time, p, n), [y.time]);
    } else {
      n' := n;
    }
  }

  lemma {:induction false} RunOnBeat(respond: seq<Batch> -> seq<Request>, target: int, run: seq<SimState>, k: nat,
                                     a: nat, x: Item)
    returns (n: nat, y: Item)
    requires IsRun(respond, target, run) && RunInv(run[0]) && k < |run| && Untouched(respond, a)
    requires Only(run[0].heap, a, x) && x.action.period.Some? && Live(x, run[k].cancelled)
    ensures OnBeat(run[0], run[k], a, x, n, y)
  {
    hide RunInv, SliceStep, Executed, TimesOf, Untouched;
    if k == 0 {
      n, y := 0, x;
      assert Ticks(x.time, x.action.period.value, 0) == [];
    } else {
      RunKeepsInv(respond, target, run, k - 1);
      SliceKeepsInv(respond, run[k - 1], target, run[k]);
      n, y := RunOnBeat(respond, target, run, k - 1, a, x);
      n, y := BeatGoesOn(respond, run[0], run[k - 1], target, run[k], a, x, n, y);
    }
  }

  /**
   * A periodic action that is not cancelled, first due at t with period p, runs at t, t + p, t + 2p, ... up to the
   * target, floor((target - t) / p) + 1 times, and stays queued at the first such time after the target.
   */
  lemma PeriodicKeepsBeat(respond: seq<Batch> -> seq<Request>, target: int, run: seq<SimState>, end: SimState, a: nat,
                          x: Item)
    returns (y: Item)
    requires IsRun(respond, target, run) && RunInv(run[0]) && Untouched(respond, a)
    requires run[|run| - 1].time <= target && Reaches(run[|run| - 1], target, end)
    requires Only(run[0].heap, a, x) && x.action.period.Some? && 0 < x.action.period.value && Live(x, end.cancelled)
    ensures var n := Beats(x.time, x.action.period.value, target);
            && TimesOf(a, Executed(end.batches)) ==
                 TimesOf(a, Executed(run[0].batches)) + Ticks(x.time, x.action.period.value, n)
            && Only(end.heap, a, y) && y.action == x.action && y.time == x.time + n * x.action.period.value
            && target < y.time
  {
    var last := run[|run| - 1];
    RunKeepsInv(respond, target, run, |run| - 1);
    ReachKeepsInv(last, target, end);
    var n;
    n, y := RunOnBeat(respond, target, run, |run| - 1, a, x);
    StaysQueued(last, target, end, a, y);
    BeatsAre(x.time, x.action.period.value, target, n);
  }

  lemma StaysQueued(last: SimState, target: int, end: SimState, a: nat, y: Item)
    requires RunInv(last) && last.time <= target && Reaches(last, target, end)
    requires Only(last.heap, a, y) && Live(y, end.cancelled)
    ensures Only(end.heap, a, y) && target < y.time
  {
    hide Sorted, Executed, Accounted, Numbered;
  }
}
