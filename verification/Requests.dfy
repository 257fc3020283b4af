/**
 * From what is asked of the scheduler to what runs: every event asked for in time runs at the time and for the mailbox
 * asked for, unless its key is cancelled, and nothing runs that was not asked for.
 */
module Requests {
  import opened Bytes
  import opened Scheduling
  import opened Simulation
  import opened SimulationRuns

  /** Request `r` was made before the run, if `k` is 0, or by a model when slice `k` ran. */
  ghost predicate Asked(respond: seq<Batch> -> seq<Request>, requests: seq<Request>, run: seq<SimState>, k: nat,
                        r: Request)
  {
    k < |run| && r in if k == 0 then requests else respond(run[k].batches)
  }

  /** The request can be met at time `now`: an action in the future; a null period only if it comes ready-made. */
  predicate InTime(now: int, r: Request) {
    match r
    case Schedule(time, _, action) => now < time && action.period != Some(0)
    case ScheduleReady(time, _) => now < time
    case Cancel(_) => false
  }

  /** `x` is the action asked for, due `m` periods after the time asked for. */
  predicate Meets(r: Request, m: nat, x: Item) {
    && !r.Cancel? && x.action == r.action && x.channel == (if r.Schedule? then r.channel else 0)
    && x.time == r.time + m * if r.action.period.Some? then r.action.period.value else 0
  }

  ghost predicate HasKey(x: Item, key: nat) { x.action.key == Some(key) }

  // One request.

  lemma AnswerTakes(s: SimState, r: Request) returns (x: Item)
    requires InTime(s.time, r)
    ensures Meets(r, 0, x) && x in Answer(s, r).inserted
  {
    x := Item(r.time, if r.Schedule? then r.channel else 0, s.nextEpoch, r.action);
  }

  lemma AnswerAdds(s: SimState, r: Request, x: Item)
    requires x in Answer(s, r).inserted && x !in s.inserted
    ensures InTime(s.time, r) && Meets(r, 0, x)
  {
  }

  /** After a cancellation exactly one more key is cancelled, and no item with it is live. */
  lemma CancelExactly(s: SimState, r: Request, key: nat)
    ensures key in Answer(s, r).cancelled <==> key in s.cancelled || r == Cancel(key)
    ensures r == Cancel(key) ==> forall x :: HasKey(x, key) ==> !Live(x, Answer(s, r).cancelled)
  {
  }

  // All requests made at one moment.

  lemma {:induction false} AnswersTake(s: SimState, requests: seq<Request>, r: Request) returns (x: Item)
    requires r in requests && InTime(s.time, r)
    ensures Meets(r, 0, x) && x in AnswerAll(s, requests).inserted
  {
    var init, last := requests[..|requests| - 1], requests[|requests| - 1];
    AnswersKeepTime(s, init);
    hide Answer;
    if r in init {
      x := AnswersTake(s, init, r);
      AnswerGrows(AnswerAll(s, init), last);
    } else {
      x := AnswerTakes(AnswerAll(s, init), last);
    }
  }

  lemma AnswerGrows(s: SimState, r: Request)
    ensures s.inserted <= Answer(s, r).inserted && Answer(s, r).time == s.time && Answer(s, r).batches == s.batches
  {
  }

  lemma {:induction false} AnswersKeepTime(s: SimState, requests: seq<Request>)
    ensures var s' := AnswerAll(s, requests); s'.time == s.time && s'.batches == s.batches && s.inserted <= s'.inserted
  {
    hide Answer;
    if requests != [] {
      AnswersKeepTime(s, requests[..|requests| - 1]);
      AnswerGrows(AnswerAll(s, requests[..|requests| - 1]), requests[|requests| - 1]);
    }
  }

  lemma {:induction false} AnswersAdd(s: SimState, requests: seq<Request>, x: Item) returns (r: Request)
    requires x in AnswerAll(s, requests).inserted && x !in s.inserted
    ensures r in requests && InTime(s.time, r) && Meets(r, 0, x)
  {
    var init, last := requests[..|requests| - 1], requests[|requests| - 1];
    AnswersKeepTime(s, init);
    hide Answer;
    if x in AnswerAll(s, init).inserted {
      r := AnswersAdd(s, init, x);
    } else {
      AnswerAdds(AnswerAll(s, init), last, x);
      r := last;
    }
  }

  lemma {:induction false} AnswersCancel(s: SimState, requests: seq<Request>, key: nat)
    ensures key in AnswerAll(s, requests).cancelled <==> key in s.cancelled || Cancel(key) in requests
  {
    hide Answer;
    if requests != [] {
      var init := requests[..|requests| - 1];
      AnswersCancel(s, init, key);
      CancelExactly(AnswerAll(s, init), requests[|requests| - 1], key);
      assert requests == init + [requests[|requests| - 1]];
    }
  }

  // Runs.

  /** A run from a new simulation of which `requests` were asked first. */
  ghost predicate Begins(respond: seq<Batch> -> seq<Request>, start: int, requests: seq<Request>, target: int,
                         run: seq<SimState>)
  {
    IsRun(respond, target, run) && run[0] == AnswerAll(SimState(start, {}, 0, {}, [], {}), requests)
  }

  lemma BeginsHolds(respond: seq<Batch> -> seq<Request>, start: int, requests: seq<Request>, target: int,
                    run: seq<SimState>, k: nat)
    requires Begins(respond, start, requests, target, run) && k < |run|
    ensures RunInv(run[0]) && RunInv(run[k]) && run[0].time == start
  {
    hide RunInv, Answer, SliceStep;
    NewSimulationHolds(start);
    AnswersKeepInv(SimState(start, {}, 0, {}, [], {}), requests);
    RunKeepsInv(respond, target, run, k);
  }

  /** The state when slice `k` has been handed to the executor and before the models' requests are answered. */
  lemma Handed(respond: seq<Batch> -> seq<Request>, target: int, run: seq<SimState>, k: nat) returns (mid: SimState)
    requires IsRun(respond, target, run) && 0 < k < |run|
    ensures Spawned(run[k - 1], target, mid) && run[k] == AnswerAll(mid, respond(run[k].batches))
    ensures run[k].time == mid.time && run[k].batches == mid.batches && mid.inserted <= run[k].inserted
  {
    assert SliceStep(respond, run[k - 1], target, run[k - 1 + 1]);
    hide Spawned, Answer;
    mid :| Spawned(run[k - 1], target, mid) && run[k] == AnswerAll(mid, respond(mid.batches));
    AnswersKeepTime(mid, respond(mid.batches));
  }

  lemma {:induction false} InsertedGrows(respond: seq<Batch> -> seq<Request>, target: int, run: seq<SimState>, j: nat,
                                         k: nat)
    requires IsRun(respond, target, run) && j <= k < |run|
    ensures run[j].inserted <= run[k].inserted
  {
    hide SliceStep, AnswerAll;
    if j < k {
      InsertedGrows(respond, target, run, j, k - 1);
      var mid := Handed(respond, target, run, k);
      hide Reinsertions, Grouped, IsSlice, EarliestLive, SliceQueue;
    }
  }

  /** What was asked for in time is queued. */
  lemma AskedIsQueued(respond: seq<Batch> -> seq<Request>, start: int, requests: seq<Request>, target: int,
                      run: seq<SimState>, k: nat, r: Request)
    returns (x: Item)
    requires Begins(respond, start, requests, target, run) && Asked(respond, requests, run, k, r)
    requires InTime(run[k].time, r)
    ensures Meets(r, 0, x) && x in run[|run| - 1].inserted
  {
    hide SliceStep, Answer, InTime, Meets, Spawned;
    if k == 0 {
      BeginsHolds(respond, start, requests, target, run, 0);
      x := AnswersTake(SimState(start, {}, 0, {}, [], {}), requests, r);
    } else {
      var mid := Handed(respond, target, run, k);
      x := AnswersTake(mid, respond(run[k].batches), r);
    }
    InsertedGrows(respond, target, run, k, |run| - 1);
  }

  /** A key is cancelled exactly if that was asked. */
  lemma {:induction false} CancelledIsAsked(respond: seq<Batch> -> seq<Request>, start: int, requests: seq<Request>,
                                            target: int, run: seq<SimState>, k: nat, key: nat)
    requires Begins(respond, start, requests, target, run) && k < |run|
    ensures key in run[k].cancelled <==> exists i: nat :: i <= k && Asked(respond, requests, run, i, Cancel(key))
  {
    hide SliceStep, Answer;
    if k == 0 {
      AnswersCancel(SimState(start, {}, 0, {}, [], {}), requests, key);
      assert Asked(respond, requests, run, 0, Cancel(key)) <==> Cancel(key) in requests;
    } else {
      CancelledIsAsked(respond, start, requests, target, run, k - 1, key);
      var mid := Handed(respond, target, run, k);
      assert mid.cancelled == run[k - 1].cancelled;
      hide Spawned;
      AnswersCancel(mid, respond(run[k].batches), key);
      assert Asked(respond, requests, run, k, Cancel(key)) <==> Cancel(key) in respond(run[k].batches);
    }
  }

  /** Where an item comes from. */
  ghost predicate Traced(respond: seq<Batch> -> seq<Request>, requests: seq<Request>, run: seq<SimState>, x: Item) {
    exists i: nat, r, m: nat ::
      Asked(respond, requests, run, i, r) && InTime(run[i].time, r) && Meets(r, m, x)
  }

  lemma MeetsLater(r: Request, m: nat, x: Item, y: Item)
    requires Meets(r, m, x) && y.action == x.action && y.channel == x.channel
    requires x.action.period.Some? && y.time == x.time + x.action.period.value
    ensures Meets(r, m + 1, y)
  {
    assert (m + 1) * x.action.period.value == m * x.action.period.value + x.action.period.value;
  }

  lemma {:induction false} EverythingIsTraced(respond: seq<Batch> -> seq<Request>, start: int, requests: seq<Request>,
                                              target: int, run: seq<SimState>, k: nat, x: Item)
    requires Begins(respond, start, requests, target, run) && k < |run| && x in run[k].inserted
    ensures Traced(respond, requests, run, x)
    decreases k
  {
    hide SliceStep, Answer, InTime, Meets;
    if k == 0 {
      BeginsHolds(respond, start, requests, target, run, 0);
      var r := AnswersAdd(SimState(start, {}, 0, {}, [], {}), requests, x);
      assert Asked(respond, requests, run, 0, r);
    } else if x in run[k - 1].inserted {
      EverythingIsTraced(respond, start, requests, target, run, k - 1, x);
    } else {
      var mid := Handed(respond, target, run, k);
      if x !in mid.inserted {
        var r := AnswersAdd(mid, respond(run[k].batches), x);
        assert Asked(respond, requests, run, k, r);
      } else {
        BeginsHolds(respond, start, requests, target, run, k - 1);
        var y := PutBack(run[k - 1], target, mid, x);
        EverythingIsTraced(respond, start, requests, target, run, k - 1, y);
        LaterIsTraced(respond, requests, run, y, x);
      }
    }
  }

  /** An item that a slice puts back is one it ran, a period later. */
  lemma PutBack(s: SimState, bound: int, mid: SimState, x: Item) returns (y: Item)
    requires RunInv(s) && Spawned(s, bound, mid) && x in mid.inserted && x !in s.inserted
    ensures y in s.inserted && x.action == y.action && x.channel == y.channel
    ensures y.action.period.Some? && x.time == y.time + y.action.period.value
  {
    var e := Flatten(mid.batches[|s.batches|].futures);
    ReinsertionsAre(e, s.nextEpoch, x);
    y :| y in e && y.action == x.action && y.channel == x.channel
         && y.action.period.Some? && x.time == y.time + y.action.period.value;
  }

  lemma LaterIsTraced(respond: seq<Batch> -> seq<Request>, requests: seq<Request>, run: seq<SimState>, x: Item, y: Item)
    requires Traced(respond, requests, run, x) && y.action == x.action && y.channel == x.channel
    requires x.action.period.Some? && y.time == x.time + x.action.period.value
    ensures Traced(respond, requests, run, y)
  {
    hide InTime;
    var i: nat, r, m: nat :| Asked(respond, requests, run, i, r) && InTime(run[i].time, r) && Meets(r, m, x);
    MeetsLater(r, m, x, y);
  }

  /**
   * The scheduler's promise, from a new simulation to a target: every action asked for in time and due by the target,
   * before the run or by a model on the way, runs at the time and for the mailbox asked for, unless its key was
   * cancelled by request; and everything that runs was asked for, for that time or some periods before it.
   */
  lemma RequestsAreMet(respond: seq<Batch> -> seq<Request>, start: int, requests: seq<Request>, target: int,
                       run: seq<SimState>, end: SimState)
    requires Begins(respond, start, requests, target, run)
    requires run[|run| - 1].time <= target && Reaches(run[|run| - 1], target, end)
    ensures forall k: nat, r :: Asked(respond, requests, run, k, r) && InTime(run[k].time, r) && r.time <= target ==>
              || (exists x :: x in Executed(end.batches) && Meets(r, 0, x))
              || (r.action.key.Some? && exists i: nat :: Asked(respond, requests, run, i, Cancel(r.action.key.value)))
    ensures forall x :: x in Executed(end.batches) ==> Traced(respond, requests, run, x)
  {
    hide SliceStep, Answer, Executed, Traced;
    BeginsHolds(respond, start, requests, target, run, |run| - 1);
    EverythingDueRuns(respond, target, run, end);
    ReachKeeps(run[|run| - 1], target, end);
    forall k: nat, r | Asked(respond, requests, run, k, r) && InTime(run[k].time, r) && r.time <= target
      ensures (exists x :: x in Executed(end.batches) && Meets(r, 0, x))
           || (r.action.key.Some? && exists i: nat :: Asked(respond, requests, run, i, Cancel(r.action.key.value)))
    {
      RequestIsMet(respond, start, requests, target, run, end, k, r);
    }
    forall x | x in Executed(end.batches)
      ensures Traced(respond, requests, run, x)
    {
      EverythingIsTraced(respond, start, requests, target, run, |run| - 1, x);
    }
  }

  lemma ReachKeeps(last: SimState, target: int, end: SimState)
    requires Reaches(last, target, end)
    ensures end.inserted == last.inserted && end.cancelled == last.cancelled
  {
  }

  lemma RequestIsMet(respond: seq<Batch> -> seq<Request>, start: int, requests: seq<Request>, target: int,
                     run: seq<SimState>, end: SimState, k: nat, r: Request)
    requires Begins(respond, start, requests, target, run) && Asked(respond, requests, run, k, r)
    requires run[|run| - 1].time <= target && Reaches(run[|run| - 1], target, end)
    requires InTime(run[k].time, r) && r.time <= target
    ensures (exists x :: x in Executed(end.batches) && Meets(r, 0, x))
         || (r.action.key.Some? && exists i: nat :: Asked(respond, requests, run, i, Cancel(r.action.key.value)))
  {
    hide SliceStep, Answer, Executed, Reaches;
    var x := AskedIsQueued(respond, start, requests, target, run, k, r);
    BeginsHolds(respond, start, requests, target, run, |run| - 1);
    EverythingDueRuns(respond, target, run, end);
    ReachKeeps(run[|run| - 1], target, end);
    if x !in Executed(end.batches) {
      CancelledIsAsked(respond, start, requests, target, run, |run| - 1, r.action.key.value);
    }
  }

  // The order of requests.

  /** What a request in time adds, with the next number. */
  ghost function Taken(s: SimState, r: Request): Item
    requires InTime(s.time, r)
  {
    Item(r.time, if r.Schedule? then r.channel else 0, s.nextEpoch, r.action)
  }

  lemma {:induction false} NumbersGrow(s: SimState, requests: seq<Request>, i: nat, j: nat)
    requires i <= j <= |requests|
    ensures AnswerAll(s, requests[..i]).nextEpoch <= AnswerAll(s, requests[..j]).nextEpoch
    ensures AnswerAll(s, requests[..i]).inserted <= AnswerAll(s, requests[..j]).inserted
    decreases j
  {
    if i < j {
      NumbersGrow(s, requests, i, j - 1);
      assert requests[..j][..j - 1] == requests[..j - 1];
    }
  }

  /** Of two requests met, the earlier one gets the lower number, and so, for one time and mailbox, runs first. */
  lemma EarlierIsNumberedFirst(s: SimState, requests: seq<Request>, i: nat, j: nat) returns (x: Item, y: Item)
    requires i < j < |requests| && InTime(s.time, requests[i]) && InTime(s.time, requests[j])
    ensures x in AnswerAll(s, requests).inserted && y in AnswerAll(s, requests).inserted
    ensures Meets(requests[i], 0, x) && Meets(requests[j], 0, y) && s.nextEpoch <= x.epoch < y.epoch
    ensures SameKey(x, y) ==> Before(x, y)
  {
    x := AnswerAt(s, requests, i);
    y := AnswerAt(s, requests, j);
    NumbersGrow(s, requests, 0, i);
    NumbersGrow(s, requests, i + 1, j);
    assert requests[..0] == [] && requests[..|requests|] == requests;
  }

  lemma AnswerAt(s: SimState, requests: seq<Request>, i: nat) returns (x: Item)
    requires i < |requests| && InTime(s.time, requests[i])
    ensures Meets(requests[i], 0, x) && x in AnswerAll(s, requests).inserted
    ensures AnswerAll(s, requests[..i]).nextEpoch == x.epoch < AnswerAll(s, requests[..i + 1]).nextEpoch
  {
    AnswersKeepTime(s, requests[..i]);
    var b := AnswerAll(s, requests[..i]);
    x := Taken(b, requests[i]);
    assert requests[..i + 1][..i] == requests[..i] && requests[..|requests|] == requests;
    NumbersGrow(s, requests, i + 1, |requests|);
  }

  /** A cancellation holds: once asked for, no item with that key is handed over any more. */
  lemma CancelledKeysNeverRun(respond: seq<Batch> -> seq<Request>, start: int, requests: seq<Request>, target: int,
                              run: seq<SimState>, i: nat, k: nat, x: Item, key: nat)
    requires Begins(respond, start, requests, target, run) && i <= k < |run|
    requires Asked(respond, requests, run, i, Cancel(key)) && HasKey(x, key) && x !in Executed(run[i].batches)
    ensures x !in Executed(run[k].batches)
  {
    hide SliceStep, Answer, Executed;
    BeginsHolds(respond, start, requests, target, run, k);
    CancelledIsAsked(respond, start, requests, target, run, i, key);
    CancelledNeverRuns(respond, target, run, i, k, x);
  }
}
