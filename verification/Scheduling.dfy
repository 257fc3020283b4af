/** Scheduled actions, their order, and what one time slice of a simulation does to them. */
module Scheduling {
  import opened Bytes

  /** An action; `period` makes it recur, `key` lets it be cancelled. */
  datatype Action = Action(id: nat, period: Option<nat>, key: Option<nat>)

  /** A queued action: due time, target mailbox and insertion number. */
  datatype Item = Item(time: int, channel: nat, epoch: nat, action: Action)

  /** Actions spawned for one time slice, one future per element. */
  datatype Batch = Batch(time: int, futures: seq<seq<Item>>)

  /** What models ask of the scheduler while they run. */
  datatype Request =
    | Schedule(time: int, channel: nat, action: Action)
    | ScheduleReady(time: int, action: Action)    // an action made beforehand, whatever it targets
    | Cancel(key: nat)

  /** `inserted` is history: every item that ever entered the queue. */
  datatype SimState = SimState(
    time: int,
    heap: set<Item>,
    nextEpoch: nat,
    cancelled: set<nat>,
    batches: seq<Batch>,
    inserted: set<Item>)

  /** Order of execution: by time, then by mailbox, then in the order of scheduling. */
  predicate Before(a: Item, b: Item) {
    || a.time < b.time
    || (a.time == b.time && (a.channel < b.channel || (a.channel == b.channel && a.epoch < b.epoch)))
  }

  predicate SameKey(a: Item, b: Item) { a.time == b.time && a.channel == b.channel }

  ghost predicate IsLeast(m: Item, s: set<Item>) {
    m in s && forall x :: x in s && x != m ==> Before(m, x)
  }

  predicate Live(x: Item, cancelled: set<nat>) {
    x.action.key.Some? ==> x.action.key.value !in cancelled
  }

  ghost predicate Sorted(e: seq<Item>) {
    forall i, j :: 0 <= i < j < |e| ==> Before(e[i], e[j])
  }

  ghost function Elems(e: seq<Item>): set<Item> { set x | x in e }

  /** Not recurring without any time going by. */
  predicate Moves(action: Action) { action.period != Some(0) }

  /** Items with distinct insertion numbers. */
  ghost predicate WellFormed(heap: set<Item>, nextEpoch: nat) {
    && (forall x :: x in heap ==> x.epoch < nextEpoch)
    && (forall x, y :: x in heap && y in heap && x.epoch == y.epoch ==> x == y)
  }

  // ---------------------------------------------------------------------------------------------------------------
  // Recurring actions
  // ---------------------------------------------------------------------------------------------------------------

  /** The items that pulling `e` puts back, one period later, numbered in the order pulled. */
  function Reinsertions(e: seq<Item>, epoch: nat): seq<Item> {
    if e == [] then [] else
    var r := Reinsertions(e[..|e| - 1], epoch);
    var x := e[|e| - 1];
    if x.action.period.Some? then r + [Item(x.time + x.action.period.value, x.channel, epoch + |r|, x.action)] else r
  }

  lemma ReinsertionsAppend(e: seq<Item>, x: Item, epoch: nat)
    ensures Reinsertions(e + [x], epoch) ==
            Reinsertions(e, epoch) + (if x.action.period.Some?
                                      then [Item(x.time + x.action.period.value, x.channel,
                                                 epoch + |Reinsertions(e, epoch)|, x.action)]
                                      else [])
  {
    assert (e + [x])[..|e|] == e;
  }

  /** Each item put back is one of the pulled ones moved by its period, with a new number. */
  lemma {:induction false} ReinsertionsAre(e: seq<Item>, epoch: nat, y: Item)
    requires y in Reinsertions(e, epoch)
    ensures epoch <= y.epoch < epoch + |Reinsertions(e, epoch)|
    ensures exists x :: x in e && x.action == y.action && x.channel == y.channel
                        && x.action.period.Some? && y.time == x.time + x.action.period.value
    decreases |e|
  {
    if e != [] {
      var r := Reinsertions(e[..|e| - 1], epoch);
      if y in r {
        ReinsertionsAre(e[..|e| - 1], epoch, y);
        var x :| x in e[..|e| - 1] && x.action == y.action && x.channel == y.channel
                 && x.action.period.Some? && y.time == x.time + x.action.period.value;
        assert x in e;
      } else {
        assert e[|e| - 1] in e;
      }
    }
  }

  lemma {:induction false} ReinsertionsNumbered(e: seq<Item>, epoch: nat, k: nat)
    requires k < |Reinsertions(e, epoch)|
    ensures Reinsertions(e, epoch)[k].epoch == epoch + k
    decreases |e|
  {
    if e != [] && k < |Reinsertions(e[..|e| - 1], epoch)| {
      ReinsertionsNumbered(e[..|e| - 1], epoch, k);
    }
  }

  // ---------------------------------------------------------------------------------------------------------------
  // One time slice
  // ---------------------------------------------------------------------------------------------------------------

  /** One nonempty future per mailbox, in mailbox order. */
  ghost predicate Grouped(futures: seq<seq<Item>>) {
    && (forall i :: 0 <= i < |futures| ==> futures[i] != [])
    && (forall i, x, y :: 0 <= i < |futures| && x in futures[i] && y in futures[i] ==> SameKey(x, y))
    && (forall i, j, x, y :: 0 <= i < j < |futures| && x in futures[i] && y in futures[j] ==> x.channel < y.channel)
  }

  /** `e` is all that is live and due at `t`, each item once, in execution order. */
  ghost predicate IsSlice(heap: set<Item>, cancelled: set<nat>, t: int, e: seq<Item>) {
    Sorted(e) && forall x :: x in e <==> x in heap && Live(x, cancelled) && x.time == t
  }

  ghost predicate EarliestLive(heap: set<Item>, cancelled: set<nat>, bound: int, t: int) {
    && t <= bound
    && (exists x :: x in heap && Live(x, cancelled) && x.time == t)
    && (forall x :: x in heap && Live(x, cancelled) ==> t <= x.time)
  }

  /** Nothing live and due at `t`, or due up to `bound`, has a null period. */
  ghost predicate NoNullAt(heap: set<Item>, cancelled: set<nat>, t: int) {
    forall x :: x in heap && Live(x, cancelled) && x.time == t ==> Moves(x.action)
  }

  ghost predicate NoNullBy(heap: set<Item>, cancelled: set<nat>, bound: int) {
    forall x :: x in heap && Live(x, cancelled) && x.time <= bound ==> Moves(x.action)
  }

  /** The queue after the slice at `t` ran `e`: `gone` are cancelled items thrown away on the way. */
  ghost predicate SliceQueue(s: SimState, t: int, e: seq<Item>, gone: set<Item>, heap: set<Item>, nextEpoch: nat) {
    var back := Reinsertions(e, s.nextEpoch);
    && gone <= s.heap && (forall x :: x in gone ==> !Live(x, s.cancelled))
    && heap == s.heap - Elems(e) - gone + Elems(back)
    && nextEpoch == s.nextEpoch + |back|
    && forall x :: x in heap ==> t < x.time
  }

  function Inserted(s: SimState, x: Item): SimState {
    s.(heap := s.heap + {x}, nextEpoch := s.nextEpoch + 1, inserted := s.inserted + {x})
  }

  /**
   * The scheduler's answer to one request: deadlines not in the future are refused, and null periods too unless the
   * action comes ready-made; those all go to channel 0.
   */
  function Answer(s: SimState, r: Request): SimState {
    match r
    case Cancel(key) => s.(cancelled := s.cancelled + {key})
    case Schedule(time, channel, action) =>
      if s.time >= time || !Moves(action) then s else Inserted(s, Item(time, channel, s.nextEpoch, action))
    case ScheduleReady(time, action) =>
      if s.time >= time then s else Inserted(s, Item(time, 0, s.nextEpoch, action))
  }

  function AnswerAll(s: SimState, requests: seq<Request>): SimState {
    if requests == [] then s else Answer(AnswerAll(s, requests[..|requests| - 1]), requests[|requests| - 1])
  }

  /** The state when everything due has been handed to the executor and nothing has run yet. */
  ghost predicate Spawned(s: SimState, bound: int, mid: SimState) {
    && |mid.batches| == |s.batches| + 1 && mid.batches[..|s.batches|] == s.batches
    && var batch := mid.batches[|s.batches|];
       var e := Flatten(batch.futures);
       && mid.time == batch.time
       && EarliestLive(s.heap, s.cancelled, bound, mid.time)
       && IsSlice(s.heap, s.cancelled, mid.time, e)
       && Grouped(batch.futures)
       && mid.cancelled == s.cancelled
       && mid.inserted == s.inserted + Elems(Reinsertions(e, s.nextEpoch))
       && exists gone :: SliceQueue(s, mid.time, e, gone, mid.heap, mid.nextEpoch)
  }

  /** One time slice: everything due at the next time runs, then the models' requests are answered. */
  ghost predicate SliceStep(respond: seq<Batch> -> seq<Request>, s: SimState, bound: int, s': SimState) {
    exists mid :: Spawned(s, bound, mid) && s' == AnswerAll(mid, respond(mid.batches))
  }

  /** Nothing live is due by `bound`; only cancelled items are thrown away. */
  ghost predicate IdleStep(s: SimState, bound: int, s': SimState) {
    && s'.heap <= s.heap && (forall x :: x in s.heap - s'.heap ==> !Live(x, s.cancelled))
    && (forall x :: x in s'.heap ==> bound < x.time)
    && s' == s.(heap := s'.heap)
  }
}
