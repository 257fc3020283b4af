/**
 * The bounded queue of a mailbox, step by atomic step: any number of producers race on the enqueue position and the
 * slot stamps while one consumer pops. Every interleaving behaves as a bounded first-in first-out queue.
 */
module MailboxQueue {
  import opened QueuePositions

  type Msg = nat

  datatype Cell = Populated(msg: Msg) | Vacated | Taken

  /**
   * Where a producer is in `push`. `ticket` (the message count behind `pos`) and `full` (whether the queue was full
   * when the stamp was read) are history, used by no step.
   */
  datatype Producer =
    | Idle
    | Loaded(msg: Msg, pos: nat, ticket: nat)                             // enqueue position read
    | Stamped(msg: Msg, pos: nat, ticket: nat, stamp: nat, full: bool)    // stamp of its slot read
    | Claimed(msg: Msg, pos: nat, ticket: nat)                            // position incremented, slot not yet written
    | Written(msg: Msg, pos: nat, ticket: nat)                            // message in the slot, stamp not yet stored

  /** Where the consumer is between `pop` calls and in handling what it popped. */
  datatype Consumer =
    | Ready
    | SawEmpty                                       // the stamp said nothing is there; the closed flag is next
    | Holding(msg: Msg, index: nat, stamp: nat)      // message borrowed, its slot still occupied
    | Vacating(index: nat, stamp: nat)               // box given back, stamp not yet stored

  /** `claimed` and `received` are history: messages in the order they were accepted and popped. */
  datatype QueueState = QueueState(
    capacity: nat, flag: nat,
    enqueuePos: nat, dequeuePos: nat,
    stamps: seq<nat>, cells: seq<Cell>,
    producers: map<nat, Producer>,
    consumer: Consumer,
    claimed: seq<Msg>, received: seq<Msg>, released: nat)

  datatype Outcome = Silent | PushOk | PushFull | PushClosed | Popped(msg: Msg) | PopEmpty | PopClosed

  datatype Step =
    | Load(pid: nat, msg: Msg)   // begin a push: read the enqueue position
    | ReadStamp(pid: nat)        // give up if closed, else read the slot's stamp
    | Exchange(pid: nat, spurious: bool)  // compare-and-exchange, or give up, or reload
    | Write(pid: nat)
    | Publish(pid: nat)
    | Pop                        // read the stamp; take the message if there is one
    | CheckClosed
    | Vacate
    | Release
    | Close

  function NewQueue(capacity: nat, flag: nat): QueueState
    requires 0 < capacity <= flag
  {
    QueueState(capacity, flag, 0, 0, seq(capacity, i => i), seq(capacity, _ => Vacated), map[], Ready, [], [], 0)
  }

  function At(s: QueueState, pid: nat): Producer { if pid in s.producers then s.producers[pid] else Idle }

  function Put(s: QueueState, pid: nat, p: Producer): QueueState { s.(producers := s.producers[pid := p]) }

  predicate Shape(s: QueueState) { 0 < s.capacity <= s.flag && |s.stamps| == |s.cells| == s.capacity }

  function Reload(s: QueueState, pid: nat, msg: Msg): QueueState {
    Put(s, pid, Loaded(msg, s.enqueuePos, |s.claimed|))
  }

  predicate Full(s: QueueState) { |s.claimed| == s.released + s.capacity }

  /** One atomic step; false where the code cannot take it, or would reach an unreachable branch. */
  ghost predicate Next(s: QueueState, step: Step, out: Outcome, s': QueueState)
    requires Shape(s)
  {
    match step
    case Load(pid, msg) =>
      At(s, pid).Idle? && out == Silent && s' == Reload(s, pid, msg)
    case ReadStamp(pid) =>
      var p := At(s, pid);
      && p.Loaded?
      && if Flagged(p.pos, s.flag) then out == PushClosed && s' == Put(s, pid, Idle)
         else
           && out == Silent && Index(p.pos, s.flag) < s.capacity
           && s' == Put(s, pid, Stamped(p.msg, p.pos, p.ticket, s.stamps[Index(p.pos, s.flag)], Full(s)))
    case Exchange(pid, spurious) =>
      var p := At(s, pid);
      && p.Stamped?
      && if p.stamp < p.pos then out == PushFull && s' == Put(s, pid, Idle)
         else if p.stamp == p.pos && s.enqueuePos == p.pos && !spurious then
           && out == Silent
           && s' == Put(s, pid, Claimed(p.msg, p.pos, p.ticket)).(
                      enqueuePos := NextPos(p.pos, s.capacity, s.flag), claimed := s.claimed + [p.msg])
         else out == Silent && s' == Reload(s, pid, p.msg)
    case Write(pid) =>
      var p := At(s, pid);
      && p.Claimed? && Index(p.pos, s.flag) < s.capacity && s.cells[Index(p.pos, s.flag)] == Vacated
      && out == Silent
      && s' == Put(s, pid, Written(p.msg, p.pos, p.ticket)).(cells := s.cells[Index(p.pos, s.flag) := Populated(p.msg)])
    case Publish(pid) =>
      var p := At(s, pid);
      && p.Written? && Index(p.pos, s.flag) < s.capacity && out == PushOk
      && s' == Put(s, pid, Idle).(stamps := s.stamps[Index(p.pos, s.flag) := p.pos + 1])
    case Pop =>
      var i := Index(s.dequeuePos, s.flag);
      && s.consumer == Ready && i < s.capacity
      && if s.stamps[i] == s.dequeuePos then out == Silent && s' == s.(consumer := SawEmpty)
         else
           && s.cells[i].Populated? && out == Popped(s.cells[i].msg)
           && s' == s.(dequeuePos := NextPos(s.dequeuePos, s.capacity, s.flag),
                       cells := s.cells[i := Taken],
                       consumer := Holding(s.cells[i].msg, i, s.stamps[i] + 2 * s.flag - 1),
                       received := s.received + [s.cells[i].msg])
    case CheckClosed =>
      && s.consumer == SawEmpty && s' == s.(consumer := Ready)
      && out == if s.enqueuePos == WithFlag(s.dequeuePos, s.flag) then PopClosed else PopEmpty
    case Vacate =>
      && s.consumer.Holding? && s.consumer.index < s.capacity && out == Silent
      && s' == s.(cells := s.cells[s.consumer.index := Vacated],
                  consumer := Vacating(s.consumer.index, s.consumer.stamp))
    case Release =>
      && s.consumer.Vacating? && s.consumer.index < s.capacity && out == Silent
      && s' == s.(stamps := s.stamps[s.consumer.index := s.consumer.stamp], released := s.released + 1,
                  consumer := Ready)
    case Close =>
      out == Silent && s' == s.(enqueuePos := WithFlag(s.enqueuePos, s.flag))
  }

  // ---------------------------------------------------------------------------------------------------------------
  // Invariant
  // ---------------------------------------------------------------------------------------------------------------

  function PosOf(s: QueueState, t: nat): nat requires Shape(s) { Pos(t, s.capacity, s.flag) }

  function SlotOf(s: QueueState, t: nat): (i: nat)
    requires Shape(s)
    ensures i < s.capacity
  {
    SlotSteps(t, s.capacity);
    Slot(t, s.capacity)
  }

  predicate Closed(s: QueueState) requires Shape(s) { s.enqueuePos == PosOf(s, |s.claimed|) + s.flag }

  predicate InHand(s: QueueState) { s.consumer.Holding? || s.consumer.Vacating? }

  /** What the slot of message `t`, one of the `capacity` not yet released, holds. */
  ghost predicate SlotOk(s: QueueState, t: nat)
    requires Shape(s)
  {
    var i := SlotOf(s, t);
    if t < |s.received| then s.stamps[i] == PosOf(s, t) + 1 && (s.consumer.Vacating? ==> s.cells[i] == Vacated)
    else if t < |s.claimed| then
      || (s.stamps[i] == PosOf(s, t) + 1 && s.cells[i] == Populated(s.claimed[t]))
      || (s.stamps[i] == PosOf(s, t) && exists pid :: Owns(s, pid, t))
    else s.stamps[i] == PosOf(s, t) && s.cells[i] == Vacated
  }

  /** Producer `pid` holds the claim on message `t` and has not published it. */
  ghost predicate Owns(s: QueueState, pid: nat, t: nat) {
    (At(s, pid).Claimed? || At(s, pid).Written?) && At(s, pid).ticket == t
  }

  ghost predicate ProducerOk(s: QueueState, pid: nat)
    requires Shape(s)
  {
    match At(s, pid)
    case Idle => true
    case Loaded(_, pos, k) => k <= |s.claimed| && (pos == PosOf(s, k) || (pos == PosOf(s, k) + s.flag && Closed(s)))
    case Stamped(_, pos, k, stamp, full) =>
      k <= |s.claimed| && pos == PosOf(s, k) && (stamp == pos ==> k < s.released + s.capacity) && (stamp < pos ==> full)
    case Claimed(msg, pos, k) =>
      && |s.received| <= k < |s.claimed| && msg == s.claimed[k] && pos == PosOf(s, k)
      && s.stamps[SlotOf(s, k)] == PosOf(s, k) && s.cells[SlotOf(s, k)] == Vacated
    case Written(msg, pos, k) =>
      && |s.received| <= k < |s.claimed| && msg == s.claimed[k] && pos == PosOf(s, k)
      && s.stamps[SlotOf(s, k)] == PosOf(s, k) && s.cells[SlotOf(s, k)] == Populated(msg)
  }

  ghost predicate ConsumerOk(s: QueueState)
    requires Shape(s)
  {
    var r := s.released;
    && |s.received| == (if InHand(s) then r + 1 else r)
    && (s.consumer.Holding? ==> s.consumer.index == SlotOf(s, r) && s.consumer.stamp == PosOf(s, r) + 2 * s.flag)
    && (s.consumer.Vacating? ==> s.consumer.index == SlotOf(s, r) && s.consumer.stamp == PosOf(s, r) + 2 * s.flag)
  }

  ghost predicate Counts(s: QueueState)
    requires Shape(s)
  {
    && |s.received| <= |s.claimed| <= s.released + s.capacity
    && s.received == s.claimed[..|s.received|]
    && (s.enqueuePos == PosOf(s, |s.claimed|) || Closed(s))
    && s.dequeuePos == PosOf(s, |s.received|)
  }

  ghost predicate QueueInv(s: QueueState) {
    && Shape(s) && Counts(s) && ConsumerOk(s)
    && (forall t :: s.released <= t < s.released + s.capacity ==> SlotOk(s, t))
    && (forall pid :: pid in s.producers ==> ProducerOk(s, pid))
    && (forall p, q, t :: Owns(s, p, t) && Owns(s, q, t) ==> p == q)
  }
}
