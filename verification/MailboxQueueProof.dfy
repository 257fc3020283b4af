/** Every interleaving keeps the queue's invariant, never reaches an unreachable branch, and refines a bounded FIFO. */
module MailboxQueueProof {
  import opened QueuePositions
  import opened MailboxQueue
  import opened BoundedFifo

  // ---------------------------------------------------------------------------------------------------------------
  // Slots
  // ---------------------------------------------------------------------------------------------------------------

  /** Different messages of one window have different slots. */
  lemma Apart(s: QueueState, t: nat)
    requires Shape(s) && s.released <= t < s.released + s.capacity
    ensures forall u :: s.released <= u < s.released + s.capacity && u != t ==> SlotOf(s, u) != SlotOf(s, t)
  {
    hide Slot;
    forall u | s.released <= u < s.released + s.capacity && u != t
      ensures SlotOf(s, u) != SlotOf(s, t)
    {
      if u < t { SlotsApart(u, t, s.capacity); } else { SlotsApart(t, u, s.capacity); }
    }
  }

  lemma Fields(s: QueueState, t: nat)
    requires Shape(s)
    ensures Index(PosOf(s, t), s.flag) == SlotOf(s, t) && !Flagged(PosOf(s, t), s.flag)
         && Flagged(PosOf(s, t) + s.flag, s.flag)
    ensures WithFlag(PosOf(s, t), s.flag) == PosOf(s, t) + s.flag
         && WithFlag(PosOf(s, t) + s.flag, s.flag) == PosOf(s, t) + s.flag
    ensures NextPos(PosOf(s, t), s.capacity, s.flag) == PosOf(s, t + 1)
  {
    hide Index, Pos, Slot, Flagged, NextPos;
    PosFields(t, s.capacity, s.flag);
    NextPosIsPos(t, s.capacity, s.flag);
  }

  lemma SamePos(s: QueueState, t: nat, u: nat)
    requires Shape(s) && PosOf(s, t) == PosOf(s, u)
    ensures t == u
  {
    hide Pos;
    if t < u { PosIncreases(t, u, s.capacity, s.flag); } else if u < t { PosIncreases(u, t, s.capacity, s.flag); }
  }

  /** What a producer learns from the stamp of its slot. */
  lemma StampMeans(s: QueueState, k: nat)
    requires QueueInv(s) && k <= |s.claimed|
    ensures var stamp := s.stamps[SlotOf(s, k)];
            (stamp == PosOf(s, k) ==> k < s.released + s.capacity) && (stamp < PosOf(s, k) ==> Full(s))
  {
    hide Pos, Slot;
    var t := WindowHas(s.released, k, s.capacity);
    assert SlotOk(s, t);
    if k < t {
      RoundsApart(k, t, s.capacity, s.flag);
    } else if t < k {
      RoundsApart(t, k, s.capacity, s.flag);
    }
  }

  // ---------------------------------------------------------------------------------------------------------------
  // Steps
  // ---------------------------------------------------------------------------------------------------------------

  /** A producer that neither takes nor gives up a claim disturbs nothing else. */
  lemma QuietProducer(s: QueueState, pid: nat, p: Producer)
    requires QueueInv(s) && !At(s, pid).Claimed? && !At(s, pid).Written? && !p.Claimed? && !p.Written?
    requires ProducerOk(Put(s, pid, p), pid)
    ensures QueueInv(Put(s, pid, p))
  {
    hide Pos, Slot;
    var s' := Put(s, pid, p);
    assert forall q, t :: Owns(s', q, t) <==> Owns(s, q, t);
    forall t | s'.released <= t < s'.released + s'.capacity
      ensures SlotOk(s', t)
    {
      assert SlotOk(s, t);
    }
    forall q | q in s'.producers
      ensures ProducerOk(s', q)
    {
      assert q != pid ==> ProducerOk(s, q);
    }
  }

  lemma ReadStampKeeps(s: QueueState, pid: nat, out: Outcome, s': QueueState)
    requires QueueInv(s) && Next(s, ReadStamp(pid), out, s')
    ensures QueueInv(s')
    ensures out == PushClosed ==> Closed(s)
  {
    hide Pos, Slot, Index, Flagged, SlotOk;
    var p := At(s, pid);
    assert ProducerOk(s, pid);
    Fields(s, p.ticket);
    if !Flagged(p.pos, s.flag) {
      StampMeans(s, p.ticket);
    }
    QuietProducer(s, pid, At(s', pid));
  }

  lemma ClaimKeeps(s: QueueState, pid: nat, s': QueueState)
    requires QueueInv(s) && At(s, pid).Stamped? && Next(s, Exchange(pid, false), Silent, s')
    requires At(s, pid).stamp == At(s, pid).pos == s.enqueuePos
    ensures QueueInv(s') && !Closed(s) && |s.claimed| < s.released + s.capacity
  {
    hide Pos, Slot, Index, Flagged, NextPos;
    var p, n := At(s, pid), |s.claimed|;
    assert ProducerOk(s, pid);
    Fields(s, p.ticket);
    Fields(s, n);
    SamePos(s, p.ticket, n);
    assert SlotOk(s, n);
    assert forall q, t :: Owns(s', q, t) <==> Owns(s, q, t) || (q == pid && t == n);
    assert Owns(s', pid, n);
    forall t | s'.released <= t < s'.released + s'.capacity
      ensures SlotOk(s', t)
    {
      assert SlotOk(s, t);
    }
    forall q | q in s'.producers
      ensures ProducerOk(s', q)
    {
      assert q != pid ==> ProducerOk(s, q);
    }
    forall q: nat, t: nat | Owns(s, q, t)
      ensures t < n
    {
      assert ProducerOk(s, q);
    }
  }

  lemma ExchangeKeeps(s: QueueState, pid: nat, spurious: bool, out: Outcome, s': QueueState)
    requires QueueInv(s) && Next(s, Exchange(pid, spurious), out, s')
    ensures QueueInv(s')
    ensures out == PushFull ==> At(s, pid).full
  {
    hide Pos, Slot, Index, Flagged, NextPos, SlotOk;
    var p := At(s, pid);
    assert ProducerOk(s, pid);
    if p.stamp == p.pos && s.enqueuePos == p.pos && !spurious {
      ClaimKeeps(s, pid, s');
    } else {
      QuietProducer(s, pid, At(s', pid));
    }
  }

  lemma WriteKeeps(s: QueueState, pid: nat, out: Outcome, s': QueueState)
    requires QueueInv(s) && Next(s, Write(pid), out, s')
    ensures QueueInv(s')
  {
    hide Pos, Slot, Index;
    var p := At(s, pid);
    var k := p.ticket;
    assert ProducerOk(s, pid);
    Fields(s, k);
    Apart(s, k);
    assert forall q, t :: Owns(s', q, t) <==> Owns(s, q, t);
    assert Owns(s, pid, k);
    forall t | s'.released <= t < s'.released + s'.capacity
      ensures SlotOk(s', t)
    {
      assert SlotOk(s, t);
    }
    forall q | q in s'.producers
      ensures ProducerOk(s', q)
    {
      assert q != pid ==> ProducerOk(s, q);
      assert q != pid ==> !Owns(s, q, k);
    }
  }

  lemma PublishKeeps(s: QueueState, pid: nat, out: Outcome, s': QueueState)
    requires QueueInv(s) && Next(s, Publish(pid), out, s')
    ensures QueueInv(s')
  {
    hide Pos, Slot, Index;
    var p := At(s, pid);
    var k := p.ticket;
    assert ProducerOk(s, pid);
    Fields(s, k);
    assert Owns(s, pid, k);
    PublishOwners(s, pid, s');
    forall t | s'.released <= t < s'.released + s'.capacity
      ensures SlotOk(s', t)
    {
      Apart(s, k);
      assert SlotOk(s, t);
      if t < |s.claimed| && exists q :: Owns(s, q, t) {
        var q :| Owns(s, q, t);
        assert t != k ==> Owns(s', q, t);
      }
    }
    forall q | q in s'.producers
      ensures ProducerOk(s', q)
    {
      Apart(s, k);
      assert q != pid ==> ProducerOk(s, q) && !Owns(s, q, k);
    }
  }

  lemma PublishOwners(s: QueueState, pid: nat, s': QueueState)
    requires QueueInv(s) && At(s, pid).Written?
    requires s'.producers == s.producers[pid := Idle]
    ensures forall q, t :: Owns(s', q, t) <==> Owns(s, q, t) && t != At(s, pid).ticket
  {
    hide ProducerOk, SlotOk, ConsumerOk, Counts;
    assert Owns(s, pid, At(s, pid).ticket);
  }

  /** What the consumer finds is the oldest message not yet received, or nothing it could take. */
  lemma PopFinds(s: QueueState)
    requires QueueInv(s) && s.consumer == Ready
    ensures var d := |s.received|; var i := SlotOf(s, d);
            && Index(s.dequeuePos, s.flag) == i
            && (s.stamps[i] != s.dequeuePos ==>
                  d < |s.claimed| && s.stamps[i] == s.dequeuePos + 1 && s.cells[i] == Populated(s.claimed[d]))
            && (s.stamps[i] == s.dequeuePos ==> d == |s.claimed| || exists pid :: Owns(s, pid, d))
  {
    hide Pos, Slot, Index;
    Fields(s, |s.received|);
    assert SlotOk(s, |s.received|);
  }

  lemma PopKeeps(s: QueueState, out: Outcome, s': QueueState)
    requires QueueInv(s) && Next(s, Pop, out, s')
    ensures QueueInv(s')
    ensures out.Popped? ==> |s.received| < |s.claimed| && out.msg == s.claimed[|s.received|]
  {
    hide Pos, Slot, Index, NextPos;
    var d := |s.received|;
    PopFinds(s);
    Fields(s, d);
    Apart(s, d);
    assert forall q, t :: Owns(s', q, t) <==> Owns(s, q, t);
    forall t | s'.released <= t < s'.released + s'.capacity
      ensures SlotOk(s', t)
    {
      assert SlotOk(s, t);
    }
    forall q | q in s'.producers
      ensures ProducerOk(s', q)
    {
      assert ProducerOk(s, q);
    }
  }

  lemma VacateKeeps(s: QueueState, out: Outcome, s': QueueState)
    requires QueueInv(s) && Next(s, Vacate, out, s')
    ensures QueueInv(s')
  {
    hide Pos, Slot;
    var r := s.released;
    Apart(s, r);
    assert forall q, t :: Owns(s', q, t) <==> Owns(s, q, t);
    forall t | s'.released <= t < s'.released + s'.capacity
      ensures SlotOk(s', t)
    {
      assert SlotOk(s, t);
    }
    forall q | q in s'.producers
      ensures ProducerOk(s', q)
    {
      assert ProducerOk(s, q);
    }
  }

  /** The stamp left behind is that of the message one round later, so the slot is free for exactly that one. */
  lemma ReleaseKeeps(s: QueueState, out: Outcome, s': QueueState)
    requires QueueInv(s) && Next(s, Release, out, s')
    ensures QueueInv(s')
  {
    hide Pos, Slot;
    var r := s.released;
    Apart(s, r);
    SlotSteps(r, s.capacity);
    PosSteps(r, s.capacity, s.flag);
    assert SlotOk(s, r);
    assert forall q, t :: Owns(s', q, t) <==> Owns(s, q, t);
    forall t | s'.released <= t < s'.released + s'.capacity
      ensures SlotOk(s', t)
    {
      assert t < r + s.capacity ==> SlotOk(s, t);
    }
    forall q | q in s'.producers
      ensures ProducerOk(s', q)
    {
      assert ProducerOk(s, q);
    }
  }

  lemma CloseKeeps(s: QueueState, out: Outcome, s': QueueState)
    requires QueueInv(s) && Next(s, Close, out, s')
    ensures QueueInv(s') && Closed(s')
  {
    hide Pos, Slot, WithFlag;
    Fields(s, |s.claimed|);
    assert forall q, t :: Owns(s', q, t) <==> Owns(s, q, t);
    forall t | s'.released <= t < s'.released + s'.capacity
      ensures SlotOk(s', t)
    {
      assert SlotOk(s, t);
    }
    forall q | q in s'.producers
      ensures ProducerOk(s', q)
    {
      assert ProducerOk(s, q);
    }
  }

  lemma CheckClosedMeans(s: QueueState, out: Outcome, s': QueueState)
    requires QueueInv(s) && Next(s, CheckClosed, out, s')
    ensures QueueInv(s')
    ensures out == PopClosed <==> Closed(s) && |s.received| == |s.claimed|
  {
    hide Pos, Slot, WithFlag, Flagged;
    var n, d := |s.claimed|, |s.received|;
    Fields(s, n);
    Fields(s, d);
    if PosOf(s, n) == PosOf(s, d) { SamePos(s, n, d); }
    assert forall q, t :: Owns(s', q, t) <==> Owns(s, q, t);
    forall t | s'.released <= t < s'.released + s'.capacity
      ensures SlotOk(s', t)
    {
      assert SlotOk(s, t);
    }
    forall q | q in s'.producers
      ensures ProducerOk(s', q)
    {
      assert ProducerOk(s, q);
    }
  }

  lemma StepKeepsInv(s: QueueState, step: Step, out: Outcome, s': QueueState)
    requires QueueInv(s) && Next(s, step, out, s')
    ensures QueueInv(s')
  {
    hide QueueInv;
    match step
    case Load(pid, msg) => LoadKeeps(s, pid, msg, out, s');
    case ReadStamp(pid) => ReadStampKeeps(s, pid, out, s');
    case Exchange(pid, spurious) => ExchangeKeeps(s, pid, spurious, out, s');
    case Write(pid) => WriteKeeps(s, pid, out, s');
    case Publish(pid) => PublishKeeps(s, pid, out, s');
    case Pop => PopKeeps(s, out, s');
    case CheckClosed => CheckClosedMeans(s, out, s');
    case Vacate => VacateKeeps(s, out, s');
    case Release => ReleaseKeeps(s, out, s');
    case Close => CloseKeeps(s, out, s');
  }

  lemma LoadKeeps(s: QueueState, pid: nat, msg: Msg, out: Outcome, s': QueueState)
    requires QueueInv(s) && Next(s, Load(pid, msg), out, s')
    ensures QueueInv(s')
  {
    hide Pos, Slot, SlotOk;
    QuietProducer(s, pid, At(s', pid));
  }

  lemma NewQueueHolds(capacity: nat, flag: nat)
    requires 0 < capacity <= flag
    ensures QueueInv(NewQueue(capacity, flag))
  {
    var s := NewQueue(capacity, flag);
    forall t | s.released <= t < s.released + s.capacity
      ensures SlotOk(s, t)
    {
    }
  }

  /**
   * No interleaving reaches the branches the code declares unreachable, and no thread is ever stuck inside an
   * operation: a claimed slot is vacant when its producer writes, and a stamp ahead of the consumer means a message.
   */
  lemma NeverUnreachable(s: QueueState)
    requires QueueInv(s)
    ensures forall pid :: At(s, pid).Claimed? ==>
              Index(At(s, pid).pos, s.flag) < s.capacity && s.cells[Index(At(s, pid).pos, s.flag)] == Vacated
    ensures forall pid :: At(s, pid).Written? ==> Index(At(s, pid).pos, s.flag) < s.capacity
    ensures forall pid :: At(s, pid).Loaded? && !Flagged(At(s, pid).pos, s.flag) ==>
              Index(At(s, pid).pos, s.flag) < s.capacity
    ensures InHand(s) ==> s.consumer.index < s.capacity
    ensures s.consumer == Ready ==>
              var i := Index(s.dequeuePos, s.flag);
              i < s.capacity && (s.stamps[i] != s.dequeuePos ==>
                                   s.stamps[i] == s.dequeuePos + 1 && s.cells[i].Populated?)
  {
    hide Pos, Slot, Index, Flagged, SlotOk;
    forall pid | At(s, pid).Loaded? && !Flagged(At(s, pid).pos, s.flag)
      ensures Index(At(s, pid).pos, s.flag) == SlotOf(s, At(s, pid).ticket)
    {
      assert ProducerOk(s, pid);
      Fields(s, At(s, pid).ticket);
    }
    forall pid | At(s, pid).Claimed? || At(s, pid).Written?
      ensures Index(At(s, pid).pos, s.flag) == SlotOf(s, At(s, pid).ticket)
      ensures At(s, pid).Claimed? ==> s.cells[SlotOf(s, At(s, pid).ticket)] == Vacated
    {
      assert ProducerOk(s, pid);
      Fields(s, At(s, pid).ticket);
    }
    if s.consumer == Ready { PopFinds(s); }
  }

  // ---------------------------------------------------------------------------------------------------------------
  // Refinement
  // ---------------------------------------------------------------------------------------------------------------

  /** The bounded FIFO that a queue state stands for: accepted and not yet popped, and whether a slot is still held. */
  function Abs(s: QueueState): Fifo
    requires QueueInv(s)
  {
    Fifo(s.capacity, s.claimed[|s.received|..], InHand(s), Closed(s))
  }

  lemma NewIsEmpty(capacity: nat, flag: nat)
    requires 0 < capacity <= flag
    ensures QueueInv(NewQueue(capacity, flag)) && Abs(NewQueue(capacity, flag)) == Fifo(capacity, [], false, false)
  {
    NewQueueHolds(capacity, flag);
  }

  /** What a step does to the FIFO: accepting is the successful exchange, everything else about a push is silent. */
  ghost predicate Simulates(s: QueueState, step: Step, out: Outcome, s': QueueState)
    requires QueueInv(s) && QueueInv(s')
  {
    var f, f' := Abs(s), Abs(s');
    if |s.claimed| < |s'.claimed| then !f.closed && f.HasRoom() && f' == f.Push(s'.claimed[|s.claimed|])
    else if out.Popped? then f.contents != [] && !f.held && out.msg == f.contents[0] && f' == f.Pop()
    else if step.Release? then f.held && f' == f.Release()
    else if step.Close? then f' == f.Close()
    else f' == f
  }

  /**
   * Every atomic step of every interleaving is a step of the bounded FIFO or leaves it as it is, and the verdicts
   * are right: a push fails as closed only if the queue is closed, as full only if it was full when the producer
   * looked, and a pop reports closed exactly when the queue is closed and drained.
   */
  lemma StepRefines(s: QueueState, step: Step, out: Outcome, s': QueueState)
    requires QueueInv(s) && Next(s, step, out, s')
    ensures QueueInv(s') && Simulates(s, step, out, s')
    ensures out == PushClosed ==> Abs(s).closed
    ensures out == PushFull ==> At(s, step.pid).full
    ensures step.CheckClosed? ==> (out == PopClosed <==> Abs(s).closed && Abs(s).contents == [])
  {
    hide Pos, Slot, Index, Flagged, NextPos, SlotOk, WithFlag, ProducerOk;
    StepKeepsInv(s, step, out, s');
    match step
    case ReadStamp(pid) => ReadStampKeeps(s, pid, out, s');
    case Exchange(pid, spurious) => ExchangeRefines(s, pid, spurious, out, s');
    case Pop => PopKeeps(s, out, s');
    case CheckClosed => CheckClosedMeans(s, out, s');
    case Close => CloseKeeps(s, out, s');
    case Load(_, _) =>
    case Write(_) =>
    case Publish(_) =>
    case Vacate =>
    case Release =>
  }

  lemma ExchangeRefines(s: QueueState, pid: nat, spurious: bool, out: Outcome, s': QueueState)
    requires QueueInv(s) && QueueInv(s') && Next(s, Exchange(pid, spurious), out, s')
    ensures Simulates(s, Exchange(pid, spurious), out, s')
    ensures out == PushFull ==> At(s, pid).full
  {
    hide Pos, Slot, Index, Flagged, NextPos, SlotOk;
    var p := At(s, pid);
    ExchangeKeeps(s, pid, spurious, out, s');
    if p.stamp == p.pos && s.enqueuePos == p.pos && !spurious {
      ClaimKeeps(s, pid, s');
      Fields(s, |s.claimed|);
      assert s'.claimed[|s.received|..] == s.claimed[|s.received|..] + [p.msg];
    }
  }

  /**
   * Over every run: messages come out exactly once, in the order they were accepted, never more than the capacity at a
   * time.
   */
  lemma {:induction false} EveryRunIsFifo(states: seq<QueueState>, steps: seq<Step>, outs: seq<Outcome>, k: nat)
    requires |states| == |steps| + 1 == |outs| + 1 && k < |states|
    requires QueueInv(states[0])
    requires forall j :: 0 <= j < |steps| ==> Shape(states[j]) && Next(states[j], steps[j], outs[j], states[j + 1])
    ensures QueueInv(states[k])
    ensures states[k].received <= states[k].claimed
    ensures |states[k].claimed| - |states[k].received| + (if InHand(states[k]) then 1 else 0) <= states[k].capacity
    ensures states[0].claimed <= states[k].claimed && states[k].capacity == states[0].capacity
    ensures Closed(states[0]) ==> Closed(states[k]) && states[k].claimed == states[0].claimed
  {
    hide QueueInv, Next, Closed, PosOf;
    if k > 0 {
      EveryRunIsFifo(states, steps, outs, k - 1);
      StepGrows(states[k - 1], steps[k - 1], outs[k - 1], states[k]);
    }
    InvBounds(states[k]);
  }

  lemma InvBounds(s: QueueState)
    requires QueueInv(s)
    ensures Shape(s) && s.received <= s.claimed
    ensures |s.claimed| - |s.received| + (if InHand(s) then 1 else 0) <= s.capacity
  {
    hide Pos, Slot, SlotOk, ProducerOk;
  }

  lemma StepGrows(s: QueueState, step: Step, out: Outcome, s': QueueState)
    requires QueueInv(s) && Next(s, step, out, s')
    ensures QueueInv(s') && s'.capacity == s.capacity && s.claimed <= s'.claimed
    ensures Closed(s) ==> Closed(s') && s'.claimed == s.claimed
  {
    hide Pos, Slot, Index, Flagged, NextPos, SlotOk, WithFlag, ProducerOk;
    StepRefines(s, step, out, s');
  }
}
