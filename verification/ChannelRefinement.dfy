/**
 * The channel over the lock-free queue: whatever the producers, the consumer and the handles do, atomic step by
 * atomic step, is a run of the channel.
 */
module ChannelRefinement {
  import opened Bytes
  import opened BoundedFifo
  import opened QueuePositions
  import opened MailboxQueue
  import Proof = MailboxQueueProof
  import opened Channel

  /** The shared state of a channel with its queue in full. */
  datatype Impl = Impl(queue: QueueState, senderCount: nat, lastDrops: nat, receiverGone: bool, hadSender: bool)

  datatype Act =
    | Push(step: Step, out: Outcome)      // a step of a sender in `send`
    | Take(step: Step, out: Outcome)      // a step of the receiver in `recv`
    | Handle(op: Op)                      // handles cloned or dropped, or the channel closed

  predicate IsPush(step: Step) { step.Load? || step.ReadStamp? || step.Exchange? || step.Write? || step.Publish? }

  predicate IsTake(step: Step) { step.Pop? || step.CheckClosed? || step.Vacate? || step.Release? }

  predicate IsHandle(op: Op) { !op.Send? && !op.Recv? && !op.Done? }

  predicate Closes(op: Op) { op == CloseByReceiver || op == CloseBySender || op == FinishDrop || op == DropReceiver }

  ghost function ChannelOf(m: Impl): ChannelState
    requires QueueInv(m.queue)
  {
    ChannelState(Proof.Abs(m.queue), m.senderCount, m.lastDrops, m.receiverGone, m.hadSender, m.queue.claimed,
                 m.queue.received)
  }

  /** The handles on a channel, whatever its queue. */
  function Handles(m: Impl): ChannelState {
    ChannelState(Fifo(0, [], false, false), m.senderCount, m.lastDrops, m.receiverGone, m.hadSender, [], [])
  }

  ghost predicate Acts(m: Impl, a: Act, m': Impl)
    requires Shape(m.queue)
  {
    match a
    case Push(step, out) =>
      IsPush(step) && 0 < m.senderCount && Next(m.queue, step, out, m'.queue) && m' == m.(queue := m'.queue)
    case Take(step, out) =>
      IsTake(step) && !m.receiverGone && Next(m.queue, step, out, m'.queue) && m' == m.(queue := m'.queue)
    case Handle(op) =>
      && IsHandle(op) && Enabled(Handles(m), op)
      && (if Closes(op) then Next(m.queue, Close, Silent, m'.queue) else m'.queue == m.queue)
      && var c := Apply(Handles(m), op).0;
         m' == Impl(m'.queue, c.senderCount, c.lastDrops, c.receiverGone, c.hadSender)
  }

  /** The channel step that an act completes, if it completes one. */
  function Completes(m: Impl, a: Act): Option<Op> {
    match a
    case Push(step, out) =>
      if out == PushFull && step.Exchange? then Some(Send(Msg(m, step.pid), true))
      else if out == PushClosed && step.ReadStamp? then Some(Send(Msg(m, step.pid), false))
      else if step.Exchange? && Claims(m.queue, step) then Some(Send(Msg(m, step.pid), false))
      else None
    case Take(step, out) =>
      if out.Popped? || out == PopClosed then Some(Recv(false))
      else if out == PopEmpty then Some(Recv(true))
      else if step.Release? then Some(Done)
      else None
    case Handle(op) => Some(op)
  }

  /** The message a producer is sending. */
  function Msg(m: Impl, pid: nat): Message { if At(m.queue, pid).Idle? then 0 else At(m.queue, pid).msg }

  predicate Claims(s: QueueState, step: Step)
    requires step.Exchange?
  {
    var p := At(s, step.pid);
    p.Stamped? && p.stamp == p.pos == s.enqueuePos && !step.spurious
  }

  function ReplyTo(a: Act): Reply {
    if a.Push? && a.out == PushFull then Waiting
    else if a.Push? && a.out == PushClosed then SendError
    else if a.Take? && a.out.Popped? then Received(a.out.msg)
    else if a.Take? && a.out == PopClosed then RecvError
    else if a.Take? && a.out == PopEmpty then Waiting
    else Ok
  }

  /** Every act is the channel step it completes, with the reply the code gives, or changes nothing. */
  lemma ActIsChannelStep(m: Impl, a: Act, m': Impl)
    requires QueueInv(m.queue) && Acts(m, a, m')
    ensures QueueInv(m'.queue)
    ensures Completes(m, a).None? ==> ChannelOf(m') == ChannelOf(m)
    ensures Completes(m, a).Some? ==>
      Enabled(ChannelOf(m), Completes(m, a).value)
        && Apply(ChannelOf(m), Completes(m, a).value) == (ChannelOf(m'), ReplyTo(a))
  {
    hide QueueInv, Acts, Apply, Enabled, ChannelOf;
    match a
    case Push(step, out) => PushIsChannelStep(m, step, out, m');
    case Take(step, out) => TakeIsChannelStep(m, step, out, m');
    case Handle(op) => HandleIsChannelStep(m, op, m');
  }

  lemma HandleIsChannelStep(m: Impl, op: Op, m': Impl)
    requires QueueInv(m.queue) && Acts(m, Handle(op), m')
    ensures QueueInv(m'.queue)
    ensures Enabled(ChannelOf(m), op) && Apply(ChannelOf(m), op) == (ChannelOf(m'), Ok)
  {
    hide QueueInv, Proof.Abs, WithFlag;
    if Closes(op) {
      Proof.StepRefines(m.queue, Close, Silent, m'.queue);
    }
  }

  lemma PushIsChannelStep(m: Impl, step: Step, out: Outcome, m': Impl)
    requires QueueInv(m.queue) && Acts(m, Push(step, out), m')
    ensures QueueInv(m'.queue)
    ensures var op := Completes(m, Push(step, out));
      if op.None? then ChannelOf(m') == ChannelOf(m)
      else Enabled(ChannelOf(m), op.value) && Apply(ChannelOf(m), op.value) == (ChannelOf(m'), ReplyTo(Push(step, out)))
  {
    Proof.StepRefines(m.queue, step, out, m'.queue);
    PushHistory(m.queue, step, out, m'.queue);
    hide QueueInv, Next, Proof.Abs, Closed, InHand, Claims;
  }

  /** A push touches only the history of claims, and only when it claims. */
  lemma PushHistory(s: QueueState, step: Step, out: Outcome, s': QueueState)
    requires QueueInv(s) && IsPush(step) && Next(s, step, out, s')
    ensures s'.received == s.received
    ensures step.Exchange? && Claims(s, step) ==>
      s'.claimed == s.claimed + [At(s, step.pid).msg] && out == Silent
    ensures !(step.Exchange? && Claims(s, step)) ==> s'.claimed == s.claimed
    ensures out == PushFull ==> step.Exchange? && !Claims(s, step)
    ensures out == PushClosed ==> step.ReadStamp?
    ensures !out.Popped? && out != PopClosed && out != PopEmpty
  {
    hide QueueInv, NextPos;
  }

  lemma TakeIsChannelStep(m: Impl, step: Step, out: Outcome, m': Impl)
    requires QueueInv(m.queue) && Acts(m, Take(step, out), m')
    ensures QueueInv(m'.queue)
    ensures var op := Completes(m, Take(step, out));
      if op.None? then ChannelOf(m') == ChannelOf(m)
      else Enabled(ChannelOf(m), op.value) && Apply(ChannelOf(m), op.value) == (ChannelOf(m'), ReplyTo(Take(step, out)))
  {
    Proof.StepRefines(m.queue, step, out, m'.queue);
    TakeHistory(m.queue, step, out, m'.queue);
    hide QueueInv, Next, Proof.Abs, Closed, InHand;
  }

  /** Taking touches only the history of what was received, and is done between messages. */
  lemma TakeHistory(s: QueueState, step: Step, out: Outcome, s': QueueState)
    requires QueueInv(s) && IsTake(step) && Next(s, step, out, s')
    ensures s'.claimed == s.claimed
    ensures s'.received == if out.Popped? then s.received + [out.msg] else s.received
    ensures out.Popped? ==> step.Pop?
    ensures out == PopClosed || out == PopEmpty <==> step.CheckClosed?
    ensures step.Pop? || step.CheckClosed? ==> !Proof.Abs(s).held
    ensures out == Silent || out.Popped? || out == PopClosed || out == PopEmpty
  {
    hide QueueInv, NextPos, Closed;
  }

  /** Each act of the code, from any state whose arrays have the queue's size. */
  ghost predicate IsImplRun(impls: seq<Impl>, acts: seq<Act>) {
    && |impls| == |acts| + 1
    && (forall k :: 0 <= k < |acts| ==> Shape(impls[k].queue) && Acts(impls[k], acts[k], impls[k + 1]))
  }

  ghost predicate StartsNew(m: Impl) {
    Shape(m.queue) && m == Impl(NewQueue(m.queue.capacity, m.queue.flag), 0, 0, false, false)
  }

  lemma NewIsNew(m: Impl)
    requires StartsNew(m)
    ensures QueueInv(m.queue) && ChannelOf(m) == NewChannel(m.queue.capacity)
  {
    Proof.NewQueueHolds(m.queue.capacity, m.queue.flag);
    hide QueueInv;
    Proof.NewIsEmpty(m.queue.capacity, m.queue.flag);
  }

  /** What the first `k` acts of a run completed, in order, each with the reply the code gave. */
  ghost function Completed(impls: seq<Impl>, acts: seq<Act>, k: nat): seq<(Op, Reply)>
    requires k <= |acts| && k <= |impls|
  {
    if k == 0 then [] else
    var op := Completes(impls[k - 1], acts[k - 1]);
    Completed(impls, acts, k - 1) + if op.Some? then [(op.value, ReplyTo(acts[k - 1]))] else []
  }

  /** `states` is the run of the channel that takes these steps and gives these replies. */
  ghost predicate Follows(states: seq<ChannelState>, steps: seq<(Op, Reply)>) {
    && |states| == |steps| + 1
    && forall j :: 0 <= j < |steps| ==>
         Enabled(states[j], steps[j].0) && Apply(states[j], steps[j].0) == (states[j + 1], steps[j].1)
  }

  /**
   * Over every interleaving of atomic steps: the operations completed, in the order they complete and with the
   * replies the code gives, are a run of the channel from new to the state the implementation stands for.
   */
  lemma {:induction false} EveryRunIsChannelRun(impls: seq<Impl>, acts: seq<Act>, k: nat)
    returns (states: seq<ChannelState>)
    requires IsImplRun(impls, acts) && StartsNew(impls[0]) && k < |impls|
    ensures QueueInv(impls[k].queue)
    ensures Follows(states, Completed(impls, acts, k))
    ensures states[0] == NewChannel(states[0].fifo.capacity) && states[|states| - 1] == ChannelOf(impls[k])
  {
    hide QueueInv, Acts, Apply, Enabled, Completes, ChannelOf, ReplyTo;
    if k == 0 {
      NewIsNew(impls[0]);
      states := [ChannelOf(impls[0])];
    } else {
      states := EveryRunIsChannelRun(impls, acts, k - 1);
      ActIsChannelStep(impls[k - 1], acts[k - 1], impls[k]);
      var op := Completes(impls[k - 1], acts[k - 1]);
      if op.Some? {
        FollowsOn(states, Completed(impls, acts, k - 1), op.value, ReplyTo(acts[k - 1]));
        states := states + [ChannelOf(impls[k])];
      }
    }
  }

  lemma FollowsOn(states: seq<ChannelState>, steps: seq<(Op, Reply)>, op: Op, r: Reply)
    requires Follows(states, steps) && Enabled(states[|states| - 1], op) && Apply(states[|states| - 1], op).1 == r
    ensures Follows(states + [Apply(states[|states| - 1], op).0], steps + [(op, r)])
  {
    hide Apply, Enabled;
  }

  lemma FollowsIsRun(states: seq<ChannelState>, steps: seq<(Op, Reply)>) returns (ops: seq<Op>)
    requires Follows(states, steps)
    ensures IsRun(states, ops)
  {
    hide Apply, Enabled;
    ops := seq(|steps|, j requires 0 <= j < |steps| => steps[j].0);
  }

  /** So what is received over the lock-free queue is what was accepted, in order and within capacity. */
  lemma EveryImplRunIsSafe(impls: seq<Impl>, acts: seq<Act>, k: nat)
    requires IsImplRun(impls, acts) && StartsNew(impls[0]) && k < |impls|
    ensures QueueInv(impls[k].queue) && ChannelInv(ChannelOf(impls[k]))
  {
    hide QueueInv, Apply, Enabled, ChannelInv, ChannelOf, Acts;
    var states := EveryRunIsChannelRun(impls, acts, k);
    var ops := FollowsIsRun(states, Completed(impls, acts, k));
    EveryRunIsSafe(states, ops, |states| - 1, |states| - 1);
  }

  /** The push of producer `pid` is under way. */
  predicate Pushing(m: Impl, pid: nat) { !At(m.queue, pid).Idle? }

  /** It has read its stamp and will report the queue full. */
  predicate SawFull(m: Impl, pid: nat) { At(m.queue, pid).Stamped? && At(m.queue, pid).full }

  lemma StampKept(m: Impl, a: Act, m': Impl, pid: nat)
    requires Shape(m.queue) && Acts(m, a, m') && SawFull(m', pid)
    ensures Pushing(m, pid) && Pushing(m', pid) && (SawFull(m, pid) || Full(m.queue))
  {
    hide NextPos, Index, Flagged, WithFlag;
  }

  lemma NewSawNothing(m: Impl, pid: nat)
    requires StartsNew(m)
    ensures !SawFull(m, pid)
  {
  }

  /** A producer that read its stamp with the queue full did so at a state of this very push. */
  lemma {:induction false} FullWasSeen(impls: seq<Impl>, acts: seq<Act>, k: nat, pid: nat) returns (j: nat)
    requires IsImplRun(impls, acts) && StartsNew(impls[0]) && 0 < k < |impls| && SawFull(impls[k], pid)
    ensures j < k && Full(impls[j].queue) && forall i :: j <= i <= k ==> Pushing(impls[i], pid)
  {
    hide Acts, StartsNew, SawFull, Full, Pushing;
    NewSawNothing(impls[0], pid);
    StampKept(impls[k - 1], acts[k - 1], impls[k], pid);
    if SawFull(impls[k - 1], pid) {
      j := FullWasSeen(impls, acts, k - 1, pid);
    } else {
      j := k - 1;
    }
  }

  /** "Full" is never made up: at some state since the push began, the queue was. */
  lemma FullIsTrue(impls: seq<Impl>, acts: seq<Act>, k: nat) returns (j: nat)
    requires IsImplRun(impls, acts) && StartsNew(impls[0]) && k < |acts|
    requires acts[k].Push? && acts[k].out == PushFull
    ensures j < k && Full(impls[j].queue)
    ensures acts[k].step.Exchange? && forall i :: j <= i <= k ==> Pushing(impls[i], acts[k].step.pid)
  {
    var states := EveryRunIsChannelRun(impls, acts, k);
    assert Acts(impls[k], acts[k], impls[k + 1]);
    PushHistory(impls[k].queue, acts[k].step, acts[k].out, impls[k + 1].queue);
    Proof.StepRefines(impls[k].queue, acts[k].step, acts[k].out, impls[k + 1].queue);
    assert SawFull(impls[k], acts[k].step.pid);
    NewSawNothing(impls[0], acts[k].step.pid);
    hide QueueInv, Acts, Next, Follows, Completed;
    j := FullWasSeen(impls, acts, k, acts[k].step.pid);
  }
}
