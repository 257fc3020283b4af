/** A mailbox: a bounded channel with any number of senders and one receiver, closed when the last sender goes. */
module Channel {
  import opened Bytes
  import opened BoundedFifo

  /**
   * `lastDrops` counts senders that were the last one when dropped and have not closed the channel yet. `hadSender`,
   * `accepted` and `received` are history.
   */
  datatype ChannelState = ChannelState(
    fifo: Fifo, senderCount: nat, lastDrops: nat, receiverGone: bool,
    hadSender: bool, accepted: seq<Message>, received: seq<Message>)

  /**
   * One atomic step. A `Send` may go by a stale look at the queue, from when it was full; a `Recv` may miss a message
   * whose sender is still writing it.
   */
  datatype Op =
    | Send(msg: Message, stale: bool)
    | Recv(missed: bool)
    | Done                 // the received message has been handled and its slot is given back
    | CloseByReceiver
    | CloseBySender
    | NewSender            // from the receiver, or by cloning
    | DropSender           // the count goes down
    | FinishDrop           // ... and the last one closes
    | DropReceiver

  datatype Reply = Ok | Waiting | SendError | Received(msg: Message) | RecvError

  function NewChannel(capacity: nat): ChannelState {
    ChannelState(Fifo(capacity, [], false, false), 0, 0, false, false, [], [])
  }

  /** Whether the code can take the step: handles exist, and the receiver handles one message at a time. */
  predicate Enabled(c: ChannelState, op: Op) {
    match op
    case Send(_, _) => 0 < c.senderCount
    case Recv(_) => !c.receiverGone && !c.fifo.held
    case Done => c.fifo.held
    case CloseByReceiver => !c.receiverGone
    case CloseBySender => 0 < c.senderCount
    case NewSender => !c.receiverGone || 0 < c.senderCount
    case DropSender => 0 < c.senderCount
    case FinishDrop => 0 < c.lastDrops
    case DropReceiver => !c.receiverGone
  }

  function Apply(c: ChannelState, op: Op): (ChannelState, Reply)
    requires Enabled(c, op)
  {
    match op
    case Send(m, stale) =>
      if stale then (c, Waiting)
      else if c.fifo.closed then (c, SendError)
      else if !c.fifo.HasRoom() then (c, Waiting)
      else (c.(fifo := c.fifo.Push(m), accepted := c.accepted + [m]), Ok)
    case Recv(missed) =>
      if c.fifo.contents != [] && !missed then
        var m := c.fifo.contents[0];
        (c.(fifo := c.fifo.Pop(), received := c.received + [m]), Received(m))
      else if c.fifo.contents == [] && c.fifo.closed then (c, RecvError)
      else (c, Waiting)
    case Done => (c.(fifo := c.fifo.Release()), Ok)
    case CloseByReceiver => (c.(fifo := c.fifo.Close()), Ok)
    case CloseBySender => (c.(fifo := c.fifo.Close()), Ok)
    case NewSender => (c.(senderCount := c.senderCount + 1, hadSender := true), Ok)
    case DropSender =>
      (c.(senderCount := c.senderCount - 1,
          lastDrops := if c.senderCount == 1 then c.lastDrops + 1 else c.lastDrops), Ok)
    case FinishDrop => (c.(lastDrops := c.lastDrops - 1, fifo := c.fifo.Close()), Ok)
    case DropReceiver => (c.(receiverGone := true, fifo := c.fifo.Close()), Ok)
  }

  /** What every interleaving of senders and receiver keeps. */
  ghost predicate ChannelInv(c: ChannelState) {
    && c.accepted == c.received + c.fifo.contents
    && c.fifo.Occupied() <= c.fifo.capacity
    && (c.hadSender && c.senderCount == 0 ==> c.fifo.closed || 0 < c.lastDrops)
    && (0 < c.senderCount ==> c.hadSender)
  }

  /**
   * One step: accepted messages stay accepted and are received in order; nothing is accepted once closed; an error
   * on receiving means closed and drained, an error on sending means closed.
   */
  lemma StepIsSafe(c: ChannelState, op: Op)
    requires ChannelInv(c) && Enabled(c, op)
    ensures var (c', r) := Apply(c, op);
            && ChannelInv(c')
            && c.accepted <= c'.accepted && c.received <= c'.received
            && c'.fifo.capacity == c.fifo.capacity
            && (c.fifo.closed ==> c'.fifo.closed && c'.accepted == c.accepted)
            && (r == RecvError ==> c.fifo.closed && c.received == c.accepted)
            && (r == SendError <==> op.Send? && !op.stale && c.fifo.closed)
            && (r.Received? ==>
                  && |c.received| < |c.accepted| && r.msg == c.accepted[|c.received|]
                  && c'.received == c.received + [r.msg])
            && (op.Send? ==> if r == Ok then c'.accepted == c.accepted + [op.msg] else c' == c)
  {
    if op.Recv? && c.fifo.contents != [] && !op.missed {
      assert c.fifo.contents == [c.fifo.contents[0]] + c.fifo.contents[1..];
      Associative(c.received, [c.fifo.contents[0]], c.fifo.contents[1..]);
    }
    if op.Send? {
      Associative(c.received, c.fifo.contents, [op.msg]);
    }
  }

  /**
   * What one step is bound to do: an up-to-date send is accepted exactly if the channel is open and has room, a receive
   * that does not miss gets a message exactly if there is one and fails exactly if there is none and none to come, and
   * the channel closes exactly by a step that closes it.
   */
  lemma StepDecides(c: ChannelState, op: Op)
    requires ChannelInv(c) && Enabled(c, op)
    ensures var (c', r) := Apply(c, op);
            && (op.Send? && !op.stale ==>
                  (r == Ok <==>
                     !c.fifo.closed
                     && |c.accepted| - |c.received| + (if c.fifo.held then 1 else 0) < c.fifo.capacity))
            && (op.Recv? && !op.missed ==>
                  && (r.Received? <==> |c.received| < |c.accepted|)
                  && (r == RecvError <==> c.received == c.accepted && c.fifo.closed))
            && (r.Received? ==> c'.fifo.held) && (op.Done? ==> !c'.fifo.held && c'.accepted == c.accepted)
            && (c'.fifo.closed <==>
                  c.fifo.closed || op.CloseByReceiver? || op.CloseBySender? || op.FinishDrop? || op.DropReceiver?)
            && c'.senderCount - c.senderCount == (if op.NewSender? then 1 else if op.DropSender? then -1 else 0)
  {
  }

  ghost predicate IsRun(states: seq<ChannelState>, ops: seq<Op>) {
    && |states| == |ops| + 1
    && forall k :: 0 <= k < |ops| ==> Enabled(states[k], ops[k]) && states[k + 1] == Apply(states[k], ops[k]).0
  }

  /** Over all interleavings, from any point `i` of a run to any later point `k`. */
  lemma {:induction false} EveryRunIsSafe(states: seq<ChannelState>, ops: seq<Op>, i: nat, k: nat)
    requires IsRun(states, ops) && states[0] == NewChannel(states[0].fifo.capacity) && i <= k < |states|
    ensures ChannelInv(states[i]) && ChannelInv(states[k])
    ensures states[i].accepted <= states[k].accepted && states[i].received <= states[k].received
    ensures states[i].fifo.closed ==> states[k].fifo.closed && states[k].accepted == states[i].accepted
    decreases k, i
  {
    hide Apply, ChannelInv, Enabled;
    if i < k {
      EveryRunIsSafe(states, ops, i, k - 1);
      StepIsSafe(states[k - 1], ops[k - 1]);
    } else if k > 0 {
      EveryRunIsSafe(states, ops, k - 1, k - 1);
      StepIsSafe(states[k - 1], ops[k - 1]);
    } else {
      NewChannelHolds(states[0].fifo.capacity);
    }
  }

  lemma NewChannelHolds(capacity: nat)
    ensures ChannelInv(NewChannel(capacity))
  {
  }

  /** Once the last sender is gone and has finished going, the channel is closed. */
  lemma LastSenderCloses(states: seq<ChannelState>, ops: seq<Op>, k: nat)
    requires IsRun(states, ops) && states[0] == NewChannel(states[0].fifo.capacity) && k < |states|
    requires states[k].hadSender && states[k].senderCount == 0 && states[k].lastDrops == 0
    ensures states[k].fifo.closed
  {
    EveryRunIsSafe(states, ops, k, k);
  }

  /** The shared channel object; each method is one atomic step. */
  class SharedChannel {
    var queue: Fifo
    var senderCount: nat
    ghost var lastDrops: nat
    ghost var receiverGone: bool
    ghost var hadSender: bool
    ghost var accepted: seq<Message>
    ghost var received: seq<Message>

    constructor (capacity: nat)
      requires 1 <= capacity
      ensures View() == NewChannel(capacity) && ChannelInv(View())
    {
      queue, senderCount := Fifo(capacity, [], false, false), 0;
      lastDrops, receiverGone, hadSender, accepted, received := 0, false, false, [], [];
    }

    ghost function View(): ChannelState
      reads this
    {
      ChannelState(queue, senderCount, lastDrops, receiverGone, hadSender, accepted, received)
    }

    /**
     * One attempt of `send`; `stale` says that the queue was seen full a moment ago. Exactly an accepted message
     * joins the end of the line; an error means closed, and waiting that there was no room, now or a moment ago.
     */
    method TrySend(m: Message, stale: bool) returns (r: Reply)
      requires ChannelInv(View()) && Enabled(View(), Send(m, stale))
      modifies this
      ensures ChannelInv(View()) && (View(), r) == Apply(old(View()), Send(m, stale))
      ensures accepted == (if r == Ok then old(accepted) + [m] else old(accepted)) && received == old(received)
      ensures r == Ok ==> !queue.closed && |accepted| - |received| <= queue.capacity
      ensures r == SendError ==> queue.closed
      ensures r == Waiting ==> stale || (!queue.closed && queue.Occupied() == queue.capacity)
    {
      StepIsSafe(View(), Send(m, stale));
      if stale {
        r := Waiting;
      } else if queue.closed {
        r := SendError;
      } else if !queue.HasRoom() {
        r := Waiting;
      } else {
        queue := queue.Push(m);
        accepted := accepted + [m];
        r := Ok;
      }
    }

    /**
     * One attempt of `recv`; `published` says whether the oldest accepted message is there to be taken. What is
     * received is the next accepted message; the error comes only once everything accepted has been received.
     */
    method TryRecv(published: bool) returns (r: Reply)
      requires ChannelInv(View()) && Enabled(View(), Recv(!published))
      modifies this
      ensures ChannelInv(View()) && (View(), r) == Apply(old(View()), Recv(!published))
      ensures accepted == old(accepted) && received == (if r.Received? then old(received) + [r.msg] else old(received))
      ensures r.Received? ==> |old(received)| < |accepted| && r.msg == accepted[|old(received)|]
      ensures r == RecvError <==> queue.closed && old(received) == accepted
      ensures r == Waiting ==> !published || old(received) == accepted
    {
      StepIsSafe(View(), Recv(!published));
      if queue.contents != [] && published {
        var m := queue.contents[0];
        queue := queue.Pop();
        received := received + [m];
        r := Received(m);
      } else if queue.contents == [] && queue.closed {
        r := RecvError;
      } else {
        r := Waiting;
      }
    }

    /** The handler is done: there is room for one more. */
    method FinishMessage()
      requires ChannelInv(View()) && Enabled(View(), Done)
      modifies this`queue
      ensures ChannelInv(View()) && View() == Apply(old(View()), Done).0
      ensures queue.HasRoom() && queue.Occupied() == old(queue.Occupied()) - 1
    {
      queue := queue.Release();
    }

    /** Closing loses nothing: what was accepted and not received is still to come. */
    method CloseFromReceiver()
      requires ChannelInv(View()) && Enabled(View(), CloseByReceiver)
      modifies this`queue
      ensures ChannelInv(View()) && View() == Apply(old(View()), CloseByReceiver).0
      ensures queue.closed && accepted == received + queue.contents
    {
      if !queue.closed {
        queue := queue.Close();
      }
    }

    method AddSender()
      requires ChannelInv(View()) && Enabled(View(), NewSender)
      modifies this`senderCount, this`hadSender
      ensures ChannelInv(View()) && View() == Apply(old(View()), NewSender).0
    {
      senderCount := senderCount + 1;
      hadSender := true;
    }

    /** The sender's share of a drop: without senders, the channel is closed or a last one still has to close it. */
    method RemoveSender() returns (last: bool)
      requires ChannelInv(View()) && Enabled(View(), DropSender)
      modifies this`senderCount, this`lastDrops
      ensures ChannelInv(View()) && View() == Apply(old(View()), DropSender).0
      ensures last <==> senderCount == 0
      ensures last ==> 0 < lastDrops
    {
      last := senderCount == 1;
      senderCount := senderCount - 1;
      lastDrops := if last then lastDrops + 1 else lastDrops;
    }

    /** The last sender closes the channel unless it is closed already. */
    method CloseAfterLast()
      requires ChannelInv(View()) && Enabled(View(), FinishDrop)
      modifies this`queue, this`lastDrops
      ensures ChannelInv(View()) && View() == Apply(old(View()), FinishDrop).0
      ensures queue.closed && accepted == received + queue.contents
    {
      if !queue.closed {
        queue := queue.Close();
      }
      lastDrops := lastDrops - 1;
    }

    method DropTheReceiver()
      requires ChannelInv(View()) && Enabled(View(), DropReceiver)
      modifies this`queue, this`receiverGone
      ensures ChannelInv(View()) && View() == Apply(old(View()), DropReceiver).0
      ensures queue.closed
    {
      queue := queue.Close();
      receiverGone := true;
    }
  }

  /** Between two messages: `senders` senders, a receiver that holds none. */
  ghost predicate Between(c: ChannelState, senders: nat) {
    ChannelInv(c) && c.senderCount == senders && c.lastDrops == 0 && !c.receiverGone && !c.fifo.held
  }

  /** The receiver takes the next message and handles it, or learns why there is none. */
  method HandleNext(c: SharedChannel) returns (r: Reply)
    requires Between(c.View(), c.senderCount)
    modifies c
    ensures Between(c.View(), old(c.senderCount)) && c.accepted == old(c.accepted)
    ensures c.queue.capacity == old(c.queue.capacity) && c.queue.closed == old(c.queue.closed)
    ensures r.Received? <==> |old(c.received)| < |c.accepted|
    ensures r.Received? ==> r.msg == c.accepted[|old(c.received)|] && c.queue.HasRoom()
    ensures c.received == if r.Received? then old(c.received) + [r.msg] else old(c.received)
    ensures r == RecvError <==> c.queue.closed && old(c.received) == c.accepted
  {
    r := c.TryRecv(true);
    if r.Received? {
      c.FinishMessage();
    }
  }

  /** A sender sends one message, the receiver making room first if there is none. */
  method SendOrMakeRoom(c: SharedChannel, m: Message, got: seq<Message>) returns (r: Reply, got': seq<Message>)
    requires Between(c.View(), c.senderCount) && 0 < c.senderCount && 1 <= c.queue.capacity && got == c.received
    modifies c
    ensures Between(c.View(), old(c.senderCount)) && got' == c.received
    ensures c.queue.capacity == old(c.queue.capacity) && c.queue.closed == old(c.queue.closed)
    ensures r == if c.queue.closed then SendError else Ok
    ensures c.accepted == if r == Ok then old(c.accepted) + [m] else old(c.accepted)
  {
    got' := got;
    r := c.TrySend(m, false);
    if r == Waiting {
      var next := HandleNext(c);
      got' := got' + [next.msg];
      r := c.TrySend(m, false);
    }
  }

  /** The receiver handles messages until there are none and none to come. */
  method Drain(c: SharedChannel, got: seq<Message>) returns (got': seq<Message>)
    requires Between(c.View(), c.senderCount) && c.queue.closed && got == c.received
    modifies c
    ensures Between(c.View(), old(c.senderCount)) && got' == c.accepted == old(c.accepted)
  {
    got' := got;
    while true
      invariant Between(c.View(), old(c.senderCount)) && c.queue.closed
      invariant got' == c.received && c.accepted == old(c.accepted)
      decreases |c.accepted| - |c.received|
    {
      var r := HandleNext(c);
      if r == RecvError {
        return;
      }
      got' := got' + [r.msg];
    }
  }

  /** Sends all messages, the receiver closing the channel after `closeAt` of them. */
  method SendAll(c: SharedChannel, messages: seq<Message>, closeAt: nat)
    returns (got: seq<Message>, refused: seq<Message>)
    requires Between(c.View(), c.senderCount) && 0 < c.senderCount && 1 <= c.queue.capacity && !c.queue.closed
    requires c.accepted == c.received == [] && closeAt <= |messages|
    modifies c
    ensures Between(c.View(), old(c.senderCount)) && got == c.received
    ensures c.accepted == messages[..closeAt] && refused == messages[closeAt..]
  {
    hide ChannelInv;
    got, refused := [], [];
    for i := 0 to |messages|
      invariant Between(c.View(), old(c.senderCount)) && c.queue.capacity == old(c.queue.capacity)
      invariant c.queue.closed <==> closeAt < i
      invariant got == c.received && c.accepted == messages[..if closeAt < i then closeAt else i]
      invariant refused == if closeAt < i then messages[closeAt..i] else []
    {
      if i == closeAt {
        c.CloseFromReceiver();
      }
      var r;
      r, got := SendOrMakeRoom(c, messages[i], got);
      if r == SendError {
        refused := refused + [messages[i]];
      }
    }
  }

  /**
   * Two senders send; whenever the mailbox is full the receiver handles a message, and after `closeAt` of them it
   * closes. When the senders are gone it handles the rest. For every capacity it has got all that was sent before it
   * closed, once and in order, and everything later was refused.
   */
  method Exchange(capacity: nat, messages: seq<Message>, closeAt: nat)
    returns (got: seq<Message>, refused: seq<Message>)
    requires 1 <= capacity && closeAt <= |messages|
    ensures got == messages[..closeAt] && refused == messages[closeAt..]
  {
    hide ChannelInv;
    var c := new SharedChannel(capacity);
    c.AddSender();
    c.AddSender();
    got, refused := SendAll(c, messages, closeAt);
    var last := c.RemoveSender();
    last := c.RemoveSender();
    c.CloseAfterLast();
    got := Drain(c, got);
    c.DropTheReceiver();
  }
}
