/**
 * Models exchanging messages through their mailboxes: a message caused by another, through any chain of models, is
 * never processed before it by a model that gets both.
 */
module CausalMessaging {
  import opened Bytes
  import opened BoundedFifo
  import opened Channel

  /**
   * History of a network. A call is one `send` of an output port, which broadcasts to every connected mailbox; an
   * accepted message is named by its place in the log and knows its call. `cause` is the message its sender was
   * handling when it made the call (none for model initialisation and for events from outside).
   */
  datatype Event =
    | Call(from: nat, cause: Option<nat>)
    | Accept(from: nat, to: nat, call: nat)
    | Start(at: nat, msg: nat)

  /** A broadcast under way: its call and the mailboxes that have not taken the message yet. */
  datatype Broadcast = Broadcast(call: nat, pending: multiset<nat>)

  /**
   * `handling` is the message each model is processing and `sending` the broadcast it awaits. A sender is suspended
   * until every mailbox has taken its message; a model takes its next message only when its handler is done.
   */
  datatype Net = Net(mailboxes: map<nat, ChannelState>, handling: map<nat, nat>, sending: map<nat, Broadcast>,
                     log: seq<Event>)

  function Cause(n: Net, a: nat): Option<nat> { if a in n.handling then Some(n.handling[a]) else None }

  datatype NetOp =
    | Begin(from: nat, targets: multiset<nat>)      // a handler calls `send`
    | Attempt(from: nat, to: nat, stale: bool)      // one try at one mailbox; a full one leaves the sender waiting
    | Return(from: nat)                             // every mailbox is served: the handler goes on
    | Process(at: nat, missed: bool)                // the model loop takes the next message
    | Finish(at: nat)                               // the handler is done
    | Admin(at: nat, op: Op)                        // handles cloned, dropped, or the mailbox closed

  predicate IsAdmin(op: Op) { !op.Send? && !op.Recv? && !op.Done? }

  /** After a try at mailbox `b`: accepted, refused for good because it is closed, or still pending. */
  ghost function Served(n: Net, a: nat, b: nat, r: Reply, c: ChannelState): Net
    requires a in n.sending
  {
    var left := n.sending[a].(pending := n.sending[a].pending - multiset{b});
    if r == Ok then
      n.(mailboxes := n.mailboxes[b := c], sending := n.sending[a := left],
         log := n.log + [Accept(a, b, n.sending[a].call)])
    else if r == SendError then n.(sending := n.sending[a := left])
    else n
  }

  ghost predicate Steps(n: Net, o: NetOp, n': Net) {
    match o
    case Begin(a, to) =>
      && a !in n.sending
      && n' == n.(sending := n.sending[a := Broadcast(|n.log|, to)], log := n.log + [Call(a, Cause(n, a))])
    case Attempt(a, b, stale) =>
      && a in n.sending && b in n.sending[a].pending
      && b in n.mailboxes && Enabled(n.mailboxes[b], Send(|n.log|, stale))
      && var (c, r) := Apply(n.mailboxes[b], Send(|n.log|, stale));
         n' == Served(n, a, b, r, c)
    case Return(a) =>
      && a in n.sending && n.sending[a].pending == multiset{}
      && n' == n.(sending := n.sending - {a})
    case Process(b, missed) =>
      && b in n.mailboxes && b !in n.handling && b !in n.sending && Enabled(n.mailboxes[b], Recv(missed))
      && var (c, r) := Apply(n.mailboxes[b], Recv(missed));
         n' == if r.Received? then
                 n.(mailboxes := n.mailboxes[b := c], handling := n.handling[b := r.msg],
                    log := n.log + [Start(b, r.msg)])
               else n
    case Finish(b) =>
      && b in n.mailboxes && b in n.handling && b !in n.sending && Enabled(n.mailboxes[b], Done)
      && n' == n.(mailboxes := n.mailboxes[b := Apply(n.mailboxes[b], Done).0], handling := n.handling - {b})
    case Admin(b, op) =>
      && b in n.mailboxes && IsAdmin(op) && Enabled(n.mailboxes[b], op)
      && n' == n.(mailboxes := n.mailboxes[b := Apply(n.mailboxes[b], op).0])
  }

  /** Messages accepted by mailbox `b`, in order. */
  ghost function AcceptedTo(log: seq<Event>, b: nat): seq<nat> {
    if log == [] then [] else
    var e := log[|log| - 1];
    AcceptedTo(log[..|log| - 1], b) + if e.Accept? && e.to == b then [|log| - 1] else []
  }

  /** Messages that model `b` started to process, in order. */
  ghost function StartedAt(log: seq<Event>, b: nat): seq<nat> {
    if log == [] then [] else
    var e := log[|log| - 1];
    StartedAt(log[..|log| - 1], b) + if e.Start? && e.at == b then [e.msg] else []
  }

  // ---------------------------------------------------------------------------------------------------------------
  // Invariant
  // ---------------------------------------------------------------------------------------------------------------

  /** The log tells what the mailboxes did. */
  ghost predicate MailInv(n: Net) {
    && (forall b :: b in n.mailboxes ==>
          ChannelInv(n.mailboxes[b])
          && n.mailboxes[b].accepted == AcceptedTo(n.log, b) && n.mailboxes[b].received == StartedAt(n.log, b))
    && (forall b :: b in n.handling ==>
          n.handling[b] < |n.log| && n.log[n.handling[b]].Accept? && n.log[n.handling[b]].to == b)
  }

  ghost predicate IsCall(log: seq<Event>, c: nat, from: nat) { c < |log| && log[c].Call? && log[c].from == from }

  /** A message was sent by an earlier call of its sender; a call's cause was accepted, earlier, by the caller. */
  ghost predicate CallsInv(log: seq<Event>) {
    && (forall j :: 0 <= j < |log| && log[j].Accept? ==> log[j].call < j && IsCall(log, log[j].call, log[j].from))
    && (forall c :: 0 <= c < |log| && log[c].Call? && log[c].cause.Some? ==>
          log[c].cause.value < c && log[log[c].cause.value].Accept? && log[log[c].cause.value].to == log[c].from)
  }

  /** The broadcast a model awaits is its latest call. */
  ghost predicate SendingInv(log: seq<Event>, sending: map<nat, Broadcast>) {
    forall a :: a in sending ==>
      && IsCall(log, sending[a].call, a)
      && (forall c: nat :: IsCall(log, c, a) ==> c <= sending[a].call)
  }

  /** One sender's messages are accepted in the order of its calls, however long a full mailbox kept it waiting. */
  ghost predicate InProgramOrder(log: seq<Event>) {
    forall i, j :: 0 <= i < j < |log| && log[i].Accept? && log[j].Accept? && log[i].from == log[j].from ==>
      log[i].call <= log[j].call
  }

  ghost predicate NetInv(n: Net) {
    MailInv(n) && CallsInv(n.log) && SendingInv(n.log, n.sending) && InProgramOrder(n.log)
  }

  lemma {:induction false} AcceptedAre(log: seq<Event>, b: nat)
    ensures forall i :: i in AcceptedTo(log, b) <==> 0 <= i < |log| && log[i].Accept? && log[i].to == b
    ensures forall p, q :: 0 <= p < q < |AcceptedTo(log, b)| ==> AcceptedTo(log, b)[p] < AcceptedTo(log, b)[q]
  {
    if log != [] {
      var init := log[..|log| - 1];
      AcceptedAre(init, b);
      forall i
        ensures i in AcceptedTo(log, b) <==> 0 <= i < |log| && log[i].Accept? && log[i].to == b
      {
        assert 0 <= i < |init| ==> log[i] == init[i];
      }
      var before, all := AcceptedTo(init, b), AcceptedTo(log, b);
      forall p, q | 0 <= p < q < |all|
        ensures all[p] < all[q]
      {
        assert all[p] == before[p] && before[p] in before;
      }
    }
  }

  lemma LogGrows(log: seq<Event>, e: Event, b: nat)
    ensures AcceptedTo(log + [e], b) == AcceptedTo(log, b) + (if e.Accept? && e.to == b then [|log|] else [])
    ensures StartedAt(log + [e], b) == StartedAt(log, b) + (if e.Start? && e.at == b then [e.msg] else [])
  {
    assert (log + [e])[..|log|] == log;
  }

  lemma CallsGrow(log: seq<Event>, e: Event)
    requires CallsInv(log)
    requires e.Accept? ==> IsCall(log, e.call, e.from)
    requires e.Call? && e.cause.Some? ==>
               e.cause.value < |log| && log[e.cause.value].Accept? && log[e.cause.value].to == e.from
    ensures CallsInv(log + [e])
  {
    forall j | 0 <= j < |log| && log[j].Accept?
      ensures IsCall(log + [e], log[j].call, log[j].from)
    {
      assert IsCall(log, log[j].call, log[j].from);
    }
  }

  lemma SendingGrows(log: seq<Event>, sending: map<nat, Broadcast>, e: Event)
    requires SendingInv(log, sending) && (e.Call? ==> e.from !in sending)
    ensures SendingInv(log + [e], sending)
  {
    forall a | a in sending
      ensures IsCall(log + [e], sending[a].call, a)
    {
      assert IsCall(log, sending[a].call, a);
    }
    forall a, c: nat | a in sending && IsCall(log + [e], c, a)
      ensures c <= sending[a].call
    {
      assert IsCall(log, c, a);
    }
  }

  lemma OrderGrows(log: seq<Event>, sending: map<nat, Broadcast>, e: Event)
    requires CallsInv(log) && InProgramOrder(log) && SendingInv(log, sending)
    requires e.Accept? ==> e.from in sending && e.call == sending[e.from].call
    ensures InProgramOrder(log + [e])
  {
    forall i | 0 <= i < |log| && e.Accept? && log[i].Accept? && log[i].from == e.from
      ensures log[i].call <= e.call
    {
      assert IsCall(log, log[i].call, e.from);
    }
  }

  /** A log entry that adds nothing to any mailbox but `b`, which did what the entry says. */
  lemma MailGrows(n: Net, e: Event, b: nat, c: ChannelState, handling: map<nat, nat>)
    requires MailInv(n) && b in n.mailboxes && ChannelInv(c)
    requires (e.Accept? ==> e.to == b) && (e.Start? ==> e.at == b)
    requires c.accepted == n.mailboxes[b].accepted + (if e.Accept? then [|n.log|] else [])
    requires c.received == n.mailboxes[b].received + (if e.Start? then [e.msg] else [])
    requires forall a :: a in handling ==>
      (a in n.handling && handling[a] == n.handling[a])
      || (handling[a] < |n.log| && n.log[handling[a]].Accept? && n.log[handling[a]].to == a)
    ensures MailInv(Net(n.mailboxes[b := c], handling, n.sending, n.log + [e]))
  {
    hide AcceptedTo, StartedAt, ChannelInv;
    forall a | a in n.mailboxes
      ensures AcceptedTo(n.log + [e], a) == AcceptedTo(n.log, a) + (if e.Accept? && e.to == a then [|n.log|] else [])
      ensures StartedAt(n.log + [e], a) == StartedAt(n.log, a) + (if e.Start? && e.at == a then [e.msg] else [])
    {
      LogGrows(n.log, e, a);
    }
  }

  lemma BeginKeepsInv(n: Net, a: nat, to: multiset<nat>, n': Net)
    requires NetInv(n) && Steps(n, Begin(a, to), n')
    ensures NetInv(n')
  {
    var e := Call(a, Cause(n, a));
    CallsGrow(n.log, e);
    SendingGrows(n.log, n.sending, e);
    OrderGrows(n.log, n.sending, e);
    CallIsLast(n.log, n.sending, a, e.cause, to);
    MailUntouched(n, e);
    hide CallsInv, SendingInv, InProgramOrder, AcceptedTo, StartedAt, ChannelInv;
  }

  lemma CallIsLast(log: seq<Event>, sending: map<nat, Broadcast>, a: nat, cause: Option<nat>, to: multiset<nat>)
    requires SendingInv(log + [Call(a, cause)], sending)
    ensures SendingInv(log + [Call(a, cause)], sending[a := Broadcast(|log|, to)])
  {
  }

  lemma MailUntouched(n: Net, e: Event)
    requires MailInv(n) && e.Call?
    ensures MailInv(n.(log := n.log + [e]))
  {
    hide AcceptedTo, StartedAt, ChannelInv;
    forall b | b in n.mailboxes
      ensures AcceptedTo(n.log + [e], b) == AcceptedTo(n.log, b) && StartedAt(n.log + [e], b) == StartedAt(n.log, b)
    {
      LogGrows(n.log, e, b);
    }
  }

  lemma AcceptKeepsInv(n: Net, a: nat, b: nat, c: ChannelState, left: Broadcast)
    requires NetInv(n) && a in n.sending && left.call == n.sending[a].call && b in n.mailboxes && ChannelInv(c)
    requires c.accepted == n.mailboxes[b].accepted + [|n.log|] && c.received == n.mailboxes[b].received
    ensures NetInv(Net(n.mailboxes[b := c], n.handling, n.sending[a := left], n.log + [Accept(a, b, left.call)]))
  {
    var e := Accept(a, b, left.call);
    assert IsCall(n.log, left.call, a);
    hide ChannelInv, AcceptedTo, StartedAt, InProgramOrder, SendingInv, CallsInv;
    CallsGrow(n.log, e);
    SendingGrows(n.log, n.sending, e);
    SameCall(n.log + [e], n.sending, a, left);
    OrderGrows(n.log, n.sending, e);
    MailGrows(n, e, b, c, n.handling);
  }

  lemma AttemptKeepsInv(n: Net, a: nat, b: nat, stale: bool, n': Net)
    requires NetInv(n) && Steps(n, Attempt(a, b, stale), n')
    ensures NetInv(n')
  {
    assert ChannelInv(n.mailboxes[b]);
    hide ChannelInv, NetInv;
    StepIsSafe(n.mailboxes[b], Send(|n.log|, stale));
    var (c, r) := Apply(n.mailboxes[b], Send(|n.log|, stale));
    SendFacts(n.mailboxes[b], |n.log|, stale);
    hide Apply, Enabled;
    var left := n.sending[a].(pending := n.sending[a].pending - multiset{b});
    if r == Ok {
      AcceptKeepsInv(n, a, b, c, left);
    } else if r == SendError {
      RefusalKeepsInv(n, a, left);
    }
  }

  lemma SendFacts(c: ChannelState, m: Message, stale: bool)
    requires Enabled(c, Send(m, stale))
    ensures Apply(c, Send(m, stale)).0.received == c.received
  {
  }

  lemma RefusalKeepsInv(n: Net, a: nat, left: Broadcast)
    requires NetInv(n) && a in n.sending && left.call == n.sending[a].call
    ensures NetInv(n.(sending := n.sending[a := left]))
  {
    SameCall(n.log, n.sending, a, left);
    hide CallsInv, SendingInv, InProgramOrder, AcceptedTo, StartedAt, ChannelInv;
  }

  lemma SameCall(log: seq<Event>, sending: map<nat, Broadcast>, a: nat, left: Broadcast)
    requires SendingInv(log, sending) && a in sending && left.call == sending[a].call
    ensures SendingInv(log, sending[a := left])
  {
  }

  lemma ProcessKeepsInv(n: Net, b: nat, missed: bool, n': Net)
    requires NetInv(n) && Steps(n, Process(b, missed), n')
    ensures NetInv(n')
  {
    hide AcceptedTo, StartedAt, ChannelInv;
    StepIsSafe(n.mailboxes[b], Recv(missed));
    var (c, r) := Apply(n.mailboxes[b], Recv(missed));
    if r.Received? {
      AcceptedAre(n.log, b);
      assert r.msg in AcceptedTo(n.log, b);
      var e := Start(b, r.msg);
      CallsGrow(n.log, e);
      SendingGrows(n.log, n.sending, e);
      OrderGrows(n.log, n.sending, e);
      MailGrows(n, e, b, c, n.handling[b := r.msg]);
      hide CallsInv, InProgramOrder, SendingInv;
    }
  }

  /** A step of one mailbox that neither accepts nor hands over a message. */
  lemma QuietKeepsInv(n: Net, b: nat, op: Op, n': Net)
    requires NetInv(n) && b in n.mailboxes && Enabled(n.mailboxes[b], op) && !op.Send? && !op.Recv?
    requires n'.mailboxes == n.mailboxes[b := Apply(n.mailboxes[b], op).0] && n'.log == n.log && n'.sending == n.sending
    requires forall a :: a in n'.handling ==> a in n.handling && n'.handling[a] == n.handling[a]
    ensures NetInv(n')
  {
    StepIsSafe(n.mailboxes[b], op);
    hide CallsInv, SendingInv, InProgramOrder, AcceptedTo, StartedAt, ChannelInv;
  }

  lemma StepKeepsInv(n: Net, o: NetOp, n': Net)
    requires NetInv(n) && Steps(n, o, n')
    ensures NetInv(n') && n.log <= n'.log
  {
    hide CallsInv, InProgramOrder, MailInv, Apply, Enabled;
    match o
    case Begin(a, to) => BeginKeepsInv(n, a, to, n');
    case Attempt(a, b, stale) => AttemptKeepsInv(n, a, b, stale, n');
    case Return(_) => SendingShrinks(n, n');
    case Process(b, missed) => ProcessKeepsInv(n, b, missed, n');
    case Finish(b) => QuietKeepsInv(n, b, Done, n');
    case Admin(b, op) => QuietKeepsInv(n, b, op, n');
  }

  lemma SendingShrinks(n: Net, n': Net)
    requires NetInv(n) && n' == n.(sending := n'.sending)
    requires forall a :: a in n'.sending ==> a in n.sending && n'.sending[a] == n.sending[a]
    ensures NetInv(n')
  {
    hide CallsInv, InProgramOrder, AcceptedTo, StartedAt, ChannelInv;
  }

  ghost predicate Starts(n: Net) {
    n.handling == map[] && n.sending == map[] && n.log == []
    && forall b :: b in n.mailboxes ==> n.mailboxes[b] == NewChannel(n.mailboxes[b].fifo.capacity)
  }

  ghost predicate IsRun(nets: seq<Net>, ops: seq<NetOp>) {
    |nets| == |ops| + 1 && Starts(nets[0]) && forall j :: 0 <= j < |ops| ==> Steps(nets[j], ops[j], nets[j + 1])
  }

  lemma {:induction false} RunKeepsInv(nets: seq<Net>, ops: seq<NetOp>, k: nat)
    requires IsRun(nets, ops) && k < |nets|
    ensures NetInv(nets[k])
  {
    hide Steps;
    if k > 0 {
      RunKeepsInv(nets, ops, k - 1);
      StepKeepsInv(nets[k - 1], ops[k - 1], nets[k]);
    } else {
      assert forall b :: AcceptedTo([], b) == [] && StartedAt([], b) == [];
    }
  }

  // ---------------------------------------------------------------------------------------------------------------
  // Causality
  // ---------------------------------------------------------------------------------------------------------------

  ghost predicate IsMessage(log: seq<Event>, i: nat) { i < |log| && log[i].Accept? }

  /** The message whose handling sent message `j`, if any. */
  ghost function CauseOf(log: seq<Event>, j: nat): Option<nat>
    requires IsMessage(log, j)
  {
    if IsCall(log, log[j].call, log[j].from) then log[log[j].call].cause else None
  }

  /** `j` follows `i` directly: the same sender called for it later, or sent it while handling `i`. */
  ghost predicate Follows(log: seq<Event>, i: nat, j: nat) {
    && IsMessage(log, i) && IsMessage(log, j)
    && ((log[i].from == log[j].from && log[i].call < log[j].call) || CauseOf(log, j) == Some(i))
  }

  /** A chain of messages, each following the one before. */
  ghost predicate Chain(log: seq<Event>, c: seq<nat>) {
    |c| > 0 && IsMessage(log, c[0]) && forall k :: 0 <= k < |c| - 1 ==> Follows(log, c[k], c[k + 1])
  }

  /**
   * What follows in the program, or is caused, is accepted later: a sender blocked by a full mailbox cannot overtake
   * itself.
   */
  lemma FollowsAscends(n: Net, i: nat, j: nat)
    requires NetInv(n) && Follows(n.log, i, j)
    ensures i < j
  {
    hide MailInv, SendingInv;
  }

  lemma {:induction false} ChainAscends(n: Net, c: seq<nat>)
    requires NetInv(n) && Chain(n.log, c)
    ensures c[0] <= c[|c| - 1] && IsMessage(n.log, c[|c| - 1]) && (|c| > 1 ==> c[0] < c[|c| - 1])
    decreases |c|
  {
    hide NetInv, CauseOf;
    if |c| > 1 {
      var d := c[..|c| - 1];
      forall k | 0 <= k < |d| - 1
        ensures Follows(n.log, d[k], d[k + 1])
      {
        assert Follows(n.log, c[k], c[k + 1]);
      }
      ChainAscends(n, d);
      assert Follows(n.log, c[|c| - 2], c[|c| - 1]);
      FollowsAscends(n, c[|c| - 2], c[|c| - 1]);
    }
  }

  lemma {:induction false} StartedHas(log: seq<Event>, b: nat, i: nat) returns (k: nat)
    requires i in StartedAt(log, b)
    ensures k < |log| && log[k] == Start(b, i)
  {
    if i in StartedAt(log[..|log| - 1], b) {
      k := StartedHas(log[..|log| - 1], b, i);
    } else {
      k := |log| - 1;
    }
  }

  lemma {:induction false} StartedPrefix(log: seq<Event>, b: nat, l: nat)
    requires l <= |log|
    ensures StartedAt(log[..l], b) <= StartedAt(log, b)
    decreases |log|
  {
    if l == |log| {
      assert log[..l] == log;
    } else {
      StartedPrefix(log[..|log| - 1], b, l);
      assert log[..|log| - 1][..l] == log[..l];
    }
  }

  /** A model processes its messages in the order they were accepted. */
  lemma ProcessedInOrder(n: Net, b: nat, i: nat, j: nat, l: nat) returns (k: nat)
    requires NetInv(n) && b in n.mailboxes && IsMessage(n.log, i) && n.log[i].to == b && i < j
    requires l < |n.log| && n.log[l] == Start(b, j)
    ensures k < l && n.log[k] == Start(b, i)
  {
    hide NetInv;
    var before, upto := StartedAt(n.log[..l], b), StartedAt(n.log[..l + 1], b);
    assert n.log[..l + 1] == n.log[..l] + [n.log[l]];
    LogGrows(n.log[..l], n.log[l], b);
    assert upto == before + [j];
    StartedPrefix(n.log, b, l + 1);
    ReceivedIsPrefix(n, b);
    AcceptedAre(n.log, b);
    var all := AcceptedTo(n.log, b);
    assert i in all;
    var p :| 0 <= p < |all| && all[p] == i;
    assert all[|before|] == upto[|before|] == j;
    assert p < |before|;
    assert before[p] == upto[p] == all[p];
    k := StartedHas(n.log[..l], b, i);
  }

  lemma ReceivedIsPrefix(n: Net, b: nat)
    requires NetInv(n) && b in n.mailboxes
    ensures StartedAt(n.log, b) <= AcceptedTo(n.log, b)
  {
  }

  /**
   * Causal messaging, for any mailbox capacities and any blocking on full mailboxes: if a chain of messages, each
   * called for later by the same sender or sent while handling the one before, leads from `c[0]` to the last one and
   * both go to model `b`, then `b` processes the first before the last.
   */
  lemma CausalOrder(nets: seq<Net>, ops: seq<NetOp>, k: nat, c: seq<nat>, b: nat, l: nat) returns (first: nat)
    requires IsRun(nets, ops) && k < |nets|
    requires b in nets[k].mailboxes && |c| > 1 && Chain(nets[k].log, c) && nets[k].log[c[0]].to == b
    requires l < |nets[k].log| && nets[k].log[l] == Start(b, c[|c| - 1])
    ensures first < l && nets[k].log[first] == Start(b, c[0])
  {
    RunKeepsInv(nets, ops, k);
    hide NetInv, IsRun;
    ChainAscends(nets[k], c);
    first := ProcessedInOrder(nets[k], b, c[0], c[|c| - 1], l);
  }

  /** The first promise: of two messages from A to B, B processes the one A called for first before the other. */
  lemma OneToOne(nets: seq<Net>, ops: seq<NetOp>, k: nat, b: nat, m1: nat, m2: nat, l: nat) returns (first: nat)
    requires IsRun(nets, ops) && k < |nets| && b in nets[k].mailboxes
    requires IsMessage(nets[k].log, m1) && IsMessage(nets[k].log, m2)
    requires nets[k].log[m1].from == nets[k].log[m2].from && nets[k].log[m1].call < nets[k].log[m2].call
    requires nets[k].log[m1].to == nets[k].log[m2].to == b
    requires l < |nets[k].log| && nets[k].log[l] == Start(b, m2)
    ensures first < l && nets[k].log[first] == Start(b, m1)
  {
    first := CausalOrder(nets, ops, k, [m1, m2], b, l);
  }

  /** The second: A calls for M1 to B, then for M2 to C, and C sends M3 to B while handling M2. */
  lemma Transitivity(nets: seq<Net>, ops: seq<NetOp>, k: nat, b: nat, m1: nat, m2: nat, m3: nat, l: nat)
    returns (first: nat)
    requires IsRun(nets, ops) && k < |nets| && b in nets[k].mailboxes
    requires IsMessage(nets[k].log, m1) && IsMessage(nets[k].log, m2) && IsMessage(nets[k].log, m3)
    requires nets[k].log[m1].from == nets[k].log[m2].from && nets[k].log[m1].call < nets[k].log[m2].call
    requires nets[k].log[m1].to == b && nets[k].log[m3].to == b
    requires nets[k].log[m3].from == nets[k].log[m2].to && CauseOf(nets[k].log, m3) == Some(m2)
    requires l < |nets[k].log| && nets[k].log[l] == Start(b, m3)
    ensures first < l && nets[k].log[first] == Start(b, m1)
  {
    first := CausalOrder(nets, ops, k, [m1, m2, m3], b, l);
  }

  /** A sender that awaits a mailbox makes no further call, and a model that does takes and finishes no message. */
  lemma AwaitingBlocks(n: Net, o: NetOp, n': Net, a: nat)
    requires Steps(n, o, n') && a in n.sending && n.sending[a].pending != multiset{}
    ensures a in n'.sending && n'.sending[a].call == n.sending[a].call
    ensures forall j :: |n.log| <= j < |n'.log| ==> !IsCall(n'.log, j, a) && !(n'.log[j].Start? && n'.log[j].at == a)
    ensures (a in n.handling <==> a in n'.handling) && (a in n.handling ==> n'.handling[a] == n.handling[a])
  {
  }

  /** Step `j` of a run has model `a` start on message `m`. */
  ghost predicate StartsOn(nets: seq<Net>, j: nat, a: nat, m: nat) {
    j + 1 < |nets| && nets[j + 1].log == nets[j].log + [Start(a, m)]
  }

  lemma StepHandling(n: Net, o: NetOp, n': Net, a: nat)
    requires Steps(n, o, n')
    ensures a in n.handling && o != Finish(a) ==> a in n'.handling && n'.handling[a] == n.handling[a]
    ensures a in n'.handling && a !in n.handling ==> n'.log == n.log + [Start(a, n'.handling[a])]
    ensures forall m :: n'.log == n.log + [Start(a, m)] ==> a in n'.handling && n'.handling[a] == m
    ensures o == Finish(a) ==> a !in n'.handling
  {
    hide Apply, Enabled;
    forall m | n'.log == n.log + [Start(a, m)]
      ensures a in n'.handling && n'.handling[a] == m
    {
      assert n'.log[|n.log|] == Start(a, m);
    }
  }

  lemma {:induction false} GoesOnHandling(nets: seq<Net>, ops: seq<NetOp>, j: nat, k: nat, a: nat, m: nat)
    requires IsRun(nets, ops) && j < k < |nets| && StartsOn(nets, j, a, m)
    requires forall i :: j < i < k ==> ops[i] != Finish(a)
    ensures a in nets[k].handling && nets[k].handling[a] == m
  {
    hide Steps;
    StepHandling(nets[k - 1], ops[k - 1], nets[k], a);
    if j < k - 1 {
      GoesOnHandling(nets, ops, j, k - 1, a, m);
    }
  }

  /** A call made while handling a message, started on and not finished since, is caused by exactly that message. */
  lemma CauseIsHandled(nets: seq<Net>, ops: seq<NetOp>, j: nat, k: nat, a: nat, m: nat)
    requires IsRun(nets, ops) && j < k < |ops| && StartsOn(nets, j, a, m) && ops[k].Begin? && ops[k].from == a
    requires forall i :: j < i < k ==> ops[i] != Finish(a)
    ensures nets[k + 1].log == nets[k].log + [Call(a, Some(m))]
  {
    GoesOnHandling(nets, ops, j, k, a, m);
    assert Steps(nets[k], ops[k], nets[k + 1]);
  }

  lemma {:induction false} HandlingStarted(nets: seq<Net>, ops: seq<NetOp>, k: nat, a: nat) returns (j: nat)
    requires IsRun(nets, ops) && k < |nets| && a in nets[k].handling
    ensures j < k && StartsOn(nets, j, a, nets[k].handling[a])
    ensures forall i :: j < i < k ==> ops[i] != Finish(a)
  {
    hide Steps;
    StepHandling(nets[k - 1], ops[k - 1], nets[k], a);
    if a in nets[k - 1].handling {
      j := HandlingStarted(nets, ops, k - 1, a);
    } else {
      j := k - 1;
    }
  }

  /** And only such a call has a cause. */
  lemma CausedWhileHandling(nets: seq<Net>, ops: seq<NetOp>, k: nat, a: nat, m: nat) returns (j: nat)
    requires IsRun(nets, ops) && k < |ops| && nets[k + 1].log == nets[k].log + [Call(a, Some(m))]
    ensures j < k && StartsOn(nets, j, a, m) && forall i :: j < i < k ==> ops[i] != Finish(a)
  {
    assert Steps(nets[k], ops[k], nets[k + 1]);
    CallIsCaused(nets[k], ops[k], nets[k + 1], a, m);
    hide Steps;
    j := HandlingStarted(nets, ops, k, a);
  }

  lemma CallIsCaused(n: Net, o: NetOp, n': Net, a: nat, m: nat)
    requires Steps(n, o, n') && n'.log == n.log + [Call(a, Some(m))]
    ensures a in n.handling && n.handling[a] == m
  {
    hide Apply, Enabled;
    assert n'.log[|n.log|] == Call(a, Some(m));
  }

  /** An open mailbox with room takes the message of a sender that awaits it. */
  lemma OpenMailboxAccepts(n: Net, a: nat, b: nat) returns (n': Net)
    requires a in n.sending && b in n.sending[a].pending && b in n.mailboxes
    requires 0 < n.mailboxes[b].senderCount && !n.mailboxes[b].fifo.closed
    requires n.mailboxes[b].fifo.Occupied() < n.mailboxes[b].fifo.capacity
    ensures Steps(n, Attempt(a, b, false), n') && n'.log == n.log + [Accept(a, b, n.sending[a].call)]
    ensures n'.sending[a].pending == n.sending[a].pending - multiset{b}
    ensures n'.mailboxes[b].fifo.contents == n.mailboxes[b].fifo.contents + [|n.log|]
  {
    var (c, r) := Apply(n.mailboxes[b], Send(|n.log|, false));
    n' := Served(n, a, b, r, c);
  }

  /** A closed one refuses it for good, and the sender no longer awaits it. */
  lemma ClosedMailboxRefuses(n: Net, a: nat, b: nat) returns (n': Net)
    requires a in n.sending && b in n.sending[a].pending && b in n.mailboxes
    requires 0 < n.mailboxes[b].senderCount && n.mailboxes[b].fifo.closed
    ensures Steps(n, Attempt(a, b, false), n') && n'.log == n.log && n'.mailboxes == n.mailboxes
    ensures n'.sending[a].pending == n.sending[a].pending - multiset{b}
  {
    var (c, r) := Apply(n.mailboxes[b], Send(|n.log|, false));
    n' := Served(n, a, b, r, c);
  }

  /** A model that is neither handling a message nor awaiting a mailbox starts on the oldest message it has. */
  lemma IdleModelProcesses(n: Net, b: nat) returns (n': Net)
    requires b in n.mailboxes && b !in n.handling && b !in n.sending
    requires !n.mailboxes[b].receiverGone && !n.mailboxes[b].fifo.held && n.mailboxes[b].fifo.contents != []
    ensures Steps(n, Process(b, false), n')
    ensures var m := n.mailboxes[b].fifo.contents[0];
      n'.log == n.log + [Start(b, m)] && n'.handling == n.handling[b := m]
  {
    var (c, r) := Apply(n.mailboxes[b], Recv(false));
    n' := n.(mailboxes := n.mailboxes[b := c], handling := n.handling[b := r.msg], log := n.log + [Start(b, r.msg)]);
  }
}
