/**
 * Bytes, new shards and repeated shards of the video stream are neither lost nor counted twice between the socket and
 * its reader.
 */
module Accounting {
  import opened Bytes
  import opened Sharding
  import opened SerialOrder
  import opened Reassembly
  import opened SocketRuns
  import opened StreamSocket
  import opened Delivery

  datatype Totals = Totals(bytes: nat, unseen: nat, repeated: nat) {
    function Plus(t: Totals): Totals { Totals(bytes + t.bytes, unseen + t.unseen, repeated + t.repeated) }
  }

  function Weigh(c: Counters): Totals { Totals(c.rxBytes, c.newShards, c.duplicateShards) }

  const NOTHING := Totals(0, 0, 0)

  function WeighQueue(q: seq<ReconstructedPacket>): Totals {
    if q == [] then NOTHING else WeighQueue(q[..|q| - 1]).Plus(Weigh(q[|q| - 1].counters))
  }

  /** Equal as 32-bit counters. */
  predicate Same(a: Totals, b: Totals) {
    && (a.bytes - b.bytes) % U32_MODULUS == 0
    && (a.unseen - b.unseen) % U32_MODULUS == 0 && (a.repeated - b.repeated) % U32_MODULUS == 0
  }

  /**
   * The socket, the header it has read but not used, its video counters and the reader of the video stream. The rest
   * is history: what was reported to the application, what earlier readers were left with, what was received, and the
   * packets the reader took and the frames it delivered.
   */
  datatype System = System(
    socket: SocketState, pending: Option<Header>, stats: VideoStats, receiver: ReceiverState,
    reported: Totals, retired: Totals, received: Totals, taken: seq<ReconstructedPacket>, delivered: seq<ReceiverData>)
  {
    function Queue(): seq<ReconstructedPacket> {
      if VIDEO_STREAM in socket.streams then socket.streams[VIDEO_STREAM].packetQueue else []
    }

    /** Everything counted so far and where it is now. */
    function Held(): Totals {
      reported.Plus(retired).Plus(Weigh(receiver.pending)).Plus(WeighQueue(Queue())).Plus(Weigh(stats.counters))
    }
  }

  datatype Move =
    | Stall(h: Header)  // a shard of a stream nobody subscribed to yet: it stays first in line
    | Receive(e: Event) // a shard of a subscribed stream
    | Poll              // the reader takes a packet
    | Renew(e: Event)   // a subscription to the video stream: a new reader with a queue of its own
    | Other(e: Event)

  predicate IsOther(e: Event) {
    !e.Arrival? && ((e.Take? || e.Subscribe?) ==> e.streamId != VIDEO_STREAM)
  }

  /** The shard is on record. */
  predicate OnRecord(stats: VideoStats, h: Header) {
    h.packetIndex in stats.seen && h.shardIndex in stats.seen[h.packetIndex]
  }

  /** A shard received: its bytes, and one more shard, repeated if it was on record and new if not. */
  function Count(t: Totals, h: Header, onRecord: bool): Totals {
    t.Plus(if onRecord then Totals(h.shardLength, 0, 1) else Totals(h.shardLength, 1, 0))
  }

  /** The header of a shard that a sender of `frames` sent. */
  ghost function Announced(frames: Frames, stride: nat, tag: FrameTag, i: nat): Header
    requires 0 < stride && FromFrames(frames, stride, tag, i)
  {
    var total := |frames[tag.streamId][tag.packetIndex]|;
    ShardInRange(total, stride, i);
    Header(ShardLength(total, stride, i), tag.streamId, tag.packetIndex, ShardCount(total, stride), i, tag.stamp)
  }

  /** What was received once the shard first in line has been looked at: each video shard is received once. */
  function Seen(s: System, h: Header): Totals {
    if s.pending.None? && h.streamId == VIDEO_STREAM then Count(s.received, h, OnRecord(s.stats, h)) else s.received
  }

  ghost predicate Moves(frames: Frames, stride: nat, s: System, m: Move, s': System)
    requires 0 < stride
  {
    match m
    case Stall(h) =>
      && h.streamId !in s.socket.streams && (s.pending.None? || s.pending == Some(h))
      && s' == s.(pending := Some(h), stats := Counted(s.stats, s.pending, h.streamId, h), received := Seen(s, h))
    case Receive(e) =>
      && e.Arrival? && FromFrames(frames, stride, e.tag, e.shardIndex)
      && var h := Announced(frames, stride, e.tag, e.shardIndex);
         var stats := Counted(s.stats, s.pending, h.streamId, h);
         && (s.pending.None? || s.pending == Some(h))
         && e.counters == stats.counters
         && Step(frames, stride, s.socket, e, s'.socket)
         && s' == s.(socket := s'.socket, pending := None, received := Seen(s, h),
                     stats := StatsAfter(stats, e.tag, |s.Queue()| < |s'.Queue()|))
    case Poll =>
      && Step(frames, stride, s.socket, Take(VIDEO_STREAM), s'.socket)
      && s.Queue() != []
      && var (r, d) := Accepts(s.receiver, s.Queue()[0]);
         s' == s.(socket := s'.socket, receiver := r, taken := s.taken + [s.Queue()[0]],
                  delivered := s.delivered + (if d.Some? then [d.value] else []),
                  reported := if d.Some? then s.reported.Plus(Weigh(d.value.counters)) else s.reported)
    case Renew(e) =>
      && e.Subscribe? && e.streamId == VIDEO_STREAM && Step(frames, stride, s.socket, e, s'.socket)
      && s' == s.(socket := s'.socket, receiver := FRESH, taken := [], delivered := [],
                  retired := s.retired.Plus(Weigh(s.receiver.pending)).Plus(WeighQueue(s.Queue())))
    case Other(e) =>
      IsOther(e) && Step(frames, stride, s.socket, e, s'.socket) && s' == s.(socket := s'.socket)
  }

  lemma WeighAppend(q: seq<ReconstructedPacket>, p: ReconstructedPacket)
    ensures WeighQueue(q + [p]) == WeighQueue(q).Plus(Weigh(p.counters))
  {
    assert (q + [p])[..|q|] == q;
  }

  lemma {:induction false} WeighFirst(q: seq<ReconstructedPacket>)
    requires q != []
    ensures WeighQueue(q) == Weigh(q[0].counters).Plus(WeighQueue(q[1..]))
    decreases |q|
  {
    if |q| == 1 {
      assert q[..0] == [] && q[1..] == [];
    } else {
      WeighFirst(q[..|q| - 1]);
      assert q[..|q| - 1][1..] == q[1..][..|q| - 2];
    }
  }

  /** Counting a shard adds exactly it: its bytes, and one shard, a duplicate exactly if it was on record. */
  lemma RecordedWeighs(stats: VideoStats, h: Header)
    ensures Same(Weigh(Recorded(stats, h).counters), Count(Weigh(stats.counters), h, OnRecord(stats, h)))
  {
    hide WrappingAdd;
    Wrapped(stats.counters.rxBytes, h.shardLength);
    Wrapped(stats.counters.newShards, 1);
    Wrapped(stats.counters.duplicateShards, 1);
  }

  lemma AddWeighs(a: Counters, b: Counters)
    ensures Same(Weigh(AddCounters(a, b)), Weigh(a).Plus(Weigh(b)))
  {
    hide WrappingAdd;
    Wrapped(a.rxBytes, b.rxBytes);
    Wrapped(a.newShards, b.newShards);
    Wrapped(a.duplicateShards, b.duplicateShards);
  }

  lemma Wrapped(a: nat, b: nat)
    ensures (WrappingAdd(a, b) - (a + b)) % U32_MODULUS == 0
  {
  }

  lemma SumOfMultiples(x: int, y: int)
    requires x % U32_MODULUS == 0 && y % U32_MODULUS == 0
    ensures (x + y) % U32_MODULUS == 0
  {
  }

  lemma SameChange(a: Totals, b: Totals, a': Totals, b': Totals, x: Totals, y: Totals)
    requires Same(a, b) && Same(x, y)
    requires a'.bytes - a.bytes == x.bytes - y.bytes + (b'.bytes - b.bytes)
    requires a'.unseen - a.unseen == x.unseen - y.unseen + (b'.unseen - b.unseen)
    requires a'.repeated - a.repeated == x.repeated - y.repeated + (b'.repeated - b.repeated)
    ensures Same(a', b')
  {
    SumOfMultiples(a.bytes - b.bytes, x.bytes - y.bytes);
    SumOfMultiples(a.unseen - b.unseen, x.unseen - y.unseen);
    SumOfMultiples(a.repeated - b.repeated, x.repeated - y.repeated);
  }

  /** A queued video packet carries the counters of the moment. */
  lemma ArrivalQueues(frames: Frames, stride: nat, s: SocketState, e: Event, s': SocketState)
    requires 0 < stride && e.Arrival? && Step(frames, stride, s, e, s')
    ensures s'.streams.Keys == s.streams.Keys
    ensures forall sid :: sid in s.streams && sid != e.tag.streamId ==>
              s'.streams[sid].packetQueue == s.streams[sid].packetQueue
    ensures e.tag.streamId in s.streams
    ensures var q, q' := s.streams[e.tag.streamId].packetQueue, s'.streams[e.tag.streamId].packetQueue;
            q' == q || (|q'| == |q| + 1 && q' == q + [q'[|q|]] && q'[|q|].counters == e.counters)
  {
    hide Shard, ShardCount, Store, Opened;
    var mid :| ArrivalStep(s, frames, stride, e, mid) && SweepStep(mid, e.now, s');
  }

  ghost predicate Balanced(s: System) {
    Same(s.Held(), s.received)
  }

  lemma CountingBalances(s: System, h: Header)
    requires Balanced(s)
    ensures Balanced(s.(stats := Counted(s.stats, s.pending, h.streamId, h), received := Seen(s, h)))
  {
    hide Same, Recorded;
    if s.pending.None? && h.streamId == VIDEO_STREAM {
      var s' := s.(stats := Recorded(s.stats, h), received := Count(s.received, h, OnRecord(s.stats, h)));
      RecordedWeighs(s.stats, h);
      SameChange(s.Held(), s.received, s'.Held(), s'.received, Weigh(s'.stats.counters),
                 Count(Weigh(s.stats.counters), h, OnRecord(s.stats, h)));
    }
  }

  lemma QueueingBalances(s: System, s': System, e: Event, completed: bool)
    requires Balanced(s) && e.Arrival? && e.counters == s.stats.counters
    requires completed == (|s.Queue()| < |s'.Queue()|)
    requires s' == s.(socket := s'.socket, stats := StatsAfter(s.stats, e.tag, completed))
    requires s'.Queue() == s.Queue()
          || (e.tag.streamId == VIDEO_STREAM && |s'.Queue()| == |s.Queue()| + 1
              && s'.Queue() == s.Queue() + [s'.Queue()[|s.Queue()|]] && s'.Queue()[|s.Queue()|].counters == e.counters)
    ensures Balanced(s')
  {
    hide Same;
    if s'.Queue() != s.Queue() {
      WeighAppend(s.Queue(), s'.Queue()[|s.Queue()|]);
    }
    assert s'.Held() == s.Held();
  }

  lemma ReceivingBalances(frames: Frames, stride: nat, s: System, m: Move, s': System)
    requires 0 < stride && Balanced(s) && m.Receive? && Moves(frames, stride, s, m, s')
    ensures Balanced(s')
  {
    hide Step, Same, Counted, Seen, Announced;
    ArrivalQueues(frames, stride, s.socket, m.e, s'.socket);
    var h := Announced(frames, stride, m.e.tag, m.e.shardIndex);
    CountingBalances(s, h);
    var counted := s.(stats := Counted(s.stats, s.pending, h.streamId, h), received := Seen(s, h), pending := None);
    QueueingBalances(counted, s', m.e, |s.Queue()| < |s'.Queue()|);
  }

  lemma PollingBalances(frames: Frames, stride: nat, s: System, s': System)
    requires 0 < stride && Balanced(s) && Moves(frames, stride, s, Poll, s')
    ensures Balanced(s')
  {
    hide Same, AddCounters, Stale, Skipped;
    var p := s.Queue()[0];
    assert s'.Queue() == s.Queue()[1..];
    WeighFirst(s.Queue());
    AddWeighs(s.receiver.pending, p.counters);
    SameChange(s.Held(), s.received, s'.Held(), s'.received,
               Weigh(AddCounters(s.receiver.pending, p.counters)), Weigh(s.receiver.pending).Plus(Weigh(p.counters)));
  }

  lemma RenewingBalances(frames: Frames, stride: nat, s: System, m: Move, s': System)
    requires 0 < stride && Balanced(s) && m.Renew? && Moves(frames, stride, s, m, s')
    ensures Balanced(s')
  {
    hide Same, WeighQueue, Weigh;
    assert s'.Queue() == [];
    RenewedHolds(s, s');
  }

  lemma RenewedHolds(s: System, s': System)
    requires s'.Queue() == [] && s'.receiver == FRESH && s'.stats == s.stats && s'.reported == s.reported
    requires s'.retired == s.retired.Plus(Weigh(s.receiver.pending)).Plus(WeighQueue(s.Queue()))
    ensures s'.Held() == s.Held()
  {
    var queue, pending := s'.Queue(), s'.receiver.pending;
    EmptyWeighsNothing(queue, pending);
    var zero := WeighQueue(queue);
    hide WeighQueue, Weigh;
    Handed(s.reported, s.retired, Weigh(s.receiver.pending), WeighQueue(s.Queue()), Weigh(s.stats.counters), zero);
  }

  lemma Handed(reported: Totals, retired: Totals, pending: Totals, queue: Totals, counters: Totals, zero: Totals)
    requires zero.bytes == zero.unseen == zero.repeated == 0
    ensures reported.Plus(retired.Plus(pending).Plus(queue)).Plus(zero).Plus(zero).Plus(counters)
         == reported.Plus(retired).Plus(pending).Plus(queue).Plus(counters)
  {
  }

  /**
   * Conservation of every run: what delivered frames reported, plus what earlier readers were left with, plus what
   * the reader holds back, plus what queued packets carry, plus the socket's running counters, is what was received,
   * in bytes, in new shards and in repeated ones, modulo 2^32.
   */
  lemma MoveBalances(frames: Frames, stride: nat, s: System, m: Move, s': System)
    requires 0 < stride && Balanced(s) && Moves(frames, stride, s, m, s')
    ensures Balanced(s')
  {
    match m
    case Stall(h) => CountingBalances(s, h);
    case Receive(_) => ReceivingBalances(frames, stride, s, m, s');
    case Poll => PollingBalances(frames, stride, s, s');
    case Renew(_) => RenewingBalances(frames, stride, s, m, s');
    case Other(e) => OtherKeepsQueue(frames, stride, s.socket, e, s'.socket);
  }

  lemma OtherKeepsQueue(frames: Frames, stride: nat, s: SocketState, e: Event, s': SocketState)
    requires 0 < stride && IsOther(e) && Step(frames, stride, s, e, s')
    ensures (if VIDEO_STREAM in s'.streams then s'.streams[VIDEO_STREAM].packetQueue else [])
         == (if VIDEO_STREAM in s.streams then s.streams[VIDEO_STREAM].packetQueue else [])
  {
  }

  ghost predicate Starts(s: System) {
    && s.socket == EMPTY_SOCKET && s.pending == None
    && s.stats == VideoStats(map[], NO_COUNTS)
    && s.receiver == FRESH
    && s.reported == s.retired == s.received == NOTHING
    && s.taken == [] && s.delivered == []
  }

  ghost predicate IsSystemRun(frames: Frames, stride: nat, systems: seq<System>, moves: seq<Move>)
    requires 0 < stride
  {
    && |systems| == |moves| + 1 && Starts(systems[0])
    && forall j :: 0 <= j < |moves| ==> Moves(frames, stride, systems[j], moves[j], systems[j + 1])
  }

  lemma {:induction false} EveryRunBalances(frames: Frames, stride: nat, systems: seq<System>, moves: seq<Move>, k: nat)
    requires 0 < stride && IsSystemRun(frames, stride, systems, moves) && k < |systems|
    ensures Balanced(systems[k])
  {
    hide Balanced, Moves;
    if k > 0 {
      EveryRunBalances(frames, stride, systems, moves, k - 1);
      MoveBalances(frames, stride, systems[k - 1], moves[k - 1], systems[k]);
    } else {
      StartBalances(systems[0]);
    }
  }

  lemma StartBalances(s: System)
    requires Starts(s)
    ensures Balanced(s)
  {
    NothingHeld(s);
    SameAsItself(s.received);
    hide Same;
  }

  lemma SameAsItself(t: Totals)
    ensures Same(t, t)
  {
    assert t.bytes - t.bytes == 0 && t.unseen - t.unseen == 0 && t.repeated - t.repeated == 0;
  }

  lemma NothingHeld(s: System)
    requires Starts(s)
    ensures s.Held() == s.received
  {
    var queue, counters, pending := s.Queue(), s.stats.counters, s.receiver.pending;
    EmptyWeighsNothing(queue, counters);
    EmptyWeighsNothing(queue, pending);
    var zero := WeighQueue(queue);
    assert s.reported == s.received && s.retired.bytes == s.retired.unseen == s.retired.repeated == 0;
    hide WeighQueue, Weigh, Starts;
    assert s.Held() == s.reported.Plus(s.retired).Plus(zero).Plus(zero).Plus(zero);
  }

  lemma EmptyWeighsNothing(queue: seq<ReconstructedPacket>, c: Counters)
    requires queue == [] && c.rxBytes == c.newShards == c.duplicateShards == 0
    ensures Weigh(c) == WeighQueue(queue)
    ensures WeighQueue(queue).bytes == WeighQueue(queue).unseen == WeighQueue(queue).repeated == 0
  {
    EmptyQueue(queue);
    hide WeighQueue;
  }

  lemma EmptyQueue(queue: seq<ReconstructedPacket>)
    requires queue == []
    ensures WeighQueue(queue) == NOTHING
  {
  }

  /** As long as nothing overflows 32 bits, the balance is exact. */
  lemma ExactBelowOverflow(a: Totals, b: Totals)
    requires Same(a, b)
    requires a.bytes < U32_MODULUS && b.bytes < U32_MODULUS && a.unseen < U32_MODULUS && b.unseen < U32_MODULUS
    requires a.repeated < U32_MODULUS && b.repeated < U32_MODULUS
    ensures a == b
  {
  }
}
