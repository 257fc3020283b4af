/** The receiving side of one stream: shards, in any order, are written into one recycled buffer per frame. */
module Reassembly {
  import opened Bytes
  import opened Sharding
  import opened SerialOrder

  datatype InProgressPacket = InProgressPacket(
    buffer: seq<Byte>,
    bufferLength: nat,
    received: set<nat>,
    deadline: Option<int>,
    expected: nat)

  /** Bytes and shards counted since the counters were last handed over. */
  datatype Counters = Counters(rxBytes: nat, newShards: nat, duplicateShards: nat)

  datatype ReconstructedPacket = ReconstructedPacket(index: nat, buffer: seq<Byte>, size: nat, counters: Counters)

  datatype StreamComponents = StreamComponents(
    pool: seq<seq<Byte>>,
    packetQueue: seq<ReconstructedPacket>,
    inProgress: map<nat, InProgressPacket>)

  function Max(a: nat, b: nat): nat { if a <= b then b else a }

  /** `Vec::resize` with zeros, never shrinking. */
  function GrownTo(buffer: seq<Byte>, n: nat): (r: seq<Byte>)
    ensures |r| == Max(|buffer|, n)
    ensures buffer <= r
  {
    if |buffer| < n then buffer + seq(n - |buffer|, _ => 0) else buffer
  }

  /**
   * Reads a whole shard, prefix included, at `start`, then puts back the bytes that the prefix overwrote: only the
   * payload of the shard is new.
   */
  function ReadInto(buffer: seq<Byte>, start: nat, shard: seq<Byte>): (r: seq<Byte>)
    requires SHARD_PREFIX_SIZE <= |shard| && start + |shard| <= |buffer|
    ensures |r| == |buffer|
    ensures forall k :: 0 <= k < |r| ==>
              r[k] == if start + SHARD_PREFIX_SIZE <= k < start + |shard| then shard[k - start] else buffer[k]
  {
    var backup := buffer[start..start + SHARD_PREFIX_SIZE];
    var filled := buffer[..start] + shard + buffer[start + |shard|..];
    filled[..start] + backup + filled[start + SHARD_PREFIX_SIZE..]
  }

  function Store(e: InProgressPacket, shardIndex: nat, shard: seq<Byte>, stride: nat): InProgressPacket
    requires SHARD_PREFIX_SIZE <= |shard|
  {
    var start := Start(shardIndex, stride);
    var bufferLength := Max(e.bufferLength, start + |shard|);
    e.(bufferLength := bufferLength,
       buffer := ReadInto(GrownTo(e.buffer, bufferLength), start, shard),
       received := e.received + {shardIndex})
  }

  /** The first fallback for a buffer takes over a frame more than five behind the arriving one. */
  predicate Recyclable(idx: nat, packetIndex: nat) {
    WrappingCmp(idx, WrappingSub(packetIndex, 5)) == Less
  }

  /** On unbounded frame numbers close enough together: exactly a frame more than five behind is recyclable. */
  lemma RecyclableExactly(number: nat, arriving: nat)
    requires 5 <= arriving && -0x8000_0001 <= number - (arriving - 5) <= 0x7FFF_FFFE
    ensures Recyclable(number % U32_MODULUS, arriving % U32_MODULUS) <==> number + 5 < arriving
  {
    assert WrappingSub(arriving % U32_MODULUS, 5) == (arriving - 5) % U32_MODULUS;
    AgreesWithIntegers(number, arriving - 5);
  }

  /** `victim` is an entry that a search of the in-progress table for a recyclable frame may return. */
  predicate LegalVictim(c: StreamComponents, packetIndex: nat, victim: Option<nat>) {
    match victim
    case Some(v) => v in c.inProgress && Recyclable(v, packetIndex)
    case None => forall idx :: idx in c.inProgress ==> !Recyclable(idx, packetIndex)
  }

  /** Makes sure the frame has an in-progress entry: pool first, then a recyclable frame, then a new buffer. */
  function Opened(c: StreamComponents, packetIndex: nat, expected: nat, deadline: Option<int>,
                  victim: Option<nat>): (r: StreamComponents)
    requires LegalVictim(c, packetIndex, victim)
    ensures packetIndex in r.inProgress && r.packetQueue == c.packetQueue
  {
    if packetIndex in c.inProgress then c else
    var entry := InProgressPacket([], 0, {}, deadline, expected);
    if c.pool != [] then
      c.(pool := c.pool[1..], inProgress := c.inProgress[packetIndex := entry.(buffer := c.pool[0])])
    else if victim.Some? then
      var buffer := c.inProgress[victim.value].buffer;
      c.(inProgress := (c.inProgress - {victim.value})[packetIndex := entry.(buffer := buffer)])
    else
      c.(inProgress := c.inProgress[packetIndex := entry])
  }

  /** Queues the frame when all its shards are there and gives the pool an empty buffer in exchange. */
  function Finished(c: StreamComponents, packetIndex: nat, shardsCount: nat, counters: Counters): StreamComponents
    requires packetIndex in c.inProgress
  {
    var e := c.inProgress[packetIndex];
    if |e.received| == shardsCount then
      StreamComponents(
        c.pool + [[]],
        c.packetQueue + [ReconstructedPacket(packetIndex, e.buffer, e.bufferLength, counters)],
        c.inProgress - {packetIndex})
    else c
  }

  /** The whole effect of a shard on its stream. */
  function Arrive(c: StreamComponents, h: Header, shard: seq<Byte>, stride: nat, deadline: Option<int>,
                  victim: Option<nat>, counters: Counters): StreamComponents
    requires SHARD_PREFIX_SIZE <= |shard|
    requires LegalVictim(c, h.packetIndex, victim)
  {
    var begun := Opened(c, h.packetIndex, h.shardsCount, deadline, victim);
    var e := Store(begun.inProgress[h.packetIndex], h.shardIndex, shard, stride);
    Finished(begun.(inProgress := begun.inProgress[h.packetIndex := e]), h.packetIndex, h.shardsCount, counters)
  }

  predicate Expired(e: InProgressPacket, now: int) {
    e.deadline.Some? && e.deadline.value <= now
  }

  function Empties(n: nat): (s: seq<seq<Byte>>)
    ensures |s| == n
  {
    seq(n, _ => [])
  }

  /** Keys of the frames a sweep gives up on. */
  function ExpiredKeys(c: StreamComponents, now: int): set<nat> {
    set idx | idx in c.inProgress && Expired(c.inProgress[idx], now)
  }

  function RecycledKeys(c: StreamComponents, now: int): set<nat> {
    set idx | idx in ExpiredKeys(c, now) && c.inProgress[idx].buffer != []
  }

  function Swept(c: StreamComponents, now: int): StreamComponents {
    c.(inProgress := c.inProgress - ExpiredKeys(c, now), pool := c.pool + Empties(|RecycledKeys(c, now)|))
  }

  // ---------------------------------------------------------------------------------------------------------------
  // What an entry knows about its frame
  // ---------------------------------------------------------------------------------------------------------------

  /** The frame's own bytes are where shard `i` carries them. */
  ghost predicate PieceHeld(buffer: seq<Byte>, frame: seq<Byte>, stride: nat, i: nat) {
    var end := ShardEnd(|frame|, stride, i);
    end <= |buffer| && forall k :: Start(i, stride) + SHARD_PREFIX_SIZE <= k < end ==> buffer[k] == frame[k]
  }

  ghost predicate AllPiecesHeld(e: InProgressPacket, frame: seq<Byte>, stride: nat)
    requires 0 < stride
  {
    forall i :: i in e.received ==>
      i < ShardCount(|frame|, stride) && PieceHeld(e.buffer, frame, stride, i)
      && ShardEnd(|frame|, stride, i) <= e.bufferLength
  }

  ghost predicate LengthWitnessed(e: InProgressPacket, frame: seq<Byte>, stride: nat) {
    exists i :: i in e.received && ShardEnd(|frame|, stride, i) == e.bufferLength
  }

  /** Every received shard's region already holds the right payload, whatever the buffer held before. */
  ghost predicate Holds(e: InProgressPacket, frame: seq<Byte>, stride: nat)
    requires 0 < stride
  {
    && e.expected == ShardCount(|frame|, stride)
    && e.bufferLength <= |e.buffer|
    && AllPiecesHeld(e, frame, stride)
    && (e.received != {} ==> LengthWitnessed(e, frame, stride))
    && (e.received == {} ==> e.bufferLength == 0)
  }

  /** What `Holds` says, and some but not all of the shards are there. */
  ghost predicate Open(e: InProgressPacket, frame: seq<Byte>, stride: nat)
    requires 0 < stride
  {
    Holds(e, frame, stride) && 1 <= |e.received| < e.expected
  }

  /** The packet is the sender's frame: same size, same bytes after the prefix. */
  ghost predicate Faithful(p: ReconstructedPacket, frame: seq<Byte>) {
    && p.size == |frame|
    && SHARD_PREFIX_SIZE <= p.size <= |p.buffer|
    && p.buffer[SHARD_PREFIX_SIZE..p.size] == frame[SHARD_PREFIX_SIZE..]
  }

  lemma ShardStaysInRegion(tag: FrameTag, frame: seq<Byte>, stride: nat, i: nat)
    requires tag.Valid() && 0 < stride && i < ShardCount(|frame|, stride)
    ensures var shard := Shard(tag, frame, stride, i);
            && SHARD_PREFIX_SIZE < |shard|
            && Start(i, stride) + |shard| == ShardEnd(|frame|, stride, i) <= |frame|
            && forall k :: Start(i, stride) + SHARD_PREFIX_SIZE <= k < Start(i, stride) + |shard| ==>
                 shard[k - Start(i, stride)] == frame[k]
  {
    hide Start, ShardCount, Shard;
    ShardInRange(|frame|, stride, i);
    ShardBody(tag, frame, stride, i);
    var shard := Shard(tag, frame, stride, i);
    var body := shard[SHARD_PREFIX_SIZE..];
    var start := Start(i, stride);
    forall k | start + SHARD_PREFIX_SIZE <= k < start + |shard|
      ensures shard[k - start] == frame[k]
    {
      assert shard[k - start] == body[k - start - SHARD_PREFIX_SIZE];
    }
  }

  /** Storing one of the frame's shards keeps every piece already held and adds its own. */
  lemma StoreHolds(e: InProgressPacket, tag: FrameTag, frame: seq<Byte>, stride: nat, i: nat)
    requires tag.Valid() && 0 < stride && i < ShardCount(|frame|, stride)
    requires Holds(e, frame, stride)
    ensures |Shard(tag, frame, stride, i)| >= SHARD_PREFIX_SIZE
    ensures Holds(Store(e, i, Shard(tag, frame, stride, i), stride), frame, stride)
  {
    hide Start, ShardCount, Shard, ReadInto, GrownTo;
    ShardStaysInRegion(tag, frame, stride, i);
    var shard := Shard(tag, frame, stride, i);
    var r := Store(e, i, shard, stride);
    StorePieces(e, frame, stride, i, shard);
    if e.bufferLength <= Start(i, stride) + |shard| {
      assert i in r.received && ShardEnd(|frame|, stride, i) == r.bufferLength;
    } else {
      var j :| j in e.received && ShardEnd(|frame|, stride, j) == e.bufferLength;
      assert j in r.received && ShardEnd(|frame|, stride, j) == r.bufferLength;
    }
  }

  lemma StorePieces(e: InProgressPacket, frame: seq<Byte>, stride: nat, i: nat, shard: seq<Byte>)
    requires 0 < stride && i < ShardCount(|frame|, stride)
    requires AllPiecesHeld(e, frame, stride)
    requires SHARD_PREFIX_SIZE <= |shard| && Start(i, stride) + |shard| == ShardEnd(|frame|, stride, i) <= |frame|
    requires forall k :: Start(i, stride) + SHARD_PREFIX_SIZE <= k < Start(i, stride) + |shard| ==>
               shard[k - Start(i, stride)] == frame[k]
    ensures AllPiecesHeld(Store(e, i, shard, stride), frame, stride)
  {
    hide Start, ShardCount;
    var r := Store(e, i, shard, stride);
    forall j | j in r.received
      ensures PieceHeld(r.buffer, frame, stride, j)
    {
      if j in e.received {
        assert PieceHeld(e.buffer, frame, stride, j);
      }
    }
  }

  lemma {:induction false} FullSet(s: set<nat>, n: nat)
    requires forall i :: i in s ==> i < n
    ensures |s| <= n
    ensures |s| == n ==> forall i :: 0 <= i < n ==> i in s
  {
    if n > 0 {
      var t := s - {n - 1};
      FullSet(t, n - 1);
      assert n - 1 in s ==> s == t + {n - 1};
      assert n - 1 !in s ==> s == t;
    }
  }

  lemma PieceOf(total: nat, stride: nat, k: nat) returns (i: nat)
    requires 0 < stride && SHARD_PREFIX_SIZE <= k < total
    ensures i < ShardCount(total, stride) && Start(i, stride) + SHARD_PREFIX_SIZE <= k < ShardEnd(total, stride, i)
  {
    i := (k - SHARD_PREFIX_SIZE) / stride;
    assert i * stride <= k - SHARD_PREFIX_SIZE < i * stride + stride;
    ShardInRange(total, stride, i);
  }

  /** An entry that received as many shards as the frame has is the frame. */
  lemma CompleteIsFaithful(e: InProgressPacket, frame: seq<Byte>, stride: nat, index: nat, counters: Counters)
    requires 0 < stride && SHARD_PREFIX_SIZE < |frame|
    requires Holds(e, frame, stride) && |e.received| == ShardCount(|frame|, stride)
    ensures Faithful(ReconstructedPacket(index, e.buffer, e.bufferLength, counters), frame)
  {
    hide Start, ShardCount;
    var n := ShardCount(|frame|, stride);
    FullSet(e.received, n);
    var last := PieceOf(|frame|, stride, |frame| - 1);
    assert last in e.received;
    var j :| j in e.received && ShardEnd(|frame|, stride, j) == e.bufferLength;
    forall k | SHARD_PREFIX_SIZE <= k < |frame|
      ensures e.buffer[k] == frame[k]
    {
      var i := PieceOf(|frame|, stride, k);
      assert i in e.received;
      assert PieceHeld(e.buffer, frame, stride, i);
    }
  }
}
