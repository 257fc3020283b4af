/** The sending side of a stream: a frame is cut, in its own buffer, into shards that each carry a 22-byte prefix. */
module Sharding {
  import opened Arithmetic
  import opened Bytes

  // length - 4, stream id, packet index, shard count, shard index, transmit stamp
  const SHARD_PREFIX_SIZE := 22
  const STAMP_SIZE := 4

  /** What a receiver reads from the first 22 bytes of a shard. */
  datatype Header = Header(
    shardLength: nat,
    streamId: nat,
    packetIndex: nat,
    shardsCount: nat,
    shardIndex: nat,
    stamp: seq<Byte>)

  /** The identity a sender stamps on every shard of one frame. */
  datatype FrameTag = FrameTag(streamId: nat, packetIndex: nat, stamp: seq<Byte>) {
    predicate Valid() {
      streamId < U16_MODULUS && packetIndex < U32_MODULUS && |stamp| == STAMP_SIZE
    }
  }

  function EncodePrefix(tag: FrameTag, shardLength: nat, shardsCount: nat, shardIndex: nat): (p: seq<Byte>)
    requires tag.Valid() && 4 <= shardLength
    ensures |p| == SHARD_PREFIX_SIZE
  {
    // the `as u32` casts truncate
    ToBe32(AsU32(shardLength - 4)) + ToBe16(tag.streamId) + ToBe32(tag.packetIndex)
    + ToBe32(AsU32(shardsCount)) + ToBe32(AsU32(shardIndex)) + tag.stamp
  }

  function ParseHeader(shard: seq<Byte>): (h: Option<Header>)
    ensures h.Some? <==> SHARD_PREFIX_SIZE <= |shard|
    ensures h.Some? ==> |h.value.stamp| == STAMP_SIZE
  {
    if |shard| < SHARD_PREFIX_SIZE then None else
    Some(Header(
           4 + FromBe32(shard[0..4]), FromBe16(shard[4..6]), FromBe32(shard[6..10]),
           FromBe32(shard[10..14]), FromBe32(shard[14..18]), shard[18..22]))
  }

  function BigEndian(s: seq<Byte>): nat { if s == [] then 0 else 256 * BigEndian(s[..|s| - 1]) + s[|s| - 1] }

  lemma BigEndianOf(x: nat)
    ensures x < U16_MODULUS ==> BigEndian(ToBe16(x)) == x
    ensures x < U32_MODULUS ==> BigEndian(ToBe32(x)) == x
  {
    if x < U16_MODULUS {
      BigEndianTwo(ToBe16(x));
    }
    if x < U32_MODULUS {
      BigEndianFour(ToBe32(x));
    }
  }

  lemma BigEndianTwo(s: seq<Byte>)
    requires |s| == 2
    ensures BigEndian(s) == 256 * s[0] as int + s[1]
  {
    assert s[..1][..0] == [] && BigEndian(s[..1]) == s[0];
  }

  lemma BigEndianFour(s: seq<Byte>)
    requires |s| == 4
    ensures BigEndian(s) == FromBe32(s)
  {
    BigEndianTwo(s[..2]);
    assert s[..3][..2] == s[..2];
    assert BigEndian(s[..3]) == 256 * BigEndian(s[..2]) + s[2];
  }

  /** Where the fields stand in a prefix: each a big-endian number, the first one without its own four bytes. */
  lemma PrefixLayout(tag: FrameTag, shardLength: nat, shardsCount: nat, shardIndex: nat)
    requires tag.Valid()
    requires 4 <= shardLength < U32_MODULUS && shardsCount < U32_MODULUS && shardIndex < U32_MODULUS
    ensures var p := EncodePrefix(tag, shardLength, shardsCount, shardIndex);
      && BigEndian(p[0..4]) == shardLength - 4 && BigEndian(p[4..6]) == tag.streamId
      && BigEndian(p[6..10]) == tag.packetIndex && BigEndian(p[10..14]) == shardsCount
      && BigEndian(p[14..18]) == shardIndex && p[18..22] == tag.stamp
  {
    var (a, b, c) := (ToBe32(shardLength - 4), ToBe16(tag.streamId), ToBe32(tag.packetIndex));
    var (d, e) := (ToBe32(shardsCount), ToBe32(shardIndex));
    assert EncodePrefix(tag, shardLength, shardsCount, shardIndex) == a + b + c + d + e + tag.stamp;
    BigEndianOf(shardLength - 4);
    BigEndianOf(tag.streamId);
    BigEndianOf(tag.packetIndex);
    BigEndianOf(shardsCount);
    BigEndianOf(shardIndex);
    hide BigEndian, EncodePrefix;
    Slices(a, b, c, d, e, tag.stamp);
  }

  lemma Slices(a: seq<Byte>, b: seq<Byte>, c: seq<Byte>, d: seq<Byte>, e: seq<Byte>, f: seq<Byte>)
    requires |a| == |c| == |d| == |e| == |f| == 4 && |b| == 2
    ensures var s := a + b + c + d + e + f;
      s[0..4] == a && s[4..6] == b && s[6..10] == c && s[10..14] == d && s[14..18] == e && s[18..22] == f
  {
  }

  /** A prefix followed by any payload reads back as the fields it was written from. */
  lemma PrefixRoundTrip(tag: FrameTag, shardLength: nat, shardsCount: nat, shardIndex: nat, payload: seq<Byte>)
    requires tag.Valid()
    requires 4 <= shardLength < U32_MODULUS && shardsCount < U32_MODULUS && shardIndex < U32_MODULUS
    ensures ParseHeader(EncodePrefix(tag, shardLength, shardsCount, shardIndex) + payload)
         == Some(Header(shardLength, tag.streamId, tag.packetIndex, shardsCount, shardIndex, tag.stamp))
  {
    assert EncodePrefix(tag, shardLength, shardsCount, shardIndex)
        == ToBe32(shardLength - 4) + ToBe16(tag.streamId) + ToBe32(tag.packetIndex)
         + ToBe32(shardsCount) + ToBe32(shardIndex) + tag.stamp;
    ParseParts(ToBe32(shardLength - 4), ToBe16(tag.streamId), ToBe32(tag.packetIndex),
               ToBe32(shardsCount), ToBe32(shardIndex), tag.stamp, payload);
  }

  lemma ParseParts(a: seq<Byte>, b: seq<Byte>, c: seq<Byte>, d: seq<Byte>, e: seq<Byte>, f: seq<Byte>, rest: seq<Byte>)
    requires |a| == |c| == |d| == |e| == |f| == 4 && |b| == 2
    ensures ParseHeader(a + b + c + d + e + f + rest)
         == Some(Header(4 + FromBe32(a), FromBe16(b), FromBe32(c), FromBe32(d), FromBe32(e), f))
  {
    var s := a + b + c + d + e + f + rest;
    assert s[0..4] == a && s[4..6] == b && s[6..10] == c;
    assert s[10..14] == d && s[14..18] == e && s[18..22] == f;
  }

  // Geometry of the shards of a frame of `total` bytes (prefix space included), `stride` payload bytes per shard.

  /** First byte of shard `i` in the frame; its prefix goes there, its payload starts after the prefix. */
  function Start(i: nat, stride: nat): nat { i * stride }

  lemma NextStart(i: nat, stride: nat)
    ensures Start(i + 1, stride) == Start(i, stride) + stride
  {
  }

  /** How many pieces of at most `stride` bytes `data` bytes make: the ceiling of their quotient. */
  function Pieces(data: int, stride: nat): nat
    requires 0 < stride
    decreases data
  {
    if data <= 0 then 0 else 1 + Pieces(data - stride, stride)
  }

  lemma {:induction false} PiecesIsCeiling(data: nat, stride: nat)
    requires 0 < stride
    ensures Pieces(data, stride) == (data + stride - 1) / stride
  {
    var n := Pieces(data, stride);
    PieceStarts(data, stride, n);
    if n > 0 {
      PieceStarts(data, stride, n - 1);
      assert (n - 1) * stride == n * stride - stride;
    }
    QuotientUnique(data + stride - 1, stride, n);
  }

  lemma QuotientUnique(a: nat, d: nat, q: nat)
    requires 0 < d && q * d <= a < q * d + d
    ensures a / d == q
  {
    var p := a / d;
    assert p * d <= a < p * d + d;
    if p < q {
      LessTimes(p + 1, q, d);
    } else if q < p {
      LessTimes(q + 1, p, d);
    }
  }

  lemma {:induction false} PieceStarts(data: int, stride: nat, i: nat)
    requires 0 < stride
    ensures i < Pieces(data, stride) <==> i * stride < data
    decreases i
  {
    if i > 0 {
      assert (i - 1) * stride == i * stride - stride;
      PieceStarts(data - stride, stride, i - 1);
    }
  }

  function ShardCount(total: nat, stride: nat): nat
    requires 0 < stride
  {
    Pieces(total - SHARD_PREFIX_SIZE, stride)
  }

  /** End, in the frame, of the bytes shard `i` carries. */
  function ShardEnd(total: nat, stride: nat, i: nat): nat {
    Min(Start(i, stride) + SHARD_PREFIX_SIZE + stride, total)
  }

  function Min(a: nat, b: nat): nat { if a <= b then a else b }

  function ShardLength(total: nat, stride: nat, i: nat): int {
    ShardEnd(total, stride, i) - Start(i, stride)
  }

  /** Shard `i` exists exactly when its payload starts inside the frame; then it is not empty and fits one packet. */
  lemma ShardInRange(total: nat, stride: nat, i: nat)
    requires 0 < stride
    ensures i < ShardCount(total, stride) <==> Start(i, stride) + SHARD_PREFIX_SIZE < total
    ensures i < ShardCount(total, stride) ==>
              SHARD_PREFIX_SIZE < ShardLength(total, stride, i) <= SHARD_PREFIX_SIZE + stride
  {
    PieceStarts(total - SHARD_PREFIX_SIZE, stride, i);
  }

  function ShardPayload(frame: seq<Byte>, stride: nat, i: nat): seq<Byte>
    requires 0 < stride && i < ShardCount(|frame|, stride)
  {
    ShardInRange(|frame|, stride, i);
    frame[Start(i, stride) + SHARD_PREFIX_SIZE .. ShardEnd(|frame|, stride, i)]
  }

  /** Shard `i` as it appears on the wire. */
  function Shard(tag: FrameTag, frame: seq<Byte>, stride: nat, i: nat): (s: seq<Byte>)
    requires tag.Valid() && 0 < stride && i < ShardCount(|frame|, stride)
    ensures |s| == ShardLength(|frame|, stride, i)
  {
    hide Start, EncodePrefix, ShardCount;
    ShardInRange(|frame|, stride, i);
    EncodePrefix(tag, ShardLength(|frame|, stride, i), ShardCount(|frame|, stride), i)
    + ShardPayload(frame, stride, i)
  }

  lemma ShardBody(tag: FrameTag, frame: seq<Byte>, stride: nat, i: nat)
    requires tag.Valid() && 0 < stride && i < ShardCount(|frame|, stride)
    ensures SHARD_PREFIX_SIZE < |Shard(tag, frame, stride, i)| <= SHARD_PREFIX_SIZE + stride
    ensures Shard(tag, frame, stride, i)[SHARD_PREFIX_SIZE..] == ShardPayload(frame, stride, i)
  {
    hide Start, EncodePrefix, ShardCount;
    ShardInRange(|frame|, stride, i);
  }

  function Shards(tag: FrameTag, frame: seq<Byte>, stride: nat, n: nat): (s: seq<seq<Byte>>)
    requires tag.Valid() && 0 < stride && n <= ShardCount(|frame|, stride)
    ensures |s| == n
  {
    if n == 0 then [] else Shards(tag, frame, stride, n - 1) + [Shard(tag, frame, stride, n - 1)]
  }

  lemma {:induction false} ShardsAt(tag: FrameTag, frame: seq<Byte>, stride: nat, n: nat, i: nat)
    requires tag.Valid() && 0 < stride && i < n <= ShardCount(|frame|, stride)
    ensures Shards(tag, frame, stride, n)[i] == Shard(tag, frame, stride, i)
  {
    if i < n - 1 {
      ShardsAt(tag, frame, stride, n - 1, i);
    }
  }

  function Payloads(shards: seq<seq<Byte>>): seq<seq<Byte>>
    requires forall i :: 0 <= i < |shards| ==> SHARD_PREFIX_SIZE <= |shards[i]|
  {
    seq(|shards|, i requires 0 <= i < |shards| => shards[i][SHARD_PREFIX_SIZE..])
  }

  /** The first `n` payload pieces of a frame. */
  ghost function Cut(frame: seq<Byte>, stride: nat, n: nat): (pieces: seq<seq<Byte>>)
    requires 0 < stride && n <= ShardCount(|frame|, stride)
    ensures |pieces| == n
    ensures forall i :: 0 <= i < n ==> pieces[i] == ShardPayload(frame, stride, i)
  {
    if n == 0 then [] else Cut(frame, stride, n - 1) + [ShardPayload(frame, stride, n - 1)]
  }

  /** The first `n` pieces, put end to end, are the frame's bytes up to the end of piece n-1. */
  lemma {:induction false} PiecesRebuild(frame: seq<Byte>, stride: nat, n: nat)
    requires SHARD_PREFIX_SIZE <= |frame| && 0 < stride && n <= ShardCount(|frame|, stride)
    ensures Flatten(Cut(frame, stride, n))
         == frame[SHARD_PREFIX_SIZE .. Min(Start(n, stride) + SHARD_PREFIX_SIZE, |frame|)]
  {
    hide Start, ShardCount, ShardPayload, Flatten, Cut, Min;
    if n == 0 {
      NoPieces(frame, stride);
    } else {
      PiecesRebuild(frame, stride, n - 1);
      var before, piece := Cut(frame, stride, n - 1), ShardPayload(frame, stride, n - 1);
      CutGrows(frame, stride, n);
      FlattenAppend(before, [piece]);
      FlattenOne(piece);
      PieceJoins(frame, stride, n - 1);
    }
  }

  lemma NoPieces(frame: seq<Byte>, stride: nat)
    requires SHARD_PREFIX_SIZE <= |frame| && 0 < stride
    ensures Flatten(Cut(frame, stride, 0))
         == frame[SHARD_PREFIX_SIZE .. Min(Start(0, stride) + SHARD_PREFIX_SIZE, |frame|)]
  {
  }

  lemma CutGrows(frame: seq<Byte>, stride: nat, n: nat)
    requires 0 < stride && 0 < n <= ShardCount(|frame|, stride)
    ensures Cut(frame, stride, n) == Cut(frame, stride, n - 1) + [ShardPayload(frame, stride, n - 1)]
  {
  }

  lemma FlattenOne<T>(piece: seq<T>)
    ensures Flatten([piece]) == piece
  {
    assert Flatten([piece]) == piece + Flatten([]);
  }

  /** Piece `i` begins where the pieces before it end. */
  lemma PieceJoins(frame: seq<Byte>, stride: nat, i: nat)
    requires SHARD_PREFIX_SIZE <= |frame| && 0 < stride && i < ShardCount(|frame|, stride)
    ensures frame[SHARD_PREFIX_SIZE .. Min(Start(i, stride) + SHARD_PREFIX_SIZE, |frame|)]
          + ShardPayload(frame, stride, i)
         == frame[SHARD_PREFIX_SIZE .. Min(Start(i + 1, stride) + SHARD_PREFIX_SIZE, |frame|)]
  {
    ShardInRange(|frame|, stride, i);
    NextStart(i, stride);
    hide Start, ShardCount;
    JoinSlices(frame, SHARD_PREFIX_SIZE, Start(i, stride) + SHARD_PREFIX_SIZE, ShardEnd(|frame|, stride, i));
  }

  lemma JoinSlices<T>(s: seq<T>, a: nat, b: nat, c: nat)
    requires a <= b <= c <= |s|
    ensures s[a..b] + s[b..c] == s[a..c]
  {
  }

  /** What `Send` puts on the wire carries the whole frame: nothing is lost, repeated or clobbered. */
  lemma PayloadsRebuildFrame(tag: FrameTag, frame: seq<Byte>, stride: nat, shards: seq<seq<Byte>>)
    requires tag.Valid() && SHARD_PREFIX_SIZE <= |frame| && 0 < stride
    requires shards == Shards(tag, frame, stride, ShardCount(|frame|, stride))
    ensures forall i :: 0 <= i < |shards| ==> SHARD_PREFIX_SIZE < |shards[i]| <= SHARD_PREFIX_SIZE + stride
    ensures Flatten(Payloads(shards)) == frame[SHARD_PREFIX_SIZE..]
  {
    hide Start, ShardCount, Shard;
    var n := ShardCount(|frame|, stride);
    forall i | 0 <= i < n
      ensures SHARD_PREFIX_SIZE < |shards[i]| <= SHARD_PREFIX_SIZE + stride
      ensures shards[i][SHARD_PREFIX_SIZE..] == ShardPayload(frame, stride, i)
    {
      ShardsAt(tag, frame, stride, n, i);
      ShardBody(tag, frame, stride, i);
    }
    assert Payloads(shards) == Cut(frame, stride, n);
    PiecesRebuild(frame, stride, n);
    ShardInRange(|frame|, stride, n);
  }

  /** Every shard announces its own length, its frame and its place in it. */
  lemma ShardAnnouncesItself(tag: FrameTag, frame: seq<Byte>, stride: nat, i: nat)
    requires tag.Valid() && 0 < stride && i < ShardCount(|frame|, stride)
    requires SHARD_PREFIX_SIZE + stride < U32_MODULUS && ShardCount(|frame|, stride) < U32_MODULUS
    ensures ParseHeader(Shard(tag, frame, stride, i))
         == Some(Header(ShardLength(|frame|, stride, i), tag.streamId, tag.packetIndex,
                        ShardCount(|frame|, stride), i, tag.stamp))
    ensures Shard(tag, frame, stride, i)[SHARD_PREFIX_SIZE..]
         == frame[Start(i, stride) + SHARD_PREFIX_SIZE .. Start(i, stride) + ShardLength(|frame|, stride, i)]
  {
    ShardInRange(|frame|, stride, i);
    PrefixRoundTrip(tag, ShardLength(|frame|, stride, i), ShardCount(|frame|, stride), i,
                    ShardPayload(frame, stride, i));
  }

  /** A memory buffer whose first `hiddenOffset` bytes are reserved for the prefix and the stream's own header. */
  class Buffer {
    var inner: array<Byte>
    var hiddenOffset: nat
    var length: nat

    constructor (inner: array<Byte>, hiddenOffset: nat, length: nat)
      ensures this.inner == inner && this.hiddenOffset == hiddenOffset && this.length == length
    {
      this.inner, this.hiddenOffset, this.length := inner, hiddenOffset, length;
    }

    /** What `StreamSender.Send` needs: the announced bytes are really there. */
    ghost predicate Backed()
      reads this
    {
      hiddenOffset + length <= inner.Length
    }

    /** Makes bytes [offset, offset + size) of the payload available, keeping every byte that was there. */
    method GetRangeMut(offset: nat, size: nat)
      modifies this
      ensures hiddenOffset == old(hiddenOffset)
      ensures length == (if old(length) < offset + size then offset + size else old(length))
      ensures inner == old(inner) || fresh(inner)
      ensures inner.Length == (if old(inner.Length) < hiddenOffset + offset + size
                               then hiddenOffset + offset + size else old(inner.Length))
      ensures old(inner.Length) <= inner.Length
      ensures inner[..old(inner.Length)] == old(inner[..])
      ensures forall k :: old(inner.Length) <= k < inner.Length ==> inner[k] == 0
      ensures Backed() <==> hiddenOffset + old(length) <= inner.Length
    {
      var required := hiddenOffset + offset + size;
      if required > inner.Length {
        var grown := new Byte[required](_ => 0);
        forall k | 0 <= k < inner.Length {
          grown[k] := inner[k];
        }
        inner := grown;
      }
      length := if length < offset + size then offset + size else length;
    }
  }

  method CountShards(total: nat, stride: nat) returns (count: nat)
    requires 0 < stride && SHARD_PREFIX_SIZE <= total
    ensures count == ShardCount(total, stride)
  {
    PiecesIsCeiling(total - SHARD_PREFIX_SIZE, stride);
    count := (total - SHARD_PREFIX_SIZE + stride - 1) / stride;
  }

  /** Writes the prefix of shard `idx` over bytes already sent and returns the packet, read from the same buffer. */
  method EmitShard(inner: array<Byte>, ghost frame: seq<Byte>, tag: FrameTag, stride: nat, total: nat, count: nat,
                   idx: nat)
    returns (wire: seq<Byte>)
    requires tag.Valid() && 0 < stride && SHARD_PREFIX_SIZE <= total == |frame| <= inner.Length
    requires idx < count == ShardCount(total, stride)
    requires forall k :: 0 <= k < total && Untouched(idx, stride) <= k ==> inner[k] == frame[k]
    modifies inner
    ensures wire == Shard(tag, frame, stride, idx)
    ensures forall k :: 0 <= k < total && Untouched(idx + 1, stride) <= k ==> inner[k] == frame[k]
  {
    ShardInRange(total, stride, idx);
    hide Start, EncodePrefix, ShardCount;
    var start := Start(idx, stride);
    var packetLength := Min(SHARD_PREFIX_SIZE + stride, total - start);
    var prefix := EncodePrefix(tag, packetLength, count, idx);
    WriteAt(inner, start, prefix);
    wire := inner[start..start + packetLength];
    SliceOfFrame(inner[..], frame, start + SHARD_PREFIX_SIZE, start + packetLength);
    assert wire == inner[start..start + SHARD_PREFIX_SIZE] + inner[start + SHARD_PREFIX_SIZE..start + packetLength];
    NextStart(idx, stride);
  }

  lemma SliceOfFrame(s: seq<Byte>, frame: seq<Byte>, a: nat, b: nat)
    requires a <= b <= |frame| <= |s|
    requires forall k :: a <= k < b ==> s[k] == frame[k]
    ensures s[a..b] == frame[a..b]
  {
  }

  method WriteAt(inner: array<Byte>, start: nat, bytes: seq<Byte>)
    requires start + |bytes| <= inner.Length
    modifies inner
    ensures inner[start..start + |bytes|] == bytes
    ensures forall k :: 0 <= k < inner.Length && !(start <= k < start + |bytes|) ==> inner[k] == old(inner[k])
  {
    forall k | 0 <= k < |bytes| {
      inner[start + k] := bytes[k];
    }
  }

  /** First byte of a buffer not yet overwritten when shard `idx` is about to be sent. */
  ghost function Untouched(idx: nat, stride: nat): int {
    Start(idx, stride) + SHARD_PREFIX_SIZE - stride
  }

  method EmitShards(inner: array<Byte>, ghost frame: seq<Byte>, tag: FrameTag, stride: nat, total: nat, count: nat)
    returns (sent: seq<seq<Byte>>)
    requires tag.Valid() && 0 < stride && SHARD_PREFIX_SIZE <= total == |frame| <= inner.Length
    requires count == ShardCount(total, stride) && frame == inner[..total]
    modifies inner
    ensures sent == Shards(tag, frame, stride, count)
  {
    sent := [];
    for idx := 0 to count
      invariant forall k :: 0 <= k < total && Untouched(idx, stride) <= k ==> inner[k] == frame[k]
      invariant sent == Shards(tag, frame, stride, idx)
    {
      var wire := EmitShard(inner, frame, tag, stride, total, count, idx);
      sent := sent + [wire];
    }
  }

  class StreamSender {
    const streamId: nat
    const maxPacketSize: nat
    var nextPacketIndex: nat
    var shardsCount: nat
    var outbox: seq<seq<Byte>>
    var usedBuffers: seq<array<Byte>>

    constructor (streamId: nat, maxPacketSize: nat)
      requires streamId < U16_MODULUS && SHARD_PREFIX_SIZE < maxPacketSize
      ensures this.streamId == streamId && this.maxPacketSize == maxPacketSize
      ensures nextPacketIndex == 0 && outbox == [] && usedBuffers == []
    {
      this.streamId, this.maxPacketSize := streamId, maxPacketSize;
      nextPacketIndex, shardsCount, outbox, usedBuffers := 0, 0, [], [];
    }

    /**
     * Shards and sends a buffer without copying it: the prefix of each shard is written over bytes that the
     * previous shard already carried, yet what goes out is the frame as it was on entry.
     */
    method Send(buffer: Buffer, stamp: seq<Byte>)
      requires streamId < U16_MODULUS && nextPacketIndex < U32_MODULUS && |stamp| == STAMP_SIZE
      requires SHARD_PREFIX_SIZE < maxPacketSize
      requires SHARD_PREFIX_SIZE <= buffer.hiddenOffset + buffer.length && buffer.Backed()
      modifies this`outbox, this`shardsCount, this`usedBuffers, buffer.inner
      ensures var total := buffer.hiddenOffset + buffer.length;
              var stride := maxPacketSize - SHARD_PREFIX_SIZE;
              && shardsCount == ShardCount(total, stride)
              && outbox == old(outbox)
                         + Shards(FrameTag(streamId, nextPacketIndex, stamp), old(buffer.inner[..total]),
                                  stride, shardsCount)
      ensures usedBuffers == old(usedBuffers) + [buffer.inner]
    {
      var stride := maxPacketSize - SHARD_PREFIX_SIZE;
      var total := buffer.hiddenOffset + buffer.length;
      var count := CountShards(total, stride);
      var tag := FrameTag(streamId, nextPacketIndex, stamp);
      var sent := EmitShards(buffer.inner, buffer.inner[..total], tag, stride, total, count);
      outbox := outbox + sent;
      shardsCount := count;
      usedBuffers := usedBuffers + [buffer.inner];
    }
  }
}
