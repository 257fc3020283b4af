/** The receiving socket itself, as the mutable object that reads datagrams and reassembles frames. */
module StreamSocket {
  import opened Bytes
  import opened Sharding
  import opened SerialOrder
  import opened Reassembly
  import opened SocketRuns

  const MAX_PACKET_SIZE_RECV := 16000
  const VIDEO_STREAM := 3

  datatype ReadResult = Data(bytes: seq<Byte>, length: nat) | BufferTooSmall | Disconnected

  /**
   * A datagram channel, which may have lost its sender, with one slot for the message that was peeked at but not yet
   * read.
   */
  class BufferedReceiver {
    var channel: seq<seq<Byte>>
    var connected: bool
    var slot: Option<seq<Byte>>

    constructor ()
      ensures Pending() == [] && connected
    {
      channel, slot, connected := [], None, true;
    }

    /** The messages still to be read, oldest first. */
    function Pending(): seq<seq<Byte>>
      reads this
    {
      (if slot.Some? then [slot.value] else []) + channel
    }

    /** Copies the first bytes of the next message and tells its whole length, 0 when there is none. */
    method PeekPrefix(prefixLength: nat, maxLength: nat) returns (r: ReadResult)
      modifies this`channel, this`slot
      ensures Pending() == old(Pending())
      ensures Pending() == [] ==> r == if connected then Data([], 0) else Disconnected
      ensures Pending() != [] ==>
                r == if |Pending()[0]| <= maxLength
                     then Data(Pending()[0][..Min(prefixLength, |Pending()[0]|)], |Pending()[0]|)
                     else BufferTooSmall
    {
      if slot.None? {
        if channel == [] {
          return if connected then Data([], 0) else Disconnected;
        }
        slot, channel := Some(channel[0]), channel[1..];
      }
      var data := slot.value;
      if |data| > maxLength {
        return BufferTooSmall;
      }
      r := Data(data[..Min(prefixLength, |data|)], |data|);
    }

    /** Reads the next message whole. One that does not fit stays only if it had been peeked at. */
    method Recv(capacity: nat) returns (r: ReadResult)
      modifies this`channel, this`slot
      ensures old(Pending()) == [] ==> r == (if connected then Data([], 0) else Disconnected) && Pending() == []
      ensures old(Pending()) != [] && |old(Pending())[0]| <= capacity ==>
                r == Data(old(Pending())[0], |old(Pending())[0]|) && Pending() == old(Pending())[1..]
      ensures old(Pending()) != [] && capacity < |old(Pending())[0]| ==>
                r == BufferTooSmall && Pending() == if old(slot).Some? then old(Pending()) else old(Pending())[1..]
    {
      if slot.Some? {
        var data := slot.value;
        if |data| <= capacity {
          slot := None;
          r := Data(data, |data|);
        } else {
          r := BufferTooSmall;
        }
      } else if channel == [] {
        r := if connected then Data([], 0) else Disconnected;
      } else {
        var data := channel[0];
        channel := channel[1..];
        r := if |data| <= capacity then Data(data, |data|) else BufferTooSmall;
      }
    }
  }

  /** Shards of recent frames already seen, and the counters since the last completed video frame. */
  datatype VideoStats = VideoStats(seen: map<nat, set<nat>>, counters: Counters)

  /** Counting one shard; the 32-bit counters wrap. */
  function Recorded(stats: VideoStats, h: Header): VideoStats {
    var known := if h.packetIndex in stats.seen then stats.seen[h.packetIndex] else {};
    var c := stats.counters;
    VideoStats(
      stats.seen[h.packetIndex := known + {h.shardIndex}],
      Counters(
        WrappingAdd(c.rxBytes, h.shardLength),
        if h.shardIndex in known then c.newShards else WrappingAdd(c.newShards, 1),
        if h.shardIndex in known then WrappingAdd(c.duplicateShards, 1) else c.duplicateShards))
  }

  const NO_COUNTS := Counters(0, 0, 0)

  /** After a video frame is queued: counters start over and shard records of old frames are forgotten. */
  function HandedOver(stats: VideoStats, packetIndex: nat): VideoStats {
    VideoStats(
      map idx | idx in stats.seen && WrappingCmp(WrappingAdd(idx, 5), packetIndex) != Less :: stats.seen[idx],
      NO_COUNTS)
  }

  /** A datagram's shard is counted when its header is first read, and only on the video stream. */
  function Counted(stats: VideoStats, pending: Option<Header>, streamId: nat, h: Header): VideoStats {
    if pending.None? && streamId == VIDEO_STREAM then Recorded(stats, h) else stats
  }

  function StatsAfter(stats: VideoStats, tag: FrameTag, completed: bool): VideoStats {
    if tag.streamId == VIDEO_STREAM && completed then HandedOver(stats, tag.packetIndex) else stats
  }

  /** A recyclable entry, if the table has one. */
  method FindRecyclable(c: StreamComponents, packetIndex: nat) returns (victim: Option<nat>)
    ensures LegalVictim(c, packetIndex, victim)
  {
    var todo := c.inProgress.Keys;
    while todo != {}
      invariant todo <= c.inProgress.Keys
      invariant forall idx :: idx in c.inProgress.Keys - todo ==> !Recyclable(idx, packetIndex)
      decreases todo
    {
      var idx :| idx in todo;
      if Recyclable(idx, packetIndex) {
        return Some(idx);
      }
      todo := todo - {idx};
    }
    victim := None;
  }

  /** Reads the next datagram over `buffer` at `start` and restores what its prefix overwrote. */
  method ReadShard(rx: BufferedReceiver, buffer: seq<Byte>, start: nat, shardLength: nat) returns (r: seq<Byte>)
    requires rx.Pending() != [] && |rx.Pending()[0]| == shardLength
    requires SHARD_PREFIX_SIZE <= shardLength && start + shardLength <= |buffer|
    modifies rx
    ensures r == ReadInto(buffer, start, old(rx.Pending())[0])
    ensures rx.Pending() == old(rx.Pending())[1..]
  {
    ghost var shard := rx.Pending()[0];
    var backup := buffer[start..start + SHARD_PREFIX_SIZE];
    r := buffer;
    var cursor := 0;
    while cursor < shardLength
      invariant |r| == |buffer|
      invariant cursor == 0 ==> r == buffer && rx.Pending() == old(rx.Pending())
      invariant cursor != 0 ==> cursor == shardLength && rx.Pending() == old(rx.Pending())[1..]
                                && r == buffer[..start] + shard + buffer[start + shardLength..]
    {
      var read := rx.Recv(shardLength - cursor);
      r := r[..start + cursor] + read.bytes + r[start + cursor + read.length..];
      cursor := cursor + read.length;
    }
    r := r[..start] + backup + r[start + SHARD_PREFIX_SIZE..];
  }

  lemma HeaderFromPrefix(shard: seq<Byte>)
    requires SHARD_PREFIX_SIZE <= |shard|
    ensures ParseHeader(shard[..SHARD_PREFIX_SIZE]) == ParseHeader(shard)
  {
    var p := shard[..SHARD_PREFIX_SIZE];
    assert p[0..4] == shard[0..4] && p[4..6] == shard[4..6] && p[6..10] == shard[6..10];
    assert p[10..14] == shard[10..14] && p[14..18] == shard[14..18] && p[18..22] == shard[18..22];
  }

  /** An entry outlives a sweep, as it is, exactly if it has no deadline or one in the future. */
  ghost predicate OutlivesExactly(before: StreamComponents, now: int, after: StreamComponents) {
    && (forall idx :: idx in after.inProgress <==>
          idx in before.inProgress
          && (before.inProgress[idx].deadline.None? || now < before.inProgress[idx].deadline.value))
    && (forall idx :: idx in after.inProgress ==> after.inProgress[idx] == before.inProgress[idx])
  }

  lemma SweptOutlives(c: StreamComponents, now: int)
    ensures OutlivesExactly(c, now, Swept(c, now))
  {
  }

  class StreamSocket {
    const maxPacketSize: nat
    /** Deadline of a frame from its transmit stamp and the time its entry is opened. */
    const deadlineOf: (seq<Byte>, int) -> Option<int>
    var pending: Option<Header>
    var streams: map<nat, StreamComponents>
    var stats: VideoStats
    var lost: map<nat, int>
    ghost var log: multiset<Fate>
    ghost var arrived: set<(nat, nat, nat)>

    constructor (maxPacketSize: nat, deadlineOf: (seq<Byte>, int) -> Option<int>)
      ensures this.maxPacketSize == maxPacketSize && this.deadlineOf == deadlineOf
      ensures View() == EMPTY_SOCKET && pending == None && stats == VideoStats(map[], NO_COUNTS)
    {
      this.maxPacketSize, this.deadlineOf := maxPacketSize, deadlineOf;
      pending, streams, stats, lost := None, map[], VideoStats(map[], NO_COUNTS), map[];
      log, arrived := multiset{}, {};
    }

    ghost function View(): SocketState
      reads this
    {
      SocketState(streams, lost, log, arrived)
    }

    function Stride(): int { maxPacketSize - SHARD_PREFIX_SIZE }

    /** Subscribing again starts the stream over. */
    method Subscribe(streamId: nat, maxConcurrentBuffers: nat)
      requires 0 < Stride()
      modifies this`streams
      ensures forall frames :: Step(frames, Stride(), old(View()), SocketRuns.Subscribe(streamId, maxConcurrentBuffers),
                                    View())
    {
      streams := streams[streamId := StreamComponents(Empties(maxConcurrentBuffers), [], map[])];
    }

    /** Finds or makes the in-progress entry of a frame. */
    method OpenEntry(sid: nat, packetIndex: nat, expected: nat, deadline: Option<int>)
      returns (ghost victim: Option<nat>)
      requires sid in streams
      modifies this`streams
      ensures LegalVictim(old(streams)[sid], packetIndex, victim)
      ensures streams == old(streams)[sid := Opened(old(streams)[sid], packetIndex, expected, deadline, victim)]
    {
      var c := streams[sid];
      var found := FindRecyclable(c, packetIndex);
      victim := found;
      if packetIndex !in c.inProgress {
        var buffer: seq<Byte> := [];
        if c.pool != [] {
          buffer := c.pool[0];
          c := c.(pool := c.pool[1..]);
        } else if found.Some? {
          buffer := c.inProgress[found.value].buffer;
          c := c.(inProgress := c.inProgress - {found.value});
        }
        c := c.(inProgress := c.inProgress[packetIndex := InProgressPacket(buffer, 0, {}, deadline, expected)]);
        streams := streams[sid := c];
      }
    }

    /** Stores the next datagram in its frame's buffer and queues the frame if that completes it. */
    method TakeShard(rx: BufferedReceiver, h: Header, now: int) returns (ghost victim: Option<nat>)
      requires h.streamId in streams && 0 < Stride()
      requires rx.Pending() != [] && |rx.Pending()[0]| == h.shardLength && SHARD_PREFIX_SIZE <= h.shardLength
      modifies rx, this`streams
      ensures rx.Pending() == old(rx.Pending())[1..]
      ensures LegalVictim(old(streams)[h.streamId], h.packetIndex, victim)
      ensures streams == old(streams)[h.streamId :=
                Arrive(old(streams)[h.streamId], h, old(rx.Pending())[0], Stride(), deadlineOf(h.stamp, now), victim,
                       stats.counters)]
    {
      ghost var shard := rx.Pending()[0];
      victim := OpenEntry(h.streamId, h.packetIndex, h.shardsCount, deadlineOf(h.stamp, now));
      var c := streams[h.streamId];
      ghost var begun := c;
      var e := c.inProgress[h.packetIndex];
      var start := Start(h.shardIndex, Stride());
      var bufferLength := Max(e.bufferLength, start + h.shardLength);
      var buffer := ReadShard(rx, GrownTo(e.buffer, bufferLength), start, h.shardLength);
      e := e.(bufferLength := bufferLength, buffer := buffer, received := e.received + {h.shardIndex});
      assert e == Store(begun.inProgress[h.packetIndex], h.shardIndex, shard, Stride());
      if |e.received| == h.shardsCount {
        var packet := ReconstructedPacket(h.packetIndex, e.buffer, e.bufferLength, stats.counters);
        assert c.inProgress - {h.packetIndex} == c.inProgress[h.packetIndex := e] - {h.packetIndex};
        c := StreamComponents(c.pool + [[]], c.packetQueue + [packet], c.inProgress - {h.packetIndex});
      } else {
        c := c.(inProgress := c.inProgress[h.packetIndex := e]);
      }
      streams := streams[h.streamId := c];
    }

    /** The next datagram, if any, is shard `i` of a frame that the peer sent, or too short to be a shard. */
    ghost predicate NextIs(rx: BufferedReceiver, frames: Frames, tag: FrameTag, i: nat)
      reads rx
      requires 0 < Stride()
    {
      rx.Pending() != [] && SHARD_PREFIX_SIZE <= |rx.Pending()[0]| ==>
        && FromFrames(frames, Stride(), tag, i)
        && ShardCount(|frames[tag.streamId][tag.packetIndex]|, Stride()) < U32_MODULUS
        && rx.Pending()[0] == Shard(tag, frames[tag.streamId][tag.packetIndex], Stride(), i)
    }

    /** Reads the header of the next datagram, once, and counts the shard if it is a video shard. */
    method PeekHeader(rx: BufferedReceiver, ghost frames: Frames, ghost tag: FrameTag, ghost i: nat)
      returns (h: Option<Header>)
      requires 0 < Stride() && maxPacketSize <= MAX_PACKET_SIZE_RECV && NextIs(rx, frames, tag, i)
      requires rx.connected || rx.Pending() != []
      requires pending.Some? ==> rx.Pending() != [] && ParseHeader(rx.Pending()[0]) == pending
      modifies rx, this`pending, this`stats
      ensures rx.Pending() == old(rx.Pending())
      ensures h.None? <==> rx.Pending() == [] || |rx.Pending()[0]| < SHARD_PREFIX_SIZE
      ensures h.Some? ==> h == ParseHeader(rx.Pending()[0]) && |rx.Pending()[0]| == h.value.shardLength
      ensures h.Some? ==> h.value.streamId == tag.streamId && h.value.packetIndex == tag.packetIndex
                          && h.value.shardIndex == i && h.value.stamp == tag.stamp
                          && h.value.shardsCount == ShardCount(|frames[tag.streamId][tag.packetIndex]|, Stride())
      ensures pending == h
      ensures stats == if h.Some? then Counted(old(stats), old(pending), tag.streamId, h.value) else old(stats)
      ensures h.Some? && old(pending).None? && tag.streamId == VIDEO_STREAM ==>
                var c, c' := old(stats).counters, stats.counters;
                if tag.packetIndex in old(stats).seen && i in old(stats).seen[tag.packetIndex]
                then c'.newShards == c.newShards && c'.duplicateShards == WrappingAdd(c.duplicateShards, 1)
                else c'.newShards == WrappingAdd(c.newShards, 1) && c'.duplicateShards == c.duplicateShards
    {
      if rx.Pending() != [] && SHARD_PREFIX_SIZE <= |rx.Pending()[0]| {
        ShardAnnouncesItself(tag, frames[tag.streamId][tag.packetIndex], Stride(), i);
        ShardBody(tag, frames[tag.streamId][tag.packetIndex], Stride(), i);
        HeaderFromPrefix(rx.Pending()[0]);
      }
      if pending.Some? {
        return pending;
      }
      var peeked := rx.PeekPrefix(SHARD_PREFIX_SIZE, MAX_PACKET_SIZE_RECV);
      if peeked.length < SHARD_PREFIX_SIZE {
        return None;
      }
      h := ParseHeader(peeked.bytes);
      if h.value.streamId == VIDEO_STREAM {
        stats := Recorded(stats, h.value);
      }
      pending := h;
    }

    /** The arrival part of a receive: the shard is stored and the counters handed over if a video frame is complete. */
    method AbsorbShard(rx: BufferedReceiver, h: Header, now: int, ghost frames: Frames, ghost tag: FrameTag,
                       ghost i: nat)
      returns (completed: bool, ghost e: Event)
      requires 0 < Stride() && NextIs(rx, frames, tag, i) && Inv(frames, Stride(), View())
      requires rx.Pending() != [] && SHARD_PREFIX_SIZE <= |rx.Pending()[0]| == h.shardLength
      requires tag.streamId in streams
      requires h == Header(h.shardLength, tag.streamId, tag.packetIndex,
                           ShardCount(|frames[tag.streamId][tag.packetIndex]|, Stride()), i, tag.stamp)
      modifies rx, this`streams, this`stats, this`log, this`arrived
      ensures rx.Pending() == old(rx.Pending())[1..]
      ensures e.Arrival? && e.tag == tag && e.shardIndex == i && e.now == now
           && e.deadline == deadlineOf(tag.stamp, now)
      ensures e.counters == old(stats).counters && FromFrames(frames, Stride(), tag, i)
      ensures ArrivalStep(old(View()), frames, Stride(), e, View()) && Inv(frames, Stride(), View())
      ensures completed == (|old(streams)[tag.streamId].packetQueue| < |streams[tag.streamId].packetQueue|)
      ensures stats == StatsAfter(old(stats), tag, completed)
    {
      hide Inv, EncodePrefix, Opened, Finished, Store;
      var queued := |streams[h.streamId].packetQueue|;
      ghost var victim := TakeShard(rx, h, now);
      e := Arrival(tag, i, now, deadlineOf(tag.stamp, now), victim, stats.counters);
      log := log + multiset(NewFates(h.streamId, old(streams)[h.streamId], streams[h.streamId]));
      arrived := arrived + {(h.streamId, h.packetIndex, h.shardIndex)};
      assert ArrivalStep(old(View()), frames, Stride(), e, View());
      ArrivalKeepsInv(frames, Stride(), old(View()), e, View());
      completed := queued < |streams[h.streamId].packetQueue|;
      if h.streamId == VIDEO_STREAM && completed {
        stats := HandedOver(stats, h.packetIndex);
      }
    }

    /** A shard of a subscribed stream: it is stored, then every stream is swept. */
    method RecvSubscribed(rx: BufferedReceiver, h: Header, now: int, ghost frames: Frames, ghost tag: FrameTag,
                          ghost i: nat)
      returns (completed: bool, ghost e: Event)
      requires 0 < Stride() && NextIs(rx, frames, tag, i) && Inv(frames, Stride(), View())
      requires rx.Pending() != [] && SHARD_PREFIX_SIZE <= |rx.Pending()[0]| == h.shardLength
      requires tag.streamId in streams
      requires h == Header(h.shardLength, tag.streamId, tag.packetIndex,
                           ShardCount(|frames[tag.streamId][tag.packetIndex]|, Stride()), i, tag.stamp)
      modifies rx, this
      ensures pending == None && rx.Pending() == old(rx.Pending())[1..]
      ensures e.Arrival? && e.tag == tag && e.shardIndex == i && e.now == now
           && e.deadline == deadlineOf(tag.stamp, now)
      ensures e.counters == old(stats).counters
      ensures Step(frames, Stride(), old(View()), e, View())
      ensures tag.streamId in streams
      ensures completed == (|old(streams)[tag.streamId].packetQueue| < |streams[tag.streamId].packetQueue|)
      ensures stats == StatsAfter(old(stats), tag, completed)
    {
      hide Inv, Arrive, Swept;
      completed, e := AbsorbShard(rx, h, now, frames, tag, i);
      ghost var mid := View();
      UnfinishedEntries(frames, Stride(), mid);
      SweepExpiredDeadlines(now);
      ArrivalThenSweep(frames, Stride(), old(View()), e, mid, View());
      pending := None;
    }

    /**
     * Receives one datagram. Nothing happens without one, or while its stream has no subscriber; otherwise the
     * socket makes one arrival step and forgets the datagram.
     */
    method Recv(rx: BufferedReceiver, now: int, ghost frames: Frames, ghost tag: FrameTag, ghost i: nat)
      returns (ok: bool, ghost e: Event)
      requires 0 < Stride() && maxPacketSize <= MAX_PACKET_SIZE_RECV && NextIs(rx, frames, tag, i)
      requires rx.connected || rx.Pending() != []
      requires pending.Some? ==> rx.Pending() != [] && ParseHeader(rx.Pending()[0]) == pending
      requires Inv(frames, Stride(), View())
      modifies rx, this
      ensures ok <==>
                old(rx.Pending()) != [] && SHARD_PREFIX_SIZE <= |old(rx.Pending())[0]| && tag.streamId in old(streams)
      ensures !ok ==> View() == old(View()) && rx.Pending() == old(rx.Pending())
      ensures ok ==>
                && pending == None && rx.Pending() == old(rx.Pending())[1..]
                && e.Arrival? && e.tag == tag && e.shardIndex == i && e.now == now
                && e.deadline == deadlineOf(tag.stamp, now)
                && Step(frames, Stride(), old(View()), e, View())
      ensures old(rx.Pending()) == [] || |old(rx.Pending())[0]| < SHARD_PREFIX_SIZE ==> stats == old(stats)
      ensures ok ==>
                var counted := Counted(old(stats), old(pending), tag.streamId, ParseHeader(old(rx.Pending())[0]).value);
                && e.counters == counted.counters
                && tag.streamId in streams
                && stats == StatsAfter(counted, tag,
                                       |old(streams)[tag.streamId].packetQueue| < |streams[tag.streamId].packetQueue|)
      ensures !ok && old(rx.Pending()) != [] && SHARD_PREFIX_SIZE <= |old(rx.Pending())[0]| ==>
                && pending == ParseHeader(old(rx.Pending())[0])
                && stats == Counted(old(stats), old(pending), tag.streamId, pending.value)
    {
      e := Sweep(now);
      var header := PeekHeader(rx, frames, tag, i);
      if header.None? || header.value.streamId !in streams {
        return false, e;
      }
      var completed;
      completed, e := RecvSubscribed(rx, header.value, now, frames, tag, i);
      ok := true;
    }

    /** Notes the loss of each expired frame of a stream in the table. */
    method ReportExpired(c: StreamComponents, now: int, ghost sid: nat) returns (expired: set<nat>)
      requires Unfinished(c)
      modifies this`lost
      ensures expired == ExpiredKeys(c, now)
      ensures TableAfter(old(lost), StreamReports(c, sid, now), lost)
    {
      expired := {};
      var todo := c.inProgress.Keys;
      while todo != {}
        invariant todo <= c.inProgress.Keys
        invariant expired == ExpiredKeys(c, now) - todo
        invariant forall id :: id in lost <==> id in old(lost) || id in expired
        invariant forall id :: id in lost ==>
                    lost[id] == if id in expired then c.inProgress[id].expected - |c.inProgress[id].received|
                                else old(lost)[id]
        decreases todo
      {
        var idx :| idx in todo;
        var e := c.inProgress[idx];
        if Expired(e, now) {
          var shardsLost: nat := e.expected - |e.received|;
          lost := lost[idx := shardsLost];
          expired := expired + {idx};
        }
        todo := todo - {idx};
      }
      StreamTable(c, sid, now, old(lost), lost);
    }

    /** Gives up on the expired frames of one stream. */
    method SweepStream(sid: nat, now: int)
      requires sid in streams && Unfinished(streams[sid])
      modifies this`streams, this`lost, this`log
      ensures streams == old(streams)[sid := Swept(old(streams)[sid], now)]
      ensures log == old(log) + multiset(StreamReports(old(streams)[sid], sid, now))
      ensures TableAfter(old(lost), StreamReports(old(streams)[sid], sid, now), lost)
      ensures OutlivesExactly(old(streams)[sid], now, streams[sid])
    {
      hide OutlivesExactly, Swept, ExpiredKeys, StreamReports, TableAfter;
      SweptOutlives(streams[sid], now);
      ghost var reports := StreamReports(streams[sid], sid, now);
      var expired := ReportExpired(streams[sid], now, sid);
      DropExpired(sid, now, expired);
      log := log + multiset(reports);
    }

    /** Removes the entries found expired; each that has a buffer leaves an empty one in the pool. */
    method DropExpired(sid: nat, now: int, expired: set<nat>)
      requires sid in streams && expired == ExpiredKeys(streams[sid], now)
      modifies this`streams
      ensures streams == old(streams)[sid := Swept(old(streams)[sid], now)]
    {
      var c := streams[sid];
      var kept, pool := c.inProgress, c.pool;
      var todo := expired;
      ghost var recycled: set<nat> := {};
      while todo != {}
        invariant todo <= expired
        invariant kept == c.inProgress - (expired - todo)
        invariant recycled == set idx | idx in expired - todo && c.inProgress[idx].buffer != []
        invariant pool == c.pool + Empties(|recycled|)
        decreases todo
      {
        var idx :| idx in todo;
        if kept[idx].buffer != [] {
          assert idx !in recycled;
          recycled := recycled + {idx};
          pool := pool + [[]];
        }
        kept := kept - {idx};
        todo := todo - {idx};
      }
      assert recycled == RecycledKeys(c, now);
      assert kept == c.inProgress - ExpiredKeys(c, now);
      streams := streams[sid := c.(inProgress := kept, pool := pool)];
    }

    /** Sweeps every stream, whether or not anything was received on it. */
    method SweepExpiredDeadlines(now: int)
      requires forall sid :: sid in streams ==> Unfinished(streams[sid])
      modifies this`streams, this`lost, this`log
      ensures SweepStep(old(View()), now, View()) && streams.Keys == old(streams).Keys
      ensures forall sid :: sid in streams ==> OutlivesExactly(old(streams)[sid], now, streams[sid])
    {
      hide OutlivesExactly;
      var todo := streams.Keys;
      SweepBegins(View(), now);
      while todo != {}
        invariant SweepPart(old(View()), todo, now, View())
        decreases todo
      {
        var sid :| sid in todo;
        ghost var before := View();
        SweepStream(sid, now);
        SweepGoesOn(old(View()), todo, sid, now, before, View());
        todo := todo - {sid};
      }
      SweepEnds(old(View()), now, View());
      forall sid | sid in streams
        ensures OutlivesExactly(old(streams)[sid], now, streams[sid])
      {
        SweptOutlives(old(streams)[sid], now);
      }
    }

    /** Hands out the table of losses, each index once, and empties it. */
    method FlushShardsLostDeadline() returns (ids: seq<nat>, counts: seq<int>)
      modifies this`lost
      ensures lost == map[] && |ids| == |counts| == |old(lost)|
      ensures forall id :: id in ids <==> id in old(lost)
      ensures forall k :: 0 <= k < |ids| ==> ids[k] in old(lost) && counts[k] == old(lost)[ids[k]]
      ensures forall frames :: 0 < Stride() ==> Step(frames, Stride(), old(View()), FlushLost, View())
    {
      ids, counts := [], [];
      while lost != map[]
        invariant |ids| == |counts| == |old(lost)| - |lost|
        invariant forall id :: id in lost ==> id in old(lost) && lost[id] == old(lost)[id]
        invariant forall id :: id in ids <==> id in old(lost) && id !in lost
        invariant forall k :: 0 <= k < |ids| ==> ids[k] in old(lost) && counts[k] == old(lost)[ids[k]]
        decreases |lost|
      {
        var id :| id in lost;
        ids, counts := ids + [id], counts + [lost[id]];
        assert (lost - {id}).Keys == lost.Keys - {id};
        lost := lost - {id};
      }
    }
  }

  /** A sweep with the streams `todo` still to be looked at. */
  ghost predicate SweepPart(s: SocketState, todo: set<nat>, now: int, s': SocketState) {
    && todo <= s.streams.Keys == s'.streams.Keys
    && (forall sid :: sid in todo ==> s'.streams[sid] == s.streams[sid])
    && (forall sid :: sid in s.streams && sid !in todo ==> s'.streams[sid] == Swept(s.streams[sid], now))
    && s'.arrived == s.arrived
    && s'.log == s.log + multiset(Reports(SweptPart(s.streams, todo), now))
    && TableAfter(s.lost, Reports(SweptPart(s.streams, todo), now), s'.lost)
  }

  lemma SweepBegins(s: SocketState, now: int)
    ensures SweepPart(s, s.streams.Keys, now, s)
  {
    assert SweptPart(s.streams, s.streams.Keys) == map[];
  }

  lemma SweepGoesOn(s: SocketState, todo: set<nat>, sid: nat, now: int, mid: SocketState, s': SocketState)
    requires SweepPart(s, todo, now, mid) && sid in todo
    requires s'.streams == mid.streams[sid := Swept(mid.streams[sid], now)] && s'.arrived == mid.arrived
    requires s'.log == mid.log + multiset(StreamReports(mid.streams[sid], sid, now))
    requires TableAfter(mid.lost, StreamReports(mid.streams[sid], sid, now), s'.lost)
    ensures SweepPart(s, todo - {sid}, now, s')
  {
    hide Reports, StreamReports, TableAfter, Swept, SweptPart;
    SweptOneMore(s.streams, todo, sid, now, s.lost, mid.lost, s'.lost);
    LogGrows(s.log, mid.log, s'.log, Reports(SweptPart(s.streams, todo), now), StreamReports(s.streams[sid], sid, now));
  }

  lemma LogGrows(log: multiset<Fate>, mid: multiset<Fate>, log': multiset<Fate>, before: set<Fate>, more: set<Fate>)
    requires before !! more && mid == log + multiset(before) && log' == mid + multiset(more)
    ensures log' == log + multiset(before + more)
  {
    Disjoint(before, more);
  }

  lemma Disjoint(a: set<Fate>, b: set<Fate>)
    requires a !! b
    ensures multiset(a + b) == multiset(a) + multiset(b)
  {
  }

  lemma SweepEnds(s: SocketState, now: int, s': SocketState)
    requires SweepPart(s, {}, now, s')
    ensures SweepStep(s, now, s')
  {
    assert SweptPart(s.streams, {}) == s.streams;
  }

  /** The streams already swept when `todo` are left. */
  ghost function SweptPart(streams: map<nat, StreamComponents>, todo: set<nat>): map<nat, StreamComponents> {
    streams - todo
  }

  lemma PartGrows(streams: map<nat, StreamComponents>, todo: set<nat>, sid: nat, now: int)
    requires sid in streams && sid in todo
    ensures Reports(SweptPart(streams, todo - {sid}), now)
         == Reports(SweptPart(streams, todo), now) + StreamReports(streams[sid], sid, now)
    ensures Reports(SweptPart(streams, todo), now) !! StreamReports(streams[sid], sid, now)
  {
    var less, more := SweptPart(streams, todo), SweptPart(streams, todo - {sid});
    forall f
      ensures f in Reports(more, now) <==> f in Reports(less, now) || f in StreamReports(streams[sid], sid, now)
    {
      if f in Reports(more, now) {
        var sid' :| sid' in more && f in StreamReports(more[sid'], sid', now);
        assert sid' != sid ==> sid' in less && f in StreamReports(less[sid'], sid', now);
      }
      if f in Reports(less, now) {
        var sid' :| sid' in less && f in StreamReports(less[sid'], sid', now);
        assert sid' in more && f in StreamReports(more[sid'], sid', now);
      }
      if f in StreamReports(streams[sid], sid, now) {
        assert sid in more && f in StreamReports(more[sid], sid, now);
      }
    }
  }

  lemma SweptOneMore(streams: map<nat, StreamComponents>, todo: set<nat>, sid: nat, now: int,
                     before: map<nat, int>, mid: map<nat, int>, after: map<nat, int>)
    requires sid in streams && sid in todo
    requires TableAfter(before, Reports(SweptPart(streams, todo), now), mid)
    requires TableAfter(mid, StreamReports(streams[sid], sid, now), after)
    ensures TableAfter(before, Reports(SweptPart(streams, todo - {sid}), now), after)
    ensures Reports(SweptPart(streams, todo - {sid}), now)
         == Reports(SweptPart(streams, todo), now) + StreamReports(streams[sid], sid, now)
    ensures Reports(SweptPart(streams, todo), now) !! StreamReports(streams[sid], sid, now)
  {
    TableTwice(before, Reports(SweptPart(streams, todo), now), mid, StreamReports(streams[sid], sid, now), after);
    PartGrows(streams, todo, sid, now);
  }

  lemma StreamTable(c: StreamComponents, sid: nat, now: int, before: map<nat, int>, after: map<nat, int>)
    requires var expired := ExpiredKeys(c, now);
             && (forall id :: id in after <==> id in before || id in expired)
             && (forall id :: id in after ==>
                   after[id] == if id in expired then c.inProgress[id].expected - |c.inProgress[id].received|
                                else before[id])
    ensures TableAfter(before, StreamReports(c, sid, now), after)
  {
    var reports := StreamReports(c, sid, now);
    forall id
      ensures SomeReport(reports, id) <==> id in ExpiredKeys(c, now)
      ensures id in ExpiredKeys(c, now) ==> Reported(reports, id, after[id])
    {
      if id in ExpiredKeys(c, now) {
        assert Lost(sid, id, c.inProgress[id].expected - |c.inProgress[id].received|) in reports;
      }
    }
  }

  /** Two updates of the loss table make one with both sets of reports. */
  lemma TableTwice(before: map<nat, int>, r1: set<Fate>, mid: map<nat, int>, r2: set<Fate>, after: map<nat, int>)
    requires TableAfter(before, r1, mid) && TableAfter(mid, r2, after)
    ensures TableAfter(before, r1 + r2, after)
  {
    forall id
      ensures SomeReport(r1 + r2, id) <==> SomeReport(r1, id) || SomeReport(r2, id)
      ensures forall n :: Reported(r1 + r2, id, n) <==> Reported(r1, id, n) || Reported(r2, id, n)
    {
      if SomeReport(r1, id) {
        var sid, n :| Lost(sid, id, n) in r1;
        assert Lost(sid, id, n) in r1 + r2;
      }
      if SomeReport(r2, id) {
        var sid, n :| Lost(sid, id, n) in r2;
        assert Lost(sid, id, n) in r1 + r2;
      }
      forall n
        ensures Reported(r1 + r2, id, n) <==> Reported(r1, id, n) || Reported(r2, id, n)
      {
        if Reported(r1, id, n) {
          var sid :| Lost(sid, id, n) in r1;
          assert Lost(sid, id, n) in r1 + r2;
        }
        if Reported(r2, id, n) {
          var sid :| Lost(sid, id, n) in r2;
          assert Lost(sid, id, n) in r1 + r2;
        }
      }
    }
  }
}
