/** What the video counters count: distinct shards as new, the rest as duplicates, until a frame is handed over. */
module ShardCounts {
  import opened Bytes
  import opened SerialOrder
  import opened Sharding
  import opened Reassembly
  import opened SocketRuns
  import opened StreamSocket
  import opened Accounting

  /** The shards of some headers, and those on record, as pairs of packet index and shard index. */
  function Pairs(headers: seq<Header>): set<(nat, nat)> {
    set k | 0 <= k < |headers| :: (headers[k].packetIndex, headers[k].shardIndex)
  }

  function PairsOnRecord(stats: VideoStats): set<(nat, nat)> {
    set idx, i | idx in stats.seen && i in stats.seen[idx] :: (idx, i)
  }

  function Lengths(headers: seq<Header>): nat {
    if headers == [] then 0 else Lengths(headers[..|headers| - 1]) + headers[|headers| - 1].shardLength
  }

  /** Distinct shards among the headers that were not on record before, and all the others. */
  function NewAmong(stats: VideoStats, headers: seq<Header>): nat { |Pairs(headers) - PairsOnRecord(stats)| }

  /** Equal as 32-bit counters. */
  predicate Congruent(a: int, b: int) { (a - b) % U32_MODULUS == 0 }

  /** How the counters and the record change over a stretch in which these headers were counted. */
  ghost predicate Counts(stats: VideoStats, headers: seq<Header>, stats': VideoStats) {
    var c, c', unseen := stats.counters, stats'.counters, NewAmong(stats, headers);
    && PairsOnRecord(stats') == PairsOnRecord(stats) + Pairs(headers)
    && Congruent(c'.rxBytes, c.rxBytes + Lengths(headers))
    && Congruent(c'.newShards, c.newShards + unseen)
    && Congruent(c'.duplicateShards, c.duplicateShards + |headers| - unseen)
  }

  lemma RecordGrows(stats: VideoStats, h: Header)
    ensures PairsOnRecord(Recorded(stats, h)) == PairsOnRecord(stats) + {(h.packetIndex, h.shardIndex)}
    ensures OnRecord(stats, h) <==> (h.packetIndex, h.shardIndex) in PairsOnRecord(stats)
  {
  }

  lemma PairsGrow(headers: seq<Header>, h: Header)
    ensures Pairs(headers + [h]) == Pairs(headers) + {(h.packetIndex, h.shardIndex)}
  {
    var all := headers + [h];
    forall p
      ensures p in Pairs(all) <==> p in Pairs(headers) + {(h.packetIndex, h.shardIndex)}
    {
      if p in Pairs(headers) {
        var k :| 0 <= k < |headers| && p == (headers[k].packetIndex, headers[k].shardIndex);
        assert all[k] == headers[k];
      }
      assert all[|headers|] == h;
    }
  }

  lemma NewGrows(stats: VideoStats, headers: seq<Header>, h: Header)
    ensures NewAmong(stats, headers + [h]) == NewAmong(stats, headers)
      + if (h.packetIndex, h.shardIndex) in PairsOnRecord(stats) + Pairs(headers) then 0 else 1
  {
    PairsGrow(headers, h);
    hide Pairs, PairsOnRecord;
    NewOnes(Pairs(headers), PairsOnRecord(stats), (h.packetIndex, h.shardIndex));
  }

  lemma NewOnes(a: set<(nat, nat)>, b: set<(nat, nat)>, p: (nat, nat))
    ensures |(a + {p}) - b| == |a - b| + if p in b + a then 0 else 1
  {
    if p in b + a {
      assert (a + {p}) - b == a - b;
    } else {
      assert (a + {p}) - b == (a - b) + {p};
    }
  }

  /** One more header counted. */
  lemma CountsOneMore(stats: VideoStats, headers: seq<Header>, stats': VideoStats, h: Header)
    requires Counts(stats, headers, stats')
    ensures Counts(stats, headers + [h], Recorded(stats', h))
  {
    RecordGrows(stats', h);
    PairsGrow(headers, h);
    NewGrows(stats, headers, h);
    LengthsGrow(headers, h);
    RecordedCounts(stats', h);
    hide Recorded, Pairs, PairsOnRecord, NewAmong, Lengths, OnRecord, Congruent;
    var b, c, d := stats.counters, stats'.counters, Recorded(stats', h).counters;
    var n, unseen := NewAmong(stats, headers), if OnRecord(stats', h) then 0 else 1;
    Chained(d.rxBytes, c.rxBytes, b.rxBytes + Lengths(headers), h.shardLength);
    Chained(d.newShards, c.newShards, b.newShards + n, unseen);
    Chained(d.duplicateShards, c.duplicateShards, b.duplicateShards + |headers| - n, 1 - unseen);
  }

  lemma LengthsGrow(headers: seq<Header>, h: Header)
    ensures Lengths(headers + [h]) == Lengths(headers) + h.shardLength
  {
    assert (headers + [h])[..|headers|] == headers;
  }

  lemma RecordedCounts(stats: VideoStats, h: Header)
    ensures var c, d, unseen := stats.counters, Recorded(stats, h).counters, if OnRecord(stats, h) then 0 else 1;
      && Congruent(d.rxBytes, c.rxBytes + h.shardLength)
      && Congruent(d.newShards, c.newShards + unseen)
      && Congruent(d.duplicateShards, c.duplicateShards + (1 - unseen))
  {
    hide Recorded, OnRecord;
    RecordedWeighs(stats, h);
  }

  lemma Chained(d: int, c: int, b: int, x: int)
    requires Congruent(d, c + x) && Congruent(c, b)
    ensures Congruent(d, b + x)
  {
    SumOfMultiples(d - (c + x), c - b);
  }

  lemma CountsNothing(stats: VideoStats)
    ensures Counts(stats, [], stats)
  {
    assert Pairs([]) == {} && PairsOnRecord(stats) + {} == PairsOnRecord(stats);
    assert {} - PairsOnRecord(stats) == {};
  }

  // Runs of the socket.

  /** The video header counted in a move, if one is. */
  ghost function Looked(frames: Frames, stride: nat, s: System, m: Move): seq<Header>
    requires 0 < stride
  {
    if s.pending.Some? then []
    else if m.Stall? && m.h.streamId == VIDEO_STREAM then [m.h]
    else if m.Receive? && m.e.Arrival? && FromFrames(frames, stride, m.e.tag, m.e.shardIndex)
            && m.e.tag.streamId == VIDEO_STREAM then [Announced(frames, stride, m.e.tag, m.e.shardIndex)]
    else []
  }

  ghost function LookedAt(frames: Frames, stride: nat, systems: seq<System>, moves: seq<Move>, j: nat,
                          k: nat): seq<Header>
    requires 0 < stride && j <= k <= |moves| && k <= |systems|
  {
    if j == k then [] else
    LookedAt(frames, stride, systems, moves, j, k - 1) + Looked(frames, stride, systems[k - 1], moves[k - 1])
  }

  /** A video frame is queued in the move. */
  predicate Queues(s: System, m: Move, s': System) {
    m.Receive? && m.e.Arrival? && m.e.tag.streamId == VIDEO_STREAM && |s.Queue()| < |s'.Queue()|
  }

  lemma MoveCounts(frames: Frames, stride: nat, s: System, m: Move, s': System)
    requires 0 < stride && Moves(frames, stride, s, m, s') && !Queues(s, m, s')
    ensures var looked := Looked(frames, stride, s, m);
            s'.stats == if looked == [] then s.stats else Recorded(s.stats, looked[0])
  {
    hide Step, Recorded, HandedOver, FromFrames;
  }

  /**
   * Over every run, between two hand-overs: the counter of new shards grows by the number of distinct shards looked at
   * that were not on record, the counter of duplicates by all the others, and the counter of bytes by all lengths.
   */
  lemma {:induction false} NewAndRepeated(frames: Frames, stride: nat, systems: seq<System>, moves: seq<Move>,
                                          j: nat, k: nat)
    requires 0 < stride && IsSystemRun(frames, stride, systems, moves) && j <= k < |systems|
    requires forall i :: j <= i < k ==> !Queues(systems[i], moves[i], systems[i + 1])
    ensures Counts(systems[j].stats, LookedAt(frames, stride, systems, moves, j, k), systems[k].stats)
  {
    hide Counts, Moves, Queues, Looked, Recorded;
    if j == k {
      CountsNothing(systems[j].stats);
    } else {
      NewAndRepeated(frames, stride, systems, moves, j, k - 1);
      MoveCounts(frames, stride, systems[k - 1], moves[k - 1], systems[k]);
      var before := LookedAt(frames, stride, systems, moves, j, k - 1);
      var looked := Looked(frames, stride, systems[k - 1], moves[k - 1]);
      AtMostOne(frames, stride, systems[k - 1], moves[k - 1]);
      if looked != [] {
        CountsOneMore(systems[j].stats, before, systems[k - 1].stats, looked[0]);
        assert looked == [looked[0]];
      } else {
        assert before + looked == before;
      }
    }
  }

  lemma AtMostOne(frames: Frames, stride: nat, s: System, m: Move)
    requires 0 < stride
    ensures |Looked(frames, stride, s, m)| <= 1
  {
    hide FromFrames;
  }

  /**
   * When a video frame is handed over the counters start from zero, and on unbounded frame numbers close enough
   * together exactly the shards of frames more than five behind it are forgotten.
   */
  lemma ForgetsExactly(stats: VideoStats, number: nat, arriving: nat)
    requires number % U32_MODULUS in stats.seen && -0x8000_0001 <= number + 5 - arriving <= 0x7FFF_FFFE
    ensures var after := HandedOver(stats, arriving % U32_MODULUS);
      && after.counters == Counters(0, 0, 0)
      && (number % U32_MODULUS in after.seen <==> arriving <= number + 5)
      && (number % U32_MODULUS in after.seen ==> after.seen[number % U32_MODULUS] == stats.seen[number % U32_MODULUS])
  {
    assert WrappingAdd(number % U32_MODULUS, 5) == (number + 5) % U32_MODULUS;
    AgreesWithIntegers(number + 5, arriving);
  }
}
