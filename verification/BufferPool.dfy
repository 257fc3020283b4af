/** Reassembly buffers of a stream: a frame's buffer comes from the pool and one goes back, so none is ever lost. */
module BufferPool {
  import opened Bytes
  import opened SerialOrder
  import opened Sharding
  import opened Reassembly
  import opened SocketRuns
  import opened FrameFate

  /** Buffers in the pool and in use. */
  function Buffers(c: StreamComponents): nat { |c.pool| + |c.inProgress| }

  /** A frame without an entry finds the pool empty and nothing to recycle. */
  predicate Allocates(c: StreamComponents, idx: nat) {
    idx !in c.inProgress && c.pool == [] && forall k :: k in c.inProgress ==> !Recyclable(k, idx)
  }

  lemma OpeningBuffers(c: StreamComponents, idx: nat, expected: nat, deadline: Option<int>, victim: Option<nat>)
    requires LegalVictim(c, idx, victim)
    ensures var o := Opened(c, idx, expected, deadline, victim);
            Buffers(o) == Buffers(c) + if Allocates(c, idx) then 1 else 0
  {
    AllocatesIs(c, idx, victim);
    hide Allocates, Recyclable;
    var o := Opened(c, idx, expected, deadline, victim);
    if idx !in c.inProgress {
      if c.pool == [] && victim.Some? {
        Exchanged(c.inProgress, victim.value, idx, o.inProgress[idx]);
      } else {
        OneMore(c.inProgress, idx, o.inProgress[idx]);
      }
    }
  }

  lemma AllocatesIs(c: StreamComponents, idx: nat, victim: Option<nat>)
    requires LegalVictim(c, idx, victim)
    ensures Allocates(c, idx) <==> idx !in c.inProgress && c.pool == [] && victim.None?
  {
    hide Recyclable;
  }

  lemma OneMore<V>(m: map<nat, V>, k: nat, v: V)
    requires k !in m
    ensures |m[k := v]| == |m| + 1
  {
    assert m[k := v].Keys == m.Keys + {k};
  }

  lemma Exchanged<V>(m: map<nat, V>, gone: nat, k: nat, v: V)
    requires gone in m && k !in m
    ensures |(m - {gone})[k := v]| == |m|
  {
    assert (m - {gone}).Keys == m.Keys - {gone};
    OneMore(m - {gone}, k, v);
  }

  lemma FinishingBuffers(c: StreamComponents, idx: nat, e: InProgressPacket, n: nat, counters: Counters)
    requires idx in c.inProgress
    ensures Buffers(Finished(c.(inProgress := c.inProgress[idx := e]), idx, n, counters)) == Buffers(c)
  {
    var d := c.(inProgress := c.inProgress[idx := e]);
    assert d.inProgress.Keys == c.inProgress.Keys;
    assert (d.inProgress - {idx}).Keys == c.inProgress.Keys - {idx};
  }

  /** An arrival adds a buffer exactly if it has to allocate one. */
  lemma ArrivalBuffers(c: StreamComponents, h: Header, shard: seq<Byte>, stride: nat, deadline: Option<int>,
                       victim: Option<nat>, counters: Counters)
    requires SHARD_PREFIX_SIZE <= |shard| && LegalVictim(c, h.packetIndex, victim)
    ensures Buffers(Arrive(c, h, shard, stride, deadline, victim, counters))
         == Buffers(c) + if Allocates(c, h.packetIndex) then 1 else 0
  {
    hide Store, Opened, Finished, Allocates, LegalVictim;
    OpeningBuffers(c, h.packetIndex, h.shardsCount, deadline, victim);
    var o := Opened(c, h.packetIndex, h.shardsCount, deadline, victim);
    var e := Store(o.inProgress[h.packetIndex], h.shardIndex, shard, stride);
    FinishingBuffers(o, h.packetIndex, e, h.shardsCount, counters);
  }

  /** A sweep moves buffers to the pool. */
  lemma SweepBuffers(c: StreamComponents, now: int)
    requires forall idx :: idx in c.inProgress ==> c.inProgress[idx].buffer != []
    ensures Buffers(Swept(c, now)) == Buffers(c)
  {
    assert RecycledKeys(c, now) == ExpiredKeys(c, now) <= c.inProgress.Keys;
    assert Swept(c, now).inProgress.Keys == c.inProgress.Keys - ExpiredKeys(c, now);
  }

  /** Every frame in progress has bytes in its buffer. */
  lemma BuffersInUse(frames: Frames, stride: nat, s: SocketState, sid: nat, idx: nat)
    requires 0 < stride && Inv(frames, stride, s) && Entry(s, sid, idx)
    ensures s.streams[sid].inProgress[idx].buffer != []
  {
    assert StreamInv(s.streams[sid], if sid in frames then frames[sid] else map[], stride);
    var en, frame := s.streams[sid].inProgress[idx], frames[sid][idx];
    var i :| i in en.received && ShardEnd(|frame|, stride, i) == en.bufferLength;
    ShardInRange(|frame|, stride, i);
  }

  /** What an event adds to the buffers of a stream: one allocated, or one handed back by the reader. */
  function Added(s: SocketState, e: Event, sid: nat): nat {
    if e.Recycle? && e.streamId == sid then 1
    else if e.Arrival? && e.tag.streamId == sid && sid in s.streams then
      if Allocates(s.streams[sid], e.tag.packetIndex) then 1 else 0
    else 0
  }

  lemma StepBuffers(frames: Frames, stride: nat, s: SocketState, e: Event, s': SocketState, sid: nat)
    requires 0 < stride && Inv(frames, stride, s) && Step(frames, stride, s, e, s') && sid in s.streams
    requires !(e.Subscribe? && e.streamId == sid)
    ensures sid in s'.streams && Buffers(s'.streams[sid]) == Buffers(s.streams[sid]) + Added(s, e, sid)
  {
    if e.Arrival? {
      ArrivalStepBuffers(frames, stride, s, e, s', sid);
    } else {
      hide Inv, Buffers;
      if e.Sweep? {
        SweptBuffers(frames, stride, s, e.now, s', sid);
      } else {
        QuietBuffers(frames, stride, s, e, s', sid);
      }
    }
  }

  lemma QuietBuffers(frames: Frames, stride: nat, s: SocketState, e: Event, s': SocketState, sid: nat)
    requires 0 < stride && Step(frames, stride, s, e, s') && sid in s.streams && !e.Arrival? && !e.Sweep?
    requires !(e.Subscribe? && e.streamId == sid)
    ensures sid in s'.streams && Buffers(s'.streams[sid]) == Buffers(s.streams[sid]) + Added(s, e, sid)
  {
    hide Allocates;
  }

  lemma ArrivalStepBuffers(frames: Frames, stride: nat, s: SocketState, e: Event, s': SocketState, sid: nat)
    requires 0 < stride && Inv(frames, stride, s) && Step(frames, stride, s, e, s') && sid in s.streams && e.Arrival?
    ensures sid in s'.streams && Buffers(s'.streams[sid]) == Buffers(s.streams[sid]) + Added(s, e, sid)
  {
    hide Inv, SweepStep, ArrivedStream, ShardCount, Allocates, NewFates, Buffers, LegalVictim;
    var mid :| ArrivalStep(s, frames, stride, e, mid) && SweepStep(mid, e.now, s');
    hide Step;
    ArrivalKeepsInv(frames, stride, s, e, mid);
    if e.tag.streamId == sid {
      StreamArrives(frames, stride, s, e, mid);
    }
    SweptBuffers(frames, stride, mid, e.now, s', sid);
  }

  lemma StreamArrives(frames: Frames, stride: nat, s: SocketState, e: Event, mid: SocketState)
    requires 0 < stride && e.Arrival? && FromFrames(frames, stride, e.tag, e.shardIndex)
    requires ArrivalStep(s, frames, stride, e, mid)
    ensures var c := s.streams[e.tag.streamId];
            Buffers(mid.streams[e.tag.streamId]) == Buffers(c) + if Allocates(c, e.tag.packetIndex) then 1 else 0
  {
    hide Arrive, Allocates, ShardCount, NewFates, LegalVictim, Shard;
    var frame := frames[e.tag.streamId][e.tag.packetIndex];
    ShardBody(e.tag, frame, stride, e.shardIndex);
    ShardInRange(|frame|, stride, e.shardIndex);
    ArrivalBuffers(s.streams[e.tag.streamId],
                   Header(ShardLength(|frame|, stride, e.shardIndex), e.tag.streamId, e.tag.packetIndex,
                          ShardCount(|frame|, stride), e.shardIndex, e.tag.stamp),
                   Shard(e.tag, frame, stride, e.shardIndex), stride, e.deadline, e.victim, e.counters);
  }

  lemma SweptBuffers(frames: Frames, stride: nat, s: SocketState, now: int, s': SocketState, sid: nat)
    requires 0 < stride && Inv(frames, stride, s) && SweepStep(s, now, s') && sid in s.streams
    ensures sid in s'.streams && Buffers(s'.streams[sid]) == Buffers(s.streams[sid])
  {
    forall idx | idx in s.streams[sid].inProgress
      ensures s.streams[sid].inProgress[idx].buffer != []
    {
      BuffersInUse(frames, stride, s, sid, idx);
    }
    hide Inv, Reports, TableAfter, Swept, Buffers;
    SweepBuffers(s.streams[sid], now);
  }

  function AddedUpTo(states: seq<SocketState>, events: seq<Event>, j: nat, k: nat, sid: nat): nat
    requires j <= k <= |events| && k <= |states|
  {
    if j == k then 0 else AddedUpTo(states, events, j, k - 1, sid) + Added(states[k - 1], events[k - 1], sid)
  }

  lemma SubscribedBuffers(frames: Frames, stride: nat, s: SocketState, e: Event, s': SocketState)
    requires 0 < stride && Step(frames, stride, s, e, s') && e.Subscribe?
    ensures e.streamId in s'.streams && Buffers(s'.streams[e.streamId]) == e.buffers
  {
  }

  /**
   * Over every run: from a subscription on, the buffers of a stream are those it was given, plus one for each
   * allocation and each one handed back. None is lost, through completion, recycling or deadlines.
   */
  lemma {:induction false} BuffersAreKept(frames: Frames, stride: nat, states: seq<SocketState>, events: seq<Event>,
                                          j: nat, k: nat, sid: nat)
    requires 0 < stride && IsRun(frames, stride, states, events) && j < k <= |events|
    requires events[j].Subscribe? && events[j].streamId == sid
    requires forall m :: j < m < k ==> !(events[m].Subscribe? && events[m].streamId == sid)
    ensures sid in states[k].streams
    ensures Buffers(states[k].streams[sid]) == events[j].buffers + AddedUpTo(states, events, j + 1, k, sid)
  {
    hide Step, Inv, Buffers, Added, Faithful;
    if k == j + 1 {
      SubscribedBuffers(frames, stride, states[j], events[j], states[j + 1]);
    } else {
      BuffersAreKept(frames, stride, states, events, j, k - 1, sid);
      EveryRunIsFaithful(frames, stride, states, events, k - 1);
      StepBuffers(frames, stride, states[k - 1], events[k - 1], states[k], sid);
    }
  }

  /** On frame numbers close enough together: only a frame more than five behind the arriving one is ever evicted. */
  lemma EvictedIsOld(c: StreamComponents, number: nat, arriving: nat, victim: Option<nat>)
    requires LegalVictim(c, arriving % U32_MODULUS, victim)
    requires 5 <= arriving && -0x8000_0001 <= number - (arriving - 5) <= 0x7FFF_FFFE
    requires TakenOver(c, arriving % U32_MODULUS, victim, number % U32_MODULUS)
    ensures number + 5 < arriving && number % U32_MODULUS in c.inProgress && c.pool == []
  {
    RecyclableExactly(number, arriving);
  }
}
