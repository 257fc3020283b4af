/**
 * What repeated shards do: a frame that is completed and then reported lost, and the exact way there. A shard of a
 * frame without an entry opens one, and at its deadline the frame is reported lost, completed before or not.
 */
module RepeatedShards {
  import opened Bytes
  import opened Sharding
  import opened Reassembly
  import opened SocketRuns
  import opened FrameFate
  import opened Deadlines

  /** What can save an entry: a shard of its frame, recycling its buffer, or starting the stream over. */
  ghost predicate Touches(e: Event, sid: nat, idx: nat) {
    || (e.Arrival? && e.tag.streamId == sid && (e.tag.packetIndex == idx || e.victim == Some(idx)))
    || (e.Subscribe? && e.streamId == sid)
  }

  /** A shard of frame (sid, idx), which has n shards and no entry, arrives with deadline `deadline`. */
  ghost predicate Opens(frames: Frames, stride: nat, s: SocketState, e: Event, sid: nat, idx: nat, n: nat,
                        deadline: int)
    requires 0 < stride
  {
    && e.Arrival? && FromFrames(frames, stride, e.tag, e.shardIndex)
    && e.tag.streamId == sid && e.tag.packetIndex == idx && e.deadline == Some(deadline)
    && !Entry(s, sid, idx) && n == ShardCount(|frames[sid][idx]|, stride) >= 2
  }

  /** The first event from `j` on that sweeps when the deadline is due. */
  lemma {:induction false} FirstSweep(events: seq<Event>, j: nat, k: nat, deadline: Option<int>) returns (m: nat)
    requires j <= k < |events| && SweepsWhenDue(events[k], deadline)
    ensures j <= m <= k && SweepsWhenDue(events[m], deadline)
    ensures forall i :: j <= i < m ==> !SweepsWhenDue(events[i], deadline)
    decreases k - j
  {
    if SweepsWhenDue(events[j], deadline) {
      m := j;
    } else {
      m := FirstSweep(events, j + 1, k, deadline);
    }
  }

  lemma {:induction false} LogGrows(frames: Frames, stride: nat, states: seq<SocketState>, events: seq<Event>, m: nat,
                                    k: nat)
    requires 0 < stride && IsRun(frames, stride, states, events) && m <= k < |states|
    ensures states[m].log <= states[k].log
  {
    hide Step;
    if m < k {
      LogGrows(frames, stride, states, events, m, k - 1);
      StepGrows(frames, stride, states[k - 1], events[k - 1], states[k]);
    }
  }

  lemma StepGrows(frames: Frames, stride: nat, s: SocketState, e: Event, s': SocketState)
    requires 0 < stride && Step(frames, stride, s, e, s')
    ensures s.log <= s'.log
  {
    hide Reports, NewFates, ArrivedStream, TableAfter;
  }

  /** Until something touches the frame, its first shard stays the only one, and nothing evicts it. */
  lemma OnlyFirst(frames: Frames, stride: nat, states: seq<SocketState>, events: seq<Event>, j: nat, m: nat, sid: nat,
                  idx: nat)
    requires 0 < stride && IsRun(frames, stride, states, events) && j <= m < |events|
    requires IsShardOf(events[j], sid, idx) && forall i :: j < i <= m ==> !Touches(events[i], sid, idx)
    ensures Got(events, j, m + 1, sid, idx) == {events[j].shardIndex}
    ensures forall i :: j <= i <= m ==> !Evicts(states[i], events[i], sid, idx)
  {
    hide Step;
  }

  /**
   * A shard of a frame that has no entry, be it completed or given up, opens one; unless another shard of the frame
   * follows or the buffer is recycled, the first sweep at or after its deadline reports the frame lost.
   */
  lemma LateShardIsReportedLost(frames: Frames, stride: nat, states: seq<SocketState>, events: seq<Event>, j: nat,
                                k: nat, sid: nat, idx: nat, n: nat, deadline: int)
    requires 0 < stride && IsRun(frames, stride, states, events) && j <= k < |events|
    requires Opens(frames, stride, states[j], events[j], sid, idx, n, deadline)
    requires SweepsWhenDue(events[k], Some(deadline)) && forall m :: j < m <= k ==> !Touches(events[m], sid, idx)
    ensures Lost(sid, idx, n - 1) in states[k + 1].log
  {
    hide Step, Entry, SweepsWhenDue, ShardCount, Got, Touches, Evicts;
    var m := FirstSweep(events, j, k, Some(deadline));
    OnlyFirst(frames, stride, states, events, j, m, sid, idx);
    LateIsLost(frames, stride, states, events, j, m, sid, idx);
    LogGrows(frames, stride, states, events, m + 1, k + 1);
  }

  // ---------------------------------------------------------------------------------------------------------------
  // A run with both fates
  // ---------------------------------------------------------------------------------------------------------------

  ghost function ReportFor(reports: set<Fate>, id: nat): int
    requires SomeReport(reports, id)
  {
    var sid, shards :| Lost(sid, id, shards) in reports;
    shards
  }

  /** A sweep can always be made. */
  lemma SweepExists(s: SocketState, now: int) returns (s': SocketState)
    ensures SweepStep(s, now, s')
  {
    var reports := Reports(s.streams, now);
    var ids := set f | f in reports && f.Lost? :: f.packetIndex;
    var lost := map id | id in s.lost.Keys + ids ::
      if SomeReport(reports, id) then ReportFor(reports, id) else s.lost[id];
    s' := SocketState(SweptStreams(s.streams, now), lost, s.log + multiset(reports), s.arrived);
    forall id
      ensures SomeReport(reports, id) <==> id in ids
    {
      if SomeReport(reports, id) {
        var sid, shards :| Lost(sid, id, shards) in reports;
      }
      if id in ids {
        var f :| f in reports && f.Lost? && f.packetIndex == id;
        assert Lost(f.streamId, id, f.shards) in reports;
      }
    }
  }

  lemma VictimExists(c: StreamComponents, idx: nat) returns (victim: Option<nat>)
    ensures LegalVictim(c, idx, victim)
  {
    if v :| v in c.inProgress && Recyclable(v, idx) {
      victim := Some(v);
    } else {
      victim := None;
    }
  }

  /** Any shard a sender of `frames` sent can arrive on a subscribed stream. */
  lemma ArrivalExists(frames: Frames, stride: nat, s: SocketState, tag: FrameTag, i: nat, now: int,
                      deadline: Option<int>)
    returns (e: Event, s': SocketState)
    requires 0 < stride && FromFrames(frames, stride, tag, i) && tag.streamId in s.streams
    ensures e.Arrival? && e.tag == tag && e.shardIndex == i && e.now == now && e.deadline == deadline
    ensures Step(frames, stride, s, e, s')
  {
    hide ShardCount;
    var sid := tag.streamId;
    var victim := VictimExists(s.streams[sid], tag.packetIndex);
    e := Arrival(tag, i, now, deadline, victim, Counters(0, 0, 0));
    var c := ArrivedStream(s.streams[sid], frames[sid][tag.packetIndex], stride, tag, i, deadline, victim,
                           Counters(0, 0, 0));
    var mid := SocketState(s.streams[sid := c], s.lost, s.log + multiset(NewFates(sid, s.streams[sid], c)),
                           s.arrived + {(sid, tag.packetIndex, i)});
    assert ArrivalStep(s, frames, stride, e, mid);
    s' := SweepExists(mid, now);
  }

  /** A frame of two shards: the first arrives, the second completes it ... */
  lemma CompletesFirst(frames: Frames, stride: nat, tag: FrameTag, sid: nat, idx: nat)
    returns (s1: SocketState, e1: Event, s2: SocketState, e2: Event, s3: SocketState)
    requires 0 < stride && FromFrames(frames, stride, tag, 0) && FromFrames(frames, stride, tag, 1)
    requires tag.streamId == sid && tag.packetIndex == idx && ShardCount(|frames[sid][idx]|, stride) == 2
    ensures Step(frames, stride, EMPTY_SOCKET, Subscribe(sid, 0), s1) && Step(frames, stride, s1, e1, s2)
    ensures Step(frames, stride, s2, e2, s3) && Ready(frames, stride, s3, sid)
    ensures !Entry(s3, sid, idx) && WasCompleted(s3, sid, idx)
  {
    hide ShardCount, Step, Entry, WasCompleted, FromFrames, OfTwo, HasFirst, Ready;
    s1 := SubscribeFirst(frames, stride, sid, idx);
    e1, s2 := NextOfTwo(frames, stride, s1, tag, sid, idx, 0, None);
    FirstShard(frames, stride, s1, e1, s2, sid, idx);
    e2, s3 := NextOfTwo(frames, stride, s2, tag, sid, idx, 1, None);
    SecondShard(frames, stride, s2, e2, s3, sid, idx);
  }

  /** ... and the first once more has it reported lost. */
  lemma CompletedAndLost(frames: Frames, stride: nat, tag: FrameTag)
    returns (states: seq<SocketState>, events: seq<Event>)
    requires 0 < stride && FromFrames(frames, stride, tag, 1)
    requires ShardCount(|frames[tag.streamId][tag.packetIndex]|, stride) == 2
    ensures IsRun(frames, stride, states, events)
    ensures BothFates(states[|states| - 1], tag.streamId, tag.packetIndex)
  {
    var sid, idx := tag.streamId, tag.packetIndex;
    assert FromFrames(frames, stride, tag, 0);
    hide ShardCount, Step, Entry, WasCompleted, WasLost, OfTwo, Ready, FromFrames;
    var s1, e1, s2, e2, s3 := CompletesFirst(frames, stride, tag, sid, idx);
    var e3, s4 := NextOfTwo(frames, stride, s3, tag, sid, idx, 0, Some(0));
    RepeatedShard(frames, stride, s3, e3, s4, sid, idx);
    states, events := FourSteps(frames, stride, Subscribe(sid, 0), s1, e1, s2, e2, s3, e3, s4);
  }

  ghost predicate BothFates(s: SocketState, sid: nat, idx: nat) { WasCompleted(s, sid, idx) && WasLost(s, sid, idx) }

  /** The arrival is of shard `i` of a two-shard frame. */
  ghost predicate OfTwo(frames: Frames, stride: nat, e: Event, sid: nat, idx: nat, i: nat, deadline: Option<int>)
    requires 0 < stride
  {
    && e.Arrival? && e.tag.streamId == sid && e.tag.packetIndex == idx && e.shardIndex == i
    && e.deadline == deadline && e.now == 0
    && sid in frames && idx in frames[sid] && ShardCount(|frames[sid][idx]|, stride) == 2
  }

  ghost predicate Ready(frames: Frames, stride: nat, s: SocketState, sid: nat)
    requires 0 < stride
  {
    Inv(frames, stride, s) && sid in s.streams
  }

  ghost predicate HasFirst(s: SocketState, sid: nat, idx: nat) {
    Entry(s, sid, idx) && s.streams[sid].inProgress[idx].received == {0}
  }

  lemma NextOfTwo(frames: Frames, stride: nat, s: SocketState, tag: FrameTag, sid: nat, idx: nat, i: nat,
                  deadline: Option<int>)
    returns (e: Event, s': SocketState)
    requires 0 < stride && FromFrames(frames, stride, tag, i) && tag.streamId == sid && tag.packetIndex == idx
    requires Ready(frames, stride, s, sid) && ShardCount(|frames[sid][idx]|, stride) == 2
    ensures OfTwo(frames, stride, e, sid, idx, i, deadline) && Step(frames, stride, s, e, s')
         && Ready(frames, stride, s', sid)
  {
    hide ShardCount, Inv, Step;
    e, s' := ArrivalExists(frames, stride, s, tag, i, 0, deadline);
    StepKeepsInv(frames, stride, s, e, s');
    var mid := Middle(frames, stride, s, e, s');
    hide SweepStep, ArrivalKept, Progress, QueueGrows, NewFates;
  }

  lemma FourSteps(frames: Frames, stride: nat, e0: Event, s1: SocketState, e1: Event, s2: SocketState, e2: Event,
                  s3: SocketState, e3: Event, s4: SocketState)
    returns (states: seq<SocketState>, events: seq<Event>)
    requires 0 < stride && Step(frames, stride, EMPTY_SOCKET, e0, s1) && Step(frames, stride, s1, e1, s2)
    requires Step(frames, stride, s2, e2, s3) && Step(frames, stride, s3, e3, s4)
    ensures IsRun(frames, stride, states, events) && states[|states| - 1] == s4
  {
    hide Step;
    states, events := [EMPTY_SOCKET, s1, s2, s3, s4], [e0, e1, e2, e3];
  }

  lemma SubscribeFirst(frames: Frames, stride: nat, sid: nat, idx: nat) returns (s1: SocketState)
    requires 0 < stride
    ensures Step(frames, stride, EMPTY_SOCKET, Subscribe(sid, 0), s1) && Ready(frames, stride, s1, sid)
         && !Entry(s1, sid, idx)
  {
    s1 := EMPTY_SOCKET.(streams := map[sid := StreamComponents([], [], map[])]);
    assert Empties(0) == [];
  }

  lemma FirstShard(frames: Frames, stride: nat, s: SocketState, e: Event, s': SocketState, sid: nat, idx: nat)
    requires 0 < stride && Ready(frames, stride, s, sid) && Step(frames, stride, s, e, s')
    requires OfTwo(frames, stride, e, sid, idx, 0, None) && !Entry(s, sid, idx)
    ensures HasFirst(s', sid, idx)
  {
    hide ShardCount, Inv, SweepStep, Step, FromFrames;
    var mid := Middle(frames, stride, s, e, s');
    assert ReceivedOf(s.streams[sid], idx) + {0} == {0};
    SweepEntries(mid, e.now, s', sid, idx);
    hide QueueGrows, NewFates;
  }

  lemma SecondShard(frames: Frames, stride: nat, s: SocketState, e: Event, s': SocketState, sid: nat, idx: nat)
    requires 0 < stride && Ready(frames, stride, s, sid) && Step(frames, stride, s, e, s')
    requires OfTwo(frames, stride, e, sid, idx, 1, None) && HasFirst(s, sid, idx)
    ensures !Entry(s', sid, idx) && WasCompleted(s', sid, idx)
  {
    assert |ReceivedOf(s.streams[sid], idx) + {1}| == |{0, 1}| == 2;
    hide ShardCount, Inv, SweepStep, Step, FromFrames, ReceivedOf;
    var mid := Middle(frames, stride, s, e, s');
    var added := ArrivalLogs(frames, stride, s, mid, sid, idx, 1);
    hide ArrivalEffect, ArrivalKept;
    assert added[0] in mid.log;
    SweepEntries(mid, e.now, s', sid, idx);
    SweepReports(mid, e.now, s', added[0]);
    hide Entry;
  }

  lemma RepeatedShard(frames: Frames, stride: nat, s: SocketState, e: Event, s': SocketState, sid: nat, idx: nat)
    requires 0 < stride && Ready(frames, stride, s, sid) && Step(frames, stride, s, e, s')
    requires OfTwo(frames, stride, e, sid, idx, 0, Some(0)) && !Entry(s, sid, idx) && WasCompleted(s, sid, idx)
    ensures WasCompleted(s', sid, idx) && WasLost(s', sid, idx)
  {
    hide Inv, SweepStep, Step, ArrivalKept, Entry, ShardCount;
    var mid := Middle(frames, stride, s, e, s');
    assert With(e, sid, idx, {}) == {0};
    GivesUp(frames, stride, s, e, s', sid, idx, {}, 2, Some(0));
    assert Loses(Lost(sid, idx, 1), sid, idx);
    var f :| f in s.log && Completes(f, sid, idx);
    assert f in mid.log;
    SweepReports(mid, e.now, s', f);
  }
}
