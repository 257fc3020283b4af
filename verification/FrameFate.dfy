/**
 * What becomes of a frame: whether it is completed at most once and never both completed and reported lost. A step
 * of the socket keeps that exactly unless its shard belongs to a completed frame, or completes one reported lost;
 * a network that delivers each shard at most once never sends such a shard.
 */
module FrameFate {
  import opened Bytes
  import opened Sharding
  import opened Reassembly
  import opened SocketRuns

  ghost predicate Entry(s: SocketState, sid: nat, idx: nat) {
    sid in s.streams && idx in s.streams[sid].inProgress
  }

  predicate Completes(f: Fate, sid: nat, idx: nat) { f.Completed? && f.streamId == sid && f.packet.index == idx }

  predicate Loses(f: Fate, sid: nat, idx: nat) { f.Lost? && f.streamId == sid && f.packetIndex == idx }

  ghost predicate WasCompleted(s: SocketState, sid: nat, idx: nat) { exists f :: f in s.log && Completes(f, sid, idx) }

  ghost predicate WasLost(s: SocketState, sid: nat, idx: nat) { exists f :: f in s.log && Loses(f, sid, idx) }

  /** A completed frame is completed once, is not reported lost, and has no entry from which it still could be. */
  ghost predicate Final(s: SocketState, f: Fate)
    requires f.Completed?
  {
    var sid, idx := f.streamId, f.packet.index;
    && s.log[f] == 1 && !Entry(s, sid, idx)
    && (forall g :: g in s.log && g != f ==> !Completes(g, sid, idx) && !Loses(g, sid, idx))
  }

  ghost predicate OneFate(s: SocketState) {
    forall f :: f in s.log && f.Completed? ==> Final(s, f)
  }

  // ---------------------------------------------------------------------------------------------------------------
  // One step
  // ---------------------------------------------------------------------------------------------------------------

  /** The shard is the last one its frame's entry lacks. */
  ghost predicate Fills(frames: Frames, stride: nat, s: SocketState, e: Event)
    requires 0 < stride && e.Arrival? && FromFrames(frames, stride, e.tag, e.shardIndex)
  {
    e.tag.streamId in s.streams
    && |ReceivedOf(s.streams[e.tag.streamId], e.tag.packetIndex) + {e.shardIndex}|
       == ShardCount(|frames[e.tag.streamId][e.tag.packetIndex]|, stride)
  }

  /** A shard of a completed frame, or one that completes a frame reported lost. */
  ghost predicate Spoils(frames: Frames, stride: nat, s: SocketState, e: Event)
    requires 0 < stride
  {
    && e.Arrival? && FromFrames(frames, stride, e.tag, e.shardIndex)
    && var sid, idx := e.tag.streamId, e.tag.packetIndex;
       WasCompleted(s, sid, idx) || (Fills(frames, stride, s, e) && WasLost(s, sid, idx))
  }

  /** What an arrival does to the entries, the log and the shards that count as arrived. */
  ghost predicate ArrivalEffect(frames: Frames, stride: nat, s: SocketState, mid: SocketState, sid: nat, idx: nat,
                                i: nat)
    requires 0 < stride
  {
    && sid in s.streams && sid in frames && idx in frames[sid] && i < ShardCount(|frames[sid][idx]|, stride)
    && mid.arrived == s.arrived + {(sid, idx, i)}
    && mid.streams.Keys == s.streams.Keys
    && (forall sid' :: sid' in s.streams && sid' != sid ==> mid.streams[sid'] == s.streams[sid'])
    && Progress(s.streams[sid], mid.streams[sid], idx, i, ShardCount(|frames[sid][idx]|, stride))
    && QueueGrows(s.streams[sid], mid.streams[sid], idx, frames[sid][idx])
    && mid.log == s.log + multiset(NewFates(sid, s.streams[sid], mid.streams[sid]))
  }

  ghost predicate ArrivalKept(s: SocketState, mid: SocketState, sid: nat, idx: nat, deadline: Option<int>,
                              victim: Option<nat>)
  {
    sid in s.streams && sid in mid.streams && Kept(s.streams[sid], mid.streams[sid], idx, deadline, victim)
  }

  lemma ArrivalHasEffect(frames: Frames, stride: nat, s: SocketState, e: Event, mid: SocketState)
    requires 0 < stride && Inv(frames, stride, s) && e.Arrival?
    requires FromFrames(frames, stride, e.tag, e.shardIndex) && ArrivalStep(s, frames, stride, e, mid)
    ensures ArrivalEffect(frames, stride, s, mid, e.tag.streamId, e.tag.packetIndex, e.shardIndex)
    ensures ArrivalKept(s, mid, e.tag.streamId, e.tag.packetIndex, e.deadline, e.victim)
  {
    var sid, idx := e.tag.streamId, e.tag.packetIndex;
    StreamHolds(frames, stride, s, sid);
    hide Inv, ArrivedStream, StreamInv, QueueGrows, Progress, NewFates, Kept, LegalVictim, ShardCount;
    ArriveKeeps(s.streams[sid], frames[sid], stride, e.tag, e.shardIndex, e.deadline, e.victim, e.counters);
    var c' := ArrivedStream(s.streams[sid], frames[sid][idx], stride, e.tag, e.shardIndex, e.deadline, e.victim,
                            e.counters);
    EffectOf(frames, stride, s, sid, idx, e.shardIndex, c', mid);
  }

  lemma StreamHolds(frames: Frames, stride: nat, s: SocketState, sid: nat)
    requires 0 < stride && Inv(frames, stride, s) && sid in s.streams && sid in frames
    ensures StreamInv(s.streams[sid], frames[sid], stride)
  {
    hide StreamInv, FateInv, Logged;
  }

  lemma EffectOf(frames: Frames, stride: nat, s: SocketState, sid: nat, idx: nat, i: nat, c': StreamComponents,
                 mid: SocketState)
    requires 0 < stride && sid in s.streams && sid in frames && idx in frames[sid]
          && i < ShardCount(|frames[sid][idx]|, stride)
    requires Progress(s.streams[sid], c', idx, i, ShardCount(|frames[sid][idx]|, stride))
    requires QueueGrows(s.streams[sid], c', idx, frames[sid][idx])
    requires mid.streams == s.streams[sid := c'] && mid.arrived == s.arrived + {(sid, idx, i)}
    requires mid.log == s.log + multiset(NewFates(sid, s.streams[sid], c'))
    ensures ArrivalEffect(frames, stride, s, mid, sid, idx, i)
  {
    hide QueueGrows, Progress, NewFates, ShardCount;
  }

  /** The log after an arrival: the frame's completion is added, or the frame has an entry and nothing is added. */
  lemma ArrivalLogs(frames: Frames, stride: nat, s: SocketState, mid: SocketState, sid: nat, idx: nat, i: nat)
    returns (added: seq<Fate>)
    requires 0 < stride && ArrivalEffect(frames, stride, s, mid, sid, idx, i)
    ensures mid.log == s.log + multiset(added)
    ensures forall sid', idx' :: Entry(mid, sid', idx') && (sid' != sid || idx' != idx) ==> Entry(s, sid', idx')
    ensures if |ReceivedOf(s.streams[sid], idx) + {i}| == ShardCount(|frames[sid][idx]|, stride)
      then |added| == 1 && Completes(added[0], sid, idx) && !Entry(mid, sid, idx)
      else added == [] && Entry(mid, sid, idx)
  {
    NewFatesCases(sid, s.streams[sid], mid.streams[sid], idx, frames[sid][idx]);
    added := NewFates(sid, s.streams[sid], mid.streams[sid]);
    hide NewFates, QueueGrows, ShardCount, ReceivedOf;
  }

  lemma ArrivalKeepsFateExactly(frames: Frames, stride: nat, s: SocketState, mid: SocketState, sid: nat, idx: nat,
                                i: nat)
    requires 0 < stride && OneFate(s) && ArrivalEffect(frames, stride, s, mid, sid, idx, i)
    ensures var fills := |ReceivedOf(s.streams[sid], idx) + {i}| == ShardCount(|frames[sid][idx]|, stride);
      OneFate(mid) <==> !WasCompleted(s, sid, idx) && !(fills && WasLost(s, sid, idx))
  {
    var added := ArrivalLogs(frames, stride, s, mid, sid, idx, i);
    var fills := |ReceivedOf(s.streams[sid], idx) + {i}| == ShardCount(|frames[sid][idx]|, stride);
    hide ArrivalEffect, Entry, ShardCount, ReceivedOf;
    if fills {
      CompletionExactly(s, mid, sid, idx, added[0]);
    } else {
      EntryExactly(s, mid, sid, idx);
    }
  }

  /** Completing a frame leaves one fate exactly if it had none. */
  lemma CompletionExactly(s: SocketState, mid: SocketState, sid: nat, idx: nat, f: Fate)
    requires OneFate(s) && mid.log == s.log + multiset([f]) && Completes(f, sid, idx) && !Entry(mid, sid, idx)
    requires forall sid', idx' :: Entry(mid, sid', idx') && (sid' != sid || idx' != idx) ==> Entry(s, sid', idx')
    ensures OneFate(mid) <==> !WasCompleted(s, sid, idx) && !WasLost(s, sid, idx)
  {
    hide Entry;
    assert forall g :: g in mid.log <==> g in s.log || g == f;
    if WasCompleted(s, sid, idx) || WasLost(s, sid, idx) {
      var g :| g in s.log && (Completes(g, sid, idx) || Loses(g, sid, idx));
      assert g in mid.log && (g == f ==> mid.log[f] >= 2);
      assert !Final(mid, f);
    } else {
      forall g | g in mid.log && g.Completed?
        ensures Final(mid, g)
      {
        if g != f {
          assert Final(s, g) && Completes(g, g.streamId, g.packet.index);
        }
      }
    }
  }

  /** Opening or extending an entry leaves one fate exactly if the frame is not completed. */
  lemma EntryExactly(s: SocketState, mid: SocketState, sid: nat, idx: nat)
    requires OneFate(s) && mid.log == s.log && Entry(mid, sid, idx)
    requires forall sid', idx' :: Entry(mid, sid', idx') && (sid' != sid || idx' != idx) ==> Entry(s, sid', idx')
    ensures OneFate(mid) <==> !WasCompleted(s, sid, idx)
  {
    hide Entry;
    if WasCompleted(s, sid, idx) {
      var g :| g in s.log && Completes(g, sid, idx);
      assert !Final(mid, g);
    } else {
      forall g | g in mid.log && g.Completed?
        ensures Final(mid, g)
      {
        assert Final(s, g) && Completes(g, g.streamId, g.packet.index);
      }
    }
  }

  lemma SweepReports(s: SocketState, now: int, s': SocketState, f: Fate)
    requires SweepStep(s, now, s')
    ensures f in s.log ==> f in s'.log && (f.Completed? ==> s'.log[f] == s.log[f])
    ensures f in s'.log && f !in s.log ==> f.Lost? && Entry(s, f.streamId, f.packetIndex)
  {
    if f in Reports(s.streams, now) {
      var idx := ReportsAre(s.streams, now, f);
    }
    hide Reports;
  }

  lemma SweepEntries(s: SocketState, now: int, s': SocketState, sid: nat, idx: nat)
    requires SweepStep(s, now, s')
    ensures Entry(s', sid, idx) ==>
              Entry(s, sid, idx) && s'.streams[sid].inProgress[idx] == s.streams[sid].inProgress[idx]
    ensures Entry(s, sid, idx) && !Expired(s.streams[sid].inProgress[idx], now) ==> Entry(s', sid, idx)
    ensures Entry(s, sid, idx) && Expired(s.streams[sid].inProgress[idx], now) ==>
      var en := s.streams[sid].inProgress[idx]; Lost(sid, idx, en.expected - |en.received|) in s'.log
  {
    if Entry(s, sid, idx) && Expired(s.streams[sid].inProgress[idx], now) {
      var en := s.streams[sid].inProgress[idx];
      assert Lost(sid, idx, en.expected - |en.received|) in StreamReports(s.streams[sid], sid, now);
      assert Lost(sid, idx, en.expected - |en.received|) in Reports(s.streams, now);
    }
  }

  /** A sweep neither makes nor mends a second fate. */
  lemma SweepKeepsFateExactly(s: SocketState, now: int, s': SocketState)
    requires SweepStep(s, now, s')
    ensures OneFate(s') <==> OneFate(s)
  {
    hide SweepStep;
    forall f | f in s.log && f.Completed?
      ensures f in s'.log && (Final(s', f) <==> Final(s, f))
    {
      SweepFinalExactly(s, now, s', f);
    }
    forall f | f in s'.log && f.Completed?
      ensures f in s.log
    {
      SweepReports(s, now, s', f);
    }
  }

  lemma SweepFinalExactly(s: SocketState, now: int, s': SocketState, f: Fate)
    requires SweepStep(s, now, s') && f in s.log && f.Completed?
    ensures f in s'.log && (Final(s', f) <==> Final(s, f))
  {
    hide SweepStep;
    var sid, idx := f.streamId, f.packet.index;
    SweepReports(s, now, s', f);
    SweepEntries(s, now, s', sid, idx);
    forall g
      ensures g in s.log ==> g in s'.log
      ensures g in s'.log && g !in s.log ==> g.Lost? && Entry(s, g.streamId, g.packetIndex)
    {
      SweepReports(s, now, s', g);
    }
    if Entry(s, sid, idx) && !Entry(s', sid, idx) {
      var en := s.streams[sid].inProgress[idx];
      assert Loses(Lost(sid, idx, en.expected - |en.received|), sid, idx);
    }
    hide Entry;
  }

  /** The state between an arrival and its sweep. */
  lemma Middle(frames: Frames, stride: nat, s: SocketState, e: Event, s': SocketState) returns (mid: SocketState)
    requires 0 < stride && Inv(frames, stride, s) && Step(frames, stride, s, e, s') && e.Arrival?
    ensures FromFrames(frames, stride, e.tag, e.shardIndex) && Inv(frames, stride, mid)
    ensures ArrivalEffect(frames, stride, s, mid, e.tag.streamId, e.tag.packetIndex, e.shardIndex)
    ensures ArrivalKept(s, mid, e.tag.streamId, e.tag.packetIndex, e.deadline, e.victim)
    ensures SweepStep(mid, e.now, s') && s'.streams.Keys == mid.streams.Keys
  {
    hide Inv, ArrivalStep, FromFrames;
    mid :| ArrivalStep(s, frames, stride, e, mid) && SweepStep(mid, e.now, s');
    ArrivalHasEffect(frames, stride, s, e, mid);
    ArrivalKeepsInv(frames, stride, s, e, mid);
    hide Step, Reports, ArrivalEffect, ArrivalKept;
  }

  /** From one fate per frame, a step of the socket leads to one fate per frame exactly unless its shard spoils it. */
  lemma FateExactly(frames: Frames, stride: nat, s: SocketState, e: Event, s': SocketState)
    requires 0 < stride && Inv(frames, stride, s) && OneFate(s) && Step(frames, stride, s, e, s')
    ensures OneFate(s') <==> !Spoils(frames, stride, s, e)
  {
    hide Inv, OneFate, SweepStep;
    if e.Arrival? {
      var mid := Middle(frames, stride, s, e, s');
      hide Step;
      ArrivalKeepsFateExactly(frames, stride, s, mid, e.tag.streamId, e.tag.packetIndex, e.shardIndex);
      SweepKeepsFateExactly(mid, e.now, s');
    } else if e.Sweep? {
      SweepKeepsFateExactly(s, e.now, s');
    } else {
      QuietKeepsFate(frames, stride, s, e, s');
    }
  }

  lemma QuietKeepsFate(frames: Frames, stride: nat, s: SocketState, e: Event, s': SocketState)
    requires 0 < stride && OneFate(s) && Step(frames, stride, s, e, s') && !e.Arrival? && !e.Sweep?
    ensures OneFate(s')
  {
    assert s'.log == s.log;
    assert forall sid, idx :: Entry(s', sid, idx) ==> Entry(s, sid, idx);
    hide Step, Entry;
    forall f | f in s'.log && f.Completed?
      ensures Final(s', f)
    {
      assert Final(s, f);
    }
  }

  /** Over a whole run: one fate per frame throughout, exactly if no arrival spoils it. */
  lemma {:induction false} RunFateExactly(frames: Frames, stride: nat, states: seq<SocketState>, events: seq<Event>,
                                          k: nat)
    requires 0 < stride && IsRun(frames, stride, states, events) && k < |states|
    ensures (forall j :: 0 <= j <= k ==> OneFate(states[j])) <==>
              (forall j :: 0 <= j < k ==> !Spoils(frames, stride, states[j], events[j]))
  {
    hide OneFate, Spoils, Step;
    if k == 0 {
      EmptyHasNoFate();
    } else {
      RunFateExactly(frames, stride, states, events, k - 1);
      EveryRunIsFaithful(frames, stride, states, events, k - 1);
      if OneFate(states[k - 1]) {
        FateExactly(frames, stride, states[k - 1], events[k - 1], states[k]);
      }
    }
  }

  lemma EmptyHasNoFate()
    ensures OneFate(EMPTY_SOCKET)
  {
  }

  // ---------------------------------------------------------------------------------------------------------------
  // A network that delivers each shard at most once
  // ---------------------------------------------------------------------------------------------------------------

  /** Shard `i` came in, but not into the entry the frame has now: it went down with an earlier one. */
  ghost predicate Wasted(s: SocketState, sid: nat, idx: nat, i: nat) {
    (sid, idx, i) in s.arrived && (Entry(s, sid, idx) ==> i !in s.streams[sid].inProgress[idx].received)
  }

  ghost predicate AllArrived(frames: Frames, stride: nat, s: SocketState, sid: nat, idx: nat)
    requires 0 < stride
  {
    && !Entry(s, sid, idx)
    && sid in frames && idx in frames[sid]
    && forall i :: 0 <= i < ShardCount(|frames[sid][idx]|, stride) ==> (sid, idx, i) in s.arrived
  }

  ghost predicate ArrivedInv(frames: Frames, stride: nat, s: SocketState)
    requires 0 < stride
  {
    && (forall sid, idx, i :: (sid, idx, i) in s.arrived ==>
          sid in frames && idx in frames[sid] && i < ShardCount(|frames[sid][idx]|, stride))
    && (forall sid, idx, i :: Entry(s, sid, idx) && i in s.streams[sid].inProgress[idx].received ==>
          (sid, idx, i) in s.arrived)
  }

  ghost predicate LogInv(frames: Frames, stride: nat, s: SocketState)
    requires 0 < stride
  {
    && (forall f :: f in s.log && f.Completed? ==> AllArrived(frames, stride, s, f.streamId, f.packet.index))
    && (forall f :: f in s.log && f.Lost? ==> exists i :: Wasted(s, f.streamId, f.packetIndex, i))
  }

  ghost predicate FatesInv(frames: Frames, stride: nat, s: SocketState)
    requires 0 < stride
  {
    Inv(frames, stride, s) && ArrivedInv(frames, stride, s) && LogInv(frames, stride, s) && OneFate(s)
  }

  ghost predicate Once(s: SocketState, e: Event) {
    e.Arrival? ==> (e.tag.streamId, e.tag.packetIndex, e.shardIndex) !in s.arrived
  }

  /** With a new shard, a frame that fills has all its shards in the entry, so none was wasted on a loss before. */
  lemma NothingWasted(frames: Frames, stride: nat, s: SocketState, sid: nat, idx: nat, i: nat)
    requires 0 < stride && ArrivedInv(frames, stride, s) && sid in s.streams && sid in frames && idx in frames[sid]
    requires i < ShardCount(|frames[sid][idx]|, stride) && (sid, idx, i) !in s.arrived
    requires |ReceivedOf(s.streams[sid], idx) + {i}| == ShardCount(|frames[sid][idx]|, stride)
    ensures forall j :: !Wasted(s, sid, idx, j)
    ensures forall j :: 0 <= j < ShardCount(|frames[sid][idx]|, stride) ==> (sid, idx, j) in s.arrived + {(sid, idx, i)}
  {
    var n := ShardCount(|frames[sid][idx]|, stride);
    var before := ReceivedOf(s.streams[sid], idx);
    hide ShardCount;
    forall j | j in before + {i}
      ensures j < n && (sid, idx, j) in s.arrived + {(sid, idx, i)}
    {
      if j in before { assert Entry(s, sid, idx); }
    }
    FullSet(before + {i}, n);
    forall j
      ensures !Wasted(s, sid, idx, j)
    {
      assert 0 <= j < n ==> j in before + {i};
    }
  }

  lemma CompletedArrived(frames: Frames, stride: nat, s: SocketState, sid: nat, idx: nat, i: nat)
    requires 0 < stride && LogInv(frames, stride, s) && WasCompleted(s, sid, idx) && sid in frames && idx in frames[sid]
    requires i < ShardCount(|frames[sid][idx]|, stride)
    ensures (sid, idx, i) in s.arrived
  {
    hide ShardCount;
    var f :| f in s.log && Completes(f, sid, idx);
    assert AllArrived(frames, stride, s, sid, idx);
  }

  /** A shard that has not arrived before spoils nothing. */
  lemma OnceIsHarmless(frames: Frames, stride: nat, s: SocketState, e: Event)
    requires 0 < stride && FatesInv(frames, stride, s) && Once(s, e)
    ensures !Spoils(frames, stride, s, e)
  {
    if Spoils(frames, stride, s, e) {
      var sid, idx, i := e.tag.streamId, e.tag.packetIndex, e.shardIndex;
      hide Inv, OneFate, ShardCount;
      if WasCompleted(s, sid, idx) {
        CompletedArrived(frames, stride, s, sid, idx, i);
      } else {
        NothingWasted(frames, stride, s, sid, idx, i);
      }
    }
  }

  lemma ArrivalKeepsArrived(frames: Frames, stride: nat, s: SocketState, mid: SocketState, sid: nat, idx: nat, i: nat)
    requires 0 < stride && ArrivedInv(frames, stride, s) && ArrivalEffect(frames, stride, s, mid, sid, idx, i)
    ensures ArrivedInv(frames, stride, mid)
  {
    hide ShardCount, QueueGrows, NewFates;
    forall sid', idx', i' | Entry(mid, sid', idx') && i' in mid.streams[sid'].inProgress[idx'].received
      ensures (sid', idx', i') in mid.arrived
    {
      if sid' != sid || idx' != idx {
        assert Entry(s, sid', idx');
      } else if i' != i {
        assert Entry(s, sid, idx);
      }
    }
  }

  lemma ArrivalKeepsLog(frames: Frames, stride: nat, s: SocketState, mid: SocketState, sid: nat, idx: nat, i: nat)
    requires 0 < stride && ArrivedInv(frames, stride, s) && LogInv(frames, stride, s)
    requires ArrivalEffect(frames, stride, s, mid, sid, idx, i) && (sid, idx, i) !in s.arrived
    ensures LogInv(frames, stride, mid)
  {
    hide ShardCount, QueueGrows, NewFates, ReceivedOf;
    var added := ArrivalLogs(frames, stride, s, mid, sid, idx, i);
    if added != [] {
      NothingWasted(frames, stride, s, sid, idx, i);
    }
    forall f | f in mid.log && f.Completed?
      ensures AllArrived(frames, stride, mid, f.streamId, f.packet.index)
    {
      if f in s.log {
        assert AllArrived(frames, stride, s, f.streamId, f.packet.index);
      } else {
        assert f in added;
      }
    }
    forall f | f in mid.log && f.Lost?
      ensures exists j :: Wasted(mid, f.streamId, f.packetIndex, j)
    {
      assert f in s.log || f in added;
      var j :| Wasted(s, f.streamId, f.packetIndex, j);
      StaysWasted(frames, stride, s, mid, sid, idx, i, f.streamId, f.packetIndex, j);
    }
  }

  lemma StaysWasted(frames: Frames, stride: nat, s: SocketState, mid: SocketState, sid: nat, idx: nat, i: nat,
                    sid': nat, idx': nat, j: nat)
    requires 0 < stride && ArrivalEffect(frames, stride, s, mid, sid, idx, i) && (sid, idx, i) !in s.arrived
    requires Wasted(s, sid', idx', j)
    ensures Wasted(mid, sid', idx', j)
  {
    hide ShardCount, QueueGrows, NewFates;
    if Entry(mid, sid', idx') && (sid' != sid || idx' != idx) {
      assert Entry(s, sid', idx');
    }
  }

  lemma SweepKeepsArrived(frames: Frames, stride: nat, s: SocketState, now: int, s': SocketState)
    requires 0 < stride && ArrivedInv(frames, stride, s) && SweepStep(s, now, s')
    ensures ArrivedInv(frames, stride, s')
  {
    hide ShardCount, Reports, TableAfter;
    forall sid, idx, i | Entry(s', sid, idx) && i in s'.streams[sid].inProgress[idx].received
      ensures (sid, idx, i) in s'.arrived
    {
      assert Entry(s, sid, idx);
    }
  }

  lemma SweepKeepsLog(frames: Frames, stride: nat, s: SocketState, now: int, s': SocketState)
    requires 0 < stride && Inv(frames, stride, s) && ArrivedInv(frames, stride, s) && LogInv(frames, stride, s)
    requires SweepStep(s, now, s')
    ensures LogInv(frames, stride, s')
  {
    forall f | f in s'.log && f.Completed?
      ensures AllArrived(frames, stride, s', f.streamId, f.packet.index)
    {
      SweepReports(s, now, s', f);
      SweepEntries(s, now, s', f.streamId, f.packet.index);
      assert AllArrived(frames, stride, s, f.streamId, f.packet.index);
    }
    forall f | f in s'.log && f.Lost?
      ensures exists i :: Wasted(s', f.streamId, f.packetIndex, i)
    {
      var i := LossWitness(frames, stride, s, now, s', f);
    }
  }

  lemma LossWitness(frames: Frames, stride: nat, s: SocketState, now: int, s': SocketState, f: Fate) returns (i: nat)
    requires 0 < stride && Inv(frames, stride, s) && ArrivedInv(frames, stride, s) && LogInv(frames, stride, s)
    requires SweepStep(s, now, s') && f in s'.log && f.Lost?
    ensures Wasted(s', f.streamId, f.packetIndex, i)
  {
    SweepEntries(s, now, s', f.streamId, f.packetIndex);
    if f in s.log {
      hide Inv, ArrivedInv;
      i :| Wasted(s, f.streamId, f.packetIndex, i);
    } else {
      SweepReports(s, now, s', f);
      UnfinishedEntries(frames, stride, s);
      hide Inv, LogInv;
      assert f in Reports(s.streams, now);
      var idx := ReportsAre(s.streams, now, f);
      i :| i in s.streams[f.streamId].inProgress[idx].received;
    }
  }

  lemma QuietKeepsLog(frames: Frames, stride: nat, s: SocketState, e: Event, s': SocketState)
    requires 0 < stride && ArrivedInv(frames, stride, s) && LogInv(frames, stride, s) && Step(frames, stride, s, e, s')
    requires !e.Arrival? && !e.Sweep?
    ensures ArrivedInv(frames, stride, s') && LogInv(frames, stride, s')
  {
    assert s'.log == s.log && s'.arrived == s.arrived;
    assert forall sid, idx :: Entry(s', sid, idx) ==>
      Entry(s, sid, idx) && s'.streams[sid].inProgress[idx] == s.streams[sid].inProgress[idx];
    hide Step, ShardCount;
    forall f | f in s'.log && f.Lost?
      ensures exists i :: Wasted(s', f.streamId, f.packetIndex, i)
    {
      var i :| Wasted(s, f.streamId, f.packetIndex, i);
      assert Wasted(s', f.streamId, f.packetIndex, i);
    }
    forall f | f in s'.log && f.Completed?
      ensures AllArrived(frames, stride, s', f.streamId, f.packet.index)
    {
      assert AllArrived(frames, stride, s, f.streamId, f.packet.index);
    }
  }

  lemma StepKeepsFates(frames: Frames, stride: nat, s: SocketState, e: Event, s': SocketState)
    requires 0 < stride && FatesInv(frames, stride, s) && Step(frames, stride, s, e, s') && Once(s, e)
    ensures FatesInv(frames, stride, s')
  {
    OnceIsHarmless(frames, stride, s, e);
    FateExactly(frames, stride, s, e, s');
    StepKeepsInv(frames, stride, s, e, s');
    hide Inv, ArrivedInv, LogInv, OneFate, SweepStep, Spoils;
    if e.Arrival? {
      var sid, idx, i := e.tag.streamId, e.tag.packetIndex, e.shardIndex;
      var mid := Middle(frames, stride, s, e, s');
      hide Step, ArrivalEffect;
      ArrivalKeepsArrived(frames, stride, s, mid, sid, idx, i);
      ArrivalKeepsLog(frames, stride, s, mid, sid, idx, i);
      SweepKeepsArrived(frames, stride, mid, e.now, s');
      SweepKeepsLog(frames, stride, mid, e.now, s');
    } else if e.Sweep? {
      SweepKeepsArrived(frames, stride, s, e.now, s');
      SweepKeepsLog(frames, stride, s, e.now, s');
    } else {
      QuietKeepsLog(frames, stride, s, e, s');
    }
  }

  /**
   * In every run in which each shard arrives at most once, no frame is both queued as complete and reported lost,
   * and none is queued twice.
   */
  lemma {:induction false} EveryFrameHasOneFate(frames: Frames, stride: nat, states: seq<SocketState>,
                                                events: seq<Event>, k: nat)
    requires 0 < stride && IsRun(frames, stride, states, events) && k < |states|
    requires forall j :: 0 <= j < |events| ==> Once(states[j], events[j])
    ensures FatesInv(frames, stride, states[k])
  {
    hide Step, Once;
    if k > 0 {
      hide FatesInv;
      EveryFrameHasOneFate(frames, stride, states, events, k - 1);
      StepKeepsFates(frames, stride, states[k - 1], events[k - 1], states[k]);
    }
  }
}
