/**
 * Deadlines, told by the clock: a frame all of whose shards come in before the deadline it was opened with is
 * completed, and one that still lacks some at the first sweep from then on is reported lost, with their number.
 */
module Deadlines {
  import opened Bytes
  import opened Sharding
  import opened Reassembly
  import opened SocketRuns
  import opened FrameFate

  predicate Due(deadline: Option<int>, now: int) { deadline.Some? && deadline.value <= now }

  // ---------------------------------------------------------------------------------------------------------------
  // One sweep
  // ---------------------------------------------------------------------------------------------------------------

  /**
   * An entry survives a sweep, unchanged, exactly if it has no deadline or that lies in the future; otherwise one loss
   * is logged, of the shards it lacks, and the frame is in the table of losses.
   */
  lemma SweepExactly(s: SocketState, now: int, s': SocketState, sid: nat, idx: nat)
    requires SweepStep(s, now, s') && Entry(s, sid, idx)
    ensures var en := s.streams[sid].inProgress[idx];
      && (Entry(s', sid, idx) <==> en.deadline.None? || now < en.deadline.value)
      && (Entry(s', sid, idx) ==> s'.streams[sid].inProgress[idx] == en)
      && (forall lacking :: s'.log[Lost(sid, idx, lacking)] == s.log[Lost(sid, idx, lacking)]
            + (if Due(en.deadline, now) && lacking == en.expected - |en.received| then 1 else 0))
      && (Due(en.deadline, now) ==> idx in s'.lost)
  {
    var en := s.streams[sid].inProgress[idx];
    forall lacking
      ensures Lost(sid, idx, lacking) in Reports(s.streams, now)
         <==> Due(en.deadline, now) && lacking == en.expected - |en.received|
    {
      if Due(en.deadline, now) && lacking == en.expected - |en.received| {
        assert Lost(sid, idx, lacking) in StreamReports(s.streams[sid], sid, now);
      }
    }
    if Due(en.deadline, now) {
      assert Lost(sid, idx, en.expected - |en.received|) in Reports(s.streams, now);
      assert SomeReport(Reports(s.streams, now), idx);
    }
    hide Reports;
  }

  /** Where there is no entry a sweep does nothing, and it completes nothing. */
  lemma SweepElsewhere(s: SocketState, now: int, s': SocketState, sid: nat, idx: nat)
    requires SweepStep(s, now, s')
    ensures !Entry(s, sid, idx) ==> !Entry(s', sid, idx)
    ensures !Entry(s, sid, idx) ==> forall f :: Loses(f, sid, idx) ==> s'.log[f] == s.log[f]
    ensures forall f: Fate :: f.Completed? ==> s'.log[f] == s.log[f]
  {
    forall f | f in Reports(s.streams, now)
      ensures f.Lost? && Entry(s, f.streamId, f.packetIndex)
    {
      var idx' := ReportsAre(s.streams, now, f);
    }
    assert Entry(s', sid, idx) ==> Entry(s, sid, idx);
    hide Reports;
  }

  // ---------------------------------------------------------------------------------------------------------------
  // A frame from its first shard on
  // ---------------------------------------------------------------------------------------------------------------

  predicate IsShardOf(e: Event, sid: nat, idx: nat) {
    e.Arrival? && e.tag.streamId == sid && e.tag.packetIndex == idx
  }

  /** The event takes the entry away: its buffer goes to another frame, or the stream starts over. */
  predicate Evicts(s: SocketState, e: Event, sid: nat, idx: nat) {
    || (e.Arrival? && e.tag.streamId == sid && e.tag.packetIndex != idx
        && sid in s.streams && TakenOver(s.streams[sid], e.tag.packetIndex, e.victim, idx))
    || (e.Subscribe? && e.streamId == sid)
  }

  predicate SweepsWhenDue(e: Event, deadline: Option<int>) { (e.Arrival? || e.Sweep?) && Due(deadline, e.now) }

  /** The shards of a frame that came in from event `j` to before event `k`. */
  function Got(events: seq<Event>, j: nat, k: nat, sid: nat, idx: nat): set<nat>
    requires k <= |events|
  {
    set m | j <= m < k && IsShardOf(events[m], sid, idx) :: events[m].shardIndex
  }

  ghost predicate Holding(s: SocketState, sid: nat, idx: nat, got: set<nat>, n: nat, deadline: Option<int>) {
    && Entry(s, sid, idx)
    && var en := s.streams[sid].inProgress[idx];
       en.received == got && en.expected == n && en.deadline == deadline
  }

  /** One more completion of the frame is logged. */
  ghost predicate CompletedIn(s: SocketState, s': SocketState, sid: nat, idx: nat) {
    exists f :: Completes(f, sid, idx) && s.log[f] < s'.log[f]
  }

  /** The shards of the frame once event `e` has brought its own. */
  function With(e: Event, sid: nat, idx: nat, got: set<nat>): set<nat> {
    if IsShardOf(e, sid, idx) then got + {e.shardIndex} else got
  }

  /** Before an event: the entry holds what came in, or there is none and the event brings the first shard. */
  ghost predicate Begins(s: SocketState, e: Event, sid: nat, idx: nat, got: set<nat>, n: nat, deadline: Option<int>) {
    if Entry(s, sid, idx) then Holding(s, sid, idx, got, n, deadline)
    else got == {} && IsShardOf(e, sid, idx) && e.deadline == deadline
  }

  /** After it: the frame is completed if the event brings the last shard, or the entry holds what came in. */
  ghost predicate Ends(s: SocketState, e: Event, s': SocketState, sid: nat, idx: nat, got: set<nat>, n: nat,
                       deadline: Option<int>)
  {
    if IsShardOf(e, sid, idx) && |got| == n then CompletedIn(s, s', sid, idx)
    else Holding(s', sid, idx, got, n, deadline)
  }

  lemma ArrivalHolds(frames: Frames, stride: nat, s: SocketState, e: Event, mid: SocketState, sid: nat, idx: nat,
                     got: set<nat>, n: nat, deadline: Option<int>)
    requires 0 < stride && e.Arrival? && !Evicts(s, e, sid, idx) && sid in frames && idx in frames[sid]
    requires n == ShardCount(|frames[sid][idx]|, stride) && Begins(s, e, sid, idx, got, n, deadline)
    requires ArrivalEffect(frames, stride, s, mid, e.tag.streamId, e.tag.packetIndex, e.shardIndex)
    requires ArrivalKept(s, mid, e.tag.streamId, e.tag.packetIndex, e.deadline, e.victim)
    ensures Ends(s, e, mid, sid, idx, With(e, sid, idx, got), n, deadline)
  {
    if IsShardOf(e, sid, idx) {
      var added := ArrivalLogs(frames, stride, s, mid, sid, idx, e.shardIndex);
      hide QueueGrows, NewFates, ShardCount;
      if added != [] {
        assert Completes(added[0], sid, idx) && s.log[added[0]] < mid.log[added[0]];
      }
    } else {
      hide QueueGrows, NewFates, ShardCount;
    }
  }

  /** One event, while the deadline is not due when it sweeps. */
  lemma StepHolds(frames: Frames, stride: nat, s: SocketState, e: Event, s': SocketState, sid: nat, idx: nat,
                  got: set<nat>, n: nat, deadline: Option<int>)
    requires 0 < stride && Inv(frames, stride, s) && Step(frames, stride, s, e, s')
    requires sid in frames && idx in frames[sid] && n == ShardCount(|frames[sid][idx]|, stride)
    requires !Evicts(s, e, sid, idx) && !SweepsWhenDue(e, deadline) && Begins(s, e, sid, idx, got, n, deadline)
    ensures Ends(s, e, s', sid, idx, With(e, sid, idx, got), n, deadline)
  {
    if e.Arrival? {
      hide Inv, Step, SweepStep, FromFrames, ArrivalEffect, ArrivalKept, ShardCount, CompletedIn, Begins, Holding;
      var mid := Middle(frames, stride, s, e, s');
      ArrivalHolds(frames, stride, s, e, mid, sid, idx, got, n, deadline);
      SweepHolds(s, mid, e.now, s', sid, idx, deadline);
    } else if e.Sweep? {
      hide Inv, SweepStep, ShardCount, CompletedIn, Holding;
      SweepHolds(s, s, e.now, s', sid, idx, deadline);
    } else {
      hide Inv, ShardCount;
    }
  }

  lemma SweepHolds(s: SocketState, mid: SocketState, now: int, s': SocketState, sid: nat, idx: nat,
                   deadline: Option<int>)
    requires SweepStep(mid, now, s') && !Due(deadline, now)
    ensures CompletedIn(s, mid, sid, idx) ==> CompletedIn(s, s', sid, idx)
    ensures forall got, n :: Holding(mid, sid, idx, got, n, deadline) ==> Holding(s', sid, idx, got, n, deadline)
  {
    hide SweepStep;
    SweepElsewhere(mid, now, s', sid, idx);
    if Entry(mid, sid, idx) {
      SweepExactly(mid, now, s', sid, idx);
    }
    if CompletedIn(s, mid, sid, idx) {
      var f :| Completes(f, sid, idx) && s.log[f] < mid.log[f];
      assert s.log[f] < s'.log[f];
    }
  }

  /** A frame whose first shard since it had no entry is event `j`; up to `k` nothing evicts it or gives it up. */
  ghost predicate Followed(frames: Frames, stride: nat, states: seq<SocketState>, events: seq<Event>, j: nat, k: nat,
                           sid: nat, idx: nat)
    requires 0 < stride
  {
    && IsRun(frames, stride, states, events) && j <= k <= |events| && j < |events|
    && !Entry(states[j], sid, idx) && IsShardOf(events[j], sid, idx)
    && (forall m :: j <= m < k ==>
          !Evicts(states[m], events[m], sid, idx) && !SweepsWhenDue(events[m], events[j].deadline))
  }

  lemma FirstIsSent(frames: Frames, stride: nat, states: seq<SocketState>, events: seq<Event>, j: nat,
                    sid: nat, idx: nat)
    requires 0 < stride && IsRun(frames, stride, states, events) && j < |events| && IsShardOf(events[j], sid, idx)
    ensures sid in frames && idx in frames[sid] && events[j].shardIndex < ShardCount(|frames[sid][idx]|, stride)
  {
    assert Step(frames, stride, states[j], events[j], states[j + 1]);
  }

  lemma GotGrows(events: seq<Event>, j: nat, k: nat, sid: nat, idx: nat)
    requires j <= k < |events|
    ensures Got(events, j, k + 1, sid, idx) == With(events[k], sid, idx, Got(events, j, k, sid, idx))
  {
    forall i
      ensures i in Got(events, j, k + 1, sid, idx) <==> i in With(events[k], sid, idx, Got(events, j, k, sid, idx))
    {
    }
  }

  lemma FillsUp(e: Event, sid: nat, idx: nat, got: set<nat>, n: nat)
    requires |got| < n <= |With(e, sid, idx, got)|
    ensures IsShardOf(e, sid, idx) && |With(e, sid, idx, got)| == n
  {
  }

  lemma GotNothing(events: seq<Event>, j: nat, sid: nat, idx: nat)
    requires j <= |events|
    ensures Got(events, j, j, sid, idx) == {}
  {
  }

  /** As long as shards are missing, the entry holds exactly those that came in. */
  lemma {:induction false} HeldUntil(frames: Frames, stride: nat, states: seq<SocketState>, events: seq<Event>,
                                     j: nat, k: nat, sid: nat, idx: nat, n: nat)
    requires 0 < stride && Followed(frames, stride, states, events, j, k, sid, idx) && j < k
    requires sid in frames && idx in frames[sid] && n == ShardCount(|frames[sid][idx]|, stride)
    requires |Got(events, j, k, sid, idx)| < n
    ensures Holding(states[k], sid, idx, Got(events, j, k, sid, idx), n, events[j].deadline)
  {
    hide Inv, Step, Evicts, SweepsWhenDue, ShardCount, Got, Holding, Entry;
    var got := Got(events, j, k - 1, sid, idx);
    GotGrows(events, j, k - 1, sid, idx);
    if k - 1 == j {
      GotNothing(events, j, sid, idx);
    } else {
      Smaller(got, Got(events, j, k, sid, idx));
      FollowedUpTo(frames, stride, states, events, j, k - 1, k, sid, idx);
      HeldUntil(frames, stride, states, events, j, k - 1, sid, idx, n);
    }
    OneMore(frames, stride, states, events, j, k, sid, idx, got, n);
  }

  lemma FollowedUpTo(frames: Frames, stride: nat, states: seq<SocketState>, events: seq<Event>, j: nat, m: nat, k: nat,
                     sid: nat, idx: nat)
    requires 0 < stride && Followed(frames, stride, states, events, j, k, sid, idx) && j <= m <= k
    ensures Followed(frames, stride, states, events, j, m, sid, idx)
  {
    hide Evicts, SweepsWhenDue, Step, Entry;
  }

  lemma HoldingHas(s: SocketState, sid: nat, idx: nat, got: set<nat>, n: nat, deadline: Option<int>)
    ensures Holding(s, sid, idx, got, n, deadline) ==> Entry(s, sid, idx)
  {
  }

  /** The last event of the stretch. */
  lemma OneMore(frames: Frames, stride: nat, states: seq<SocketState>, events: seq<Event>, j: nat, k: nat, sid: nat,
                idx: nat, got: set<nat>, n: nat)
    requires 0 < stride && Followed(frames, stride, states, events, j, k, sid, idx) && j < k
    requires sid in frames && idx in frames[sid] && n == ShardCount(|frames[sid][idx]|, stride)
    requires if k - 1 == j then got == {} else Holding(states[k - 1], sid, idx, got, n, events[j].deadline)
    ensures Ends(states[k - 1], events[k - 1], states[k], sid, idx, With(events[k - 1], sid, idx, got), n,
                 events[j].deadline)
  {
    hide Inv, Step, Evicts, SweepsWhenDue, ShardCount, Ends, Faithful, Holding, With;
    assert Followed(frames, stride, states, events, j, k, sid, idx);
    var deadline := events[j].deadline;
    HoldingHas(states[k - 1], sid, idx, got, n, deadline);
    EveryRunIsFaithful(frames, stride, states, events, k - 1);
    StepHolds(frames, stride, states[k - 1], events[k - 1], states[k], sid, idx, got, n, events[j].deadline);
  }

  lemma Smaller(a: set<nat>, b: set<nat>)
    requires a <= b
    ensures |a| <= |b|
  {
    assert b == a + (b - a);
  }

  /** The event that brings the last missing shard. */
  lemma {:induction false} LastMissing(events: seq<Event>, j: nat, k: nat, sid: nat, idx: nat, n: nat)
    returns (m: nat)
    requires j <= k <= |events| && 0 < n <= |Got(events, j, k, sid, idx)|
    ensures j <= m < k && |Got(events, j, m, sid, idx)| < n <= |Got(events, j, m + 1, sid, idx)|
  {
    hide Got;
    if k == j {
      GotNothing(events, j, sid, idx);
    } else if |Got(events, j, k - 1, sid, idx)| < n {
      m := k - 1;
    } else {
      m := LastMissing(events, j, k - 1, sid, idx, n);
    }
  }

  /**
   * In time: if all shards of a frame come in, in any order and repeated or not, before a sweep finds its deadline due,
   * and its entry is not taken away, then the event that brings the last of them completes the frame.
   */
  lemma InTimeIsCompleted(frames: Frames, stride: nat, states: seq<SocketState>, events: seq<Event>, j: nat, k: nat,
                          sid: nat, idx: nat)
    returns (m: nat)
    requires 0 < stride && Followed(frames, stride, states, events, j, k, sid, idx)
    requires sid in frames && idx in frames[sid]
    requires forall i :: 0 <= i < ShardCount(|frames[sid][idx]|, stride) ==> i in Got(events, j, k, sid, idx)
    ensures j <= m < k && IsShardOf(events[m], sid, idx) && CompletedIn(states[m], states[m + 1], sid, idx)
  {
    var n := ShardCount(|frames[sid][idx]|, stride);
    hide Step, Evicts, SweepsWhenDue, ShardCount, Got, Entry, CompletedIn;
    FirstIsSent(frames, stride, states, events, j, sid, idx);
    AllShards(n, Got(events, j, k, sid, idx));
    m := LastMissing(events, j, k, sid, idx, n);
    FollowedUpTo(frames, stride, states, events, j, m + 1, k, sid, idx);
    LastCompletes(frames, stride, states, events, j, m, sid, idx, n);
  }

  lemma LastCompletes(frames: Frames, stride: nat, states: seq<SocketState>, events: seq<Event>, j: nat, m: nat,
                      sid: nat, idx: nat, n: nat)
    requires 0 < stride && j <= m && Followed(frames, stride, states, events, j, m + 1, sid, idx)
    requires sid in frames && idx in frames[sid] && n == ShardCount(|frames[sid][idx]|, stride)
    requires |Got(events, j, m, sid, idx)| < n <= |Got(events, j, m + 1, sid, idx)|
    ensures IsShardOf(events[m], sid, idx) && CompletedIn(states[m], states[m + 1], sid, idx)
  {
    hide Step, Evicts, SweepsWhenDue, ShardCount, Got, Holding, Entry, CompletedIn, With;
    var got := Got(events, j, m, sid, idx);
    GotGrows(events, j, m, sid, idx);
    if m == j {
      GotNothing(events, j, sid, idx);
    } else {
      FollowedUpTo(frames, stride, states, events, j, m, m + 1, sid, idx);
      HeldUntil(frames, stride, states, events, j, m, sid, idx, n);
    }
    OneMore(frames, stride, states, events, j, m + 1, sid, idx, got, n);
    FillsUp(events[m], sid, idx, got, n);
  }

  lemma {:induction false} AllShards(n: nat, got: set<nat>)
    requires forall i :: 0 <= i < n ==> i in got
    ensures n <= |got|
  {
    if n > 0 {
      AllShards(n - 1, got - {n - 1});
    }
  }

  /**
   * Late: at the first sweep that finds the deadline due, a frame that lacks shards is reported lost, once, with
   * exactly the number it lacks.
   */
  lemma LateIsLost(frames: Frames, stride: nat, states: seq<SocketState>, events: seq<Event>, j: nat, k: nat,
                   sid: nat, idx: nat)
    requires 0 < stride && Followed(frames, stride, states, events, j, k, sid, idx) && k < |events|
    requires sid in frames && idx in frames[sid]
    requires SweepsWhenDue(events[k], events[j].deadline) && !Evicts(states[k], events[k], sid, idx)
    requires |Got(events, j, k + 1, sid, idx)| < ShardCount(|frames[sid][idx]|, stride)
    ensures !Entry(states[k + 1], sid, idx)
    ensures var f := Lost(sid, idx, ShardCount(|frames[sid][idx]|, stride) - |Got(events, j, k + 1, sid, idx)|);
      states[k + 1].log[f] == states[k].log[f] + 1
  {
    hide Inv, Step, Evicts, SweepsWhenDue, ShardCount, Got, Holding, Faithful, Entry;
    var n, got := ShardCount(|frames[sid][idx]|, stride), Got(events, j, k, sid, idx);
    GotGrows(events, j, k, sid, idx);
    Smaller(got, Got(events, j, k + 1, sid, idx));
    if j == k {
      GotNothing(events, j, sid, idx);
    } else {
      HeldUntil(frames, stride, states, events, j, k, sid, idx, n);
      HoldingHas(states[k], sid, idx, got, n, events[j].deadline);
    }
    EveryRunIsFaithful(frames, stride, states, events, k);
    GivesUp(frames, stride, states[k], events[k], states[k + 1], sid, idx, got, n, events[j].deadline);
  }

  lemma GivesUp(frames: Frames, stride: nat, s: SocketState, e: Event, s': SocketState, sid: nat, idx: nat,
                got: set<nat>, n: nat, deadline: Option<int>)
    requires 0 < stride && Inv(frames, stride, s) && Step(frames, stride, s, e, s')
    requires sid in frames && idx in frames[sid] && n == ShardCount(|frames[sid][idx]|, stride)
    requires !Evicts(s, e, sid, idx) && SweepsWhenDue(e, deadline) && Begins(s, e, sid, idx, got, n, deadline)
    requires |With(e, sid, idx, got)| < n
    ensures !Entry(s', sid, idx)
    ensures var f := Lost(sid, idx, n - |With(e, sid, idx, got)|); s'.log[f] == s.log[f] + 1
  {
    hide Inv, SweepStep, FromFrames, ArrivalEffect, ArrivalKept, ShardCount, CompletedIn, Evicts, Holding, Entry, With;
    var got' := With(e, sid, idx, got);
    if e.Arrival? {
      hide Step, Begins;
      var mid := Middle(frames, stride, s, e, s');
      ArrivalHolds(frames, stride, s, e, mid, sid, idx, got, n, deadline);
      ArrivalLosesNothing(frames, stride, s, mid, e.tag.streamId, e.tag.packetIndex, e.shardIndex,
                          Lost(sid, idx, n - |got'|));
      SweepLoses(mid, e.now, s', sid, idx, got', n, deadline);
    } else {
      assert SweepStep(s, e.now, s');
      hide Step;
      NoShardOf(e, sid, idx, got);
      SweepLoses(s, e.now, s', sid, idx, got, n, deadline);
    }
  }

  lemma NoShardOf(e: Event, sid: nat, idx: nat, got: set<nat>)
    requires !e.Arrival?
    ensures With(e, sid, idx, got) == got
  {
  }

  lemma SweepLoses(s: SocketState, now: int, s': SocketState, sid: nat, idx: nat, got: set<nat>, n: nat,
                   deadline: Option<int>)
    requires SweepStep(s, now, s') && Due(deadline, now) && Holding(s, sid, idx, got, n, deadline)
    ensures !Entry(s', sid, idx)
    ensures var f := Lost(sid, idx, n - |got|); s'.log[f] == s.log[f] + 1
  {
    hide SweepStep;
    SweepExactly(s, now, s', sid, idx);
  }

  lemma ArrivalLosesNothing(frames: Frames, stride: nat, s: SocketState, mid: SocketState, sid: nat, idx: nat, i: nat,
                            f: Fate)
    requires 0 < stride && ArrivalEffect(frames, stride, s, mid, sid, idx, i) && f.Lost?
    ensures mid.log[f] == s.log[f]
  {
    var added := ArrivalLogs(frames, stride, s, mid, sid, idx, i);
    hide ArrivalEffect;
    if added != [] {
      assert added == [added[0]];
    }
  }
}
