/** Every run of a receiving socket: what reassembly guarantees over all arrivals, sweeps and recycled buffers. */
module SocketRuns {
  import opened Bytes
  import opened Sharding
  import opened Reassembly

  /** The frames a peer sends, by stream and packet index. */
  type Frames = map<nat, map<nat, seq<Byte>>>

  /** What became of a frame: queued as complete, or reported with the number of shards it lacked. */
  datatype Fate =
    | Completed(streamId: nat, packet: ReconstructedPacket)
    | Lost(streamId: nat, packetIndex: nat, shards: int)

  /**
   * `log` and `arrived` are history: all fates so far, each as often as it befell, and all (stream, packet, shard) that
   * came in.
   */
  datatype SocketState = SocketState(
    streams: map<nat, StreamComponents>,
    lost: map<nat, int>,
    log: multiset<Fate>,
    arrived: set<(nat, nat, nat)>)

  datatype Event =
    | Arrival(tag: FrameTag, shardIndex: nat, now: int, deadline: Option<int>, victim: Option<nat>, counters: Counters)
    | Sweep(now: int)
    | Subscribe(streamId: nat, buffers: nat)
    | Take(streamId: nat)
    | Recycle(streamId: nat, buffer: seq<Byte>)
    | FlushLost

  const EMPTY_SOCKET := SocketState(map[], map[], multiset{}, {})

  // ---------------------------------------------------------------------------------------------------------------
  // Steps
  // ---------------------------------------------------------------------------------------------------------------

  function SweptStreams(streams: map<nat, StreamComponents>, now: int): map<nat, StreamComponents> {
    map sid | sid in streams :: Swept(streams[sid], now)
  }

  function StreamReports(c: StreamComponents, sid: nat, now: int): set<Fate> {
    set idx | idx in ExpiredKeys(c, now) :: Lost(sid, idx, c.inProgress[idx].expected - |c.inProgress[idx].received|)
  }

  /** What a sweep reports: one loss per expired frame. */
  function Reports(streams: map<nat, StreamComponents>, now: int): set<Fate> {
    set sid, f | sid in streams && f in StreamReports(streams[sid], sid, now) :: f
  }

  ghost predicate Reported(reports: set<Fate>, id: nat, shards: int) {
    exists sid :: Lost(sid, id, shards) in reports
  }

  ghost predicate Logged(log: multiset<Fate>, id: nat, shards: int) {
    exists sid :: Lost(sid, id, shards) in log
  }

  ghost predicate SomeReport(reports: set<Fate>, id: nat) {
    exists sid, shards :: Lost(sid, id, shards) in reports
  }

  /** The loss table is keyed by packet index alone: of two streams losing the same index, either report may stay. */
  ghost predicate TableAfter(before: map<nat, int>, reports: set<Fate>, after: map<nat, int>) {
    && (forall id :: id in after <==> id in before || SomeReport(reports, id))
    && (forall id :: id in after ==>
          if SomeReport(reports, id) then Reported(reports, id, after[id]) else after[id] == before[id])
  }

  ghost predicate SweepStep(s: SocketState, now: int, s': SocketState) {
    && s'.streams == SweptStreams(s.streams, now)
    && s'.log == s.log + multiset(Reports(s.streams, now))
    && s'.arrived == s.arrived
    && TableAfter(s.lost, Reports(s.streams, now), s'.lost)
  }

  /** The frame an arrival belongs to and the shard of it, as a sender of `frames` would have sent it. */
  ghost predicate FromFrames(frames: Frames, stride: nat, tag: FrameTag, i: nat)
    requires 0 < stride
  {
    && tag.Valid()
    && tag.streamId in frames && tag.packetIndex in frames[tag.streamId]
    && i < ShardCount(|frames[tag.streamId][tag.packetIndex]|, stride)
  }

  ghost function ArrivedStream(c: StreamComponents, frame: seq<Byte>, stride: nat, tag: FrameTag, i: nat,
                               deadline: Option<int>, victim: Option<nat>, counters: Counters): StreamComponents
    requires tag.Valid() && 0 < stride && i < ShardCount(|frame|, stride)
    requires LegalVictim(c, tag.packetIndex, victim)
  {
    ShardInRange(|frame|, stride, i);
    var n := ShardCount(|frame|, stride);
    Arrive(c, Header(ShardLength(|frame|, stride, i), tag.streamId, tag.packetIndex, n, i, tag.stamp),
           Shard(tag, frame, stride, i), stride, deadline, victim, counters)
  }

  /** Packets a stream queued in one step. */
  function NewFates(sid: nat, before: StreamComponents, after: StreamComponents): seq<Fate> {
    var n := Min(|before.packetQueue|, |after.packetQueue|);
    seq(|after.packetQueue| - n,
        i requires 0 <= i < |after.packetQueue| - n => Completed(sid, after.packetQueue[n + i]))
  }

  ghost predicate ArrivalStep(s: SocketState, frames: Frames, stride: nat, e: Event, mid: SocketState)
    requires e.Arrival? && 0 < stride && FromFrames(frames, stride, e.tag, e.shardIndex)
  {
    var sid := e.tag.streamId;
    && sid in s.streams
    && LegalVictim(s.streams[sid], e.tag.packetIndex, e.victim)
    && var c := ArrivedStream(s.streams[sid], frames[sid][e.tag.packetIndex], stride, e.tag, e.shardIndex,
                              e.deadline, e.victim, e.counters);
       mid == s.(streams := s.streams[sid := c],
                 log := s.log + multiset(NewFates(sid, s.streams[sid], c)),
                 arrived := s.arrived + {(sid, e.tag.packetIndex, e.shardIndex)})
  }

  ghost predicate Step(frames: Frames, stride: nat, s: SocketState, e: Event, s': SocketState)
    requires 0 < stride
  {
    match e
    case Arrival(tag, i, now, _, _, _) =>
      FromFrames(frames, stride, tag, i)
      && exists mid :: ArrivalStep(s, frames, stride, e, mid) && SweepStep(mid, now, s')
    case Sweep(now) => SweepStep(s, now, s')
    case Subscribe(sid, buffers) =>
      s' == s.(streams := s.streams[sid := StreamComponents(Empties(buffers), [], map[])])
    case Take(sid) =>
      sid in s.streams && s.streams[sid].packetQueue != []
      && s' == s.(streams := s.streams[sid := s.streams[sid].(packetQueue := s.streams[sid].packetQueue[1..])])
    case Recycle(sid, buffer) =>
      sid in s.streams
      && s' == s.(streams := s.streams[sid := s.streams[sid].(pool := s.streams[sid].pool + [buffer])])
    case FlushLost => s' == s.(lost := map[])
  }

  ghost predicate IsRun(frames: Frames, stride: nat, states: seq<SocketState>, events: seq<Event>)
    requires 0 < stride
  {
    && |states| == |events| + 1
    && states[0] == EMPTY_SOCKET
    && forall k :: 0 <= k < |events| ==> Step(frames, stride, states[k], events[k], states[k + 1])
  }

  // ---------------------------------------------------------------------------------------------------------------
  // The round-trip invariant
  // ---------------------------------------------------------------------------------------------------------------

  ghost predicate StreamInv(c: StreamComponents, frames: map<nat, seq<Byte>>, stride: nat)
    requires 0 < stride
  {
    forall idx :: idx in c.inProgress ==> idx in frames && Open(c.inProgress[idx], frames[idx], stride)
  }

  ghost predicate FateInv(frames: Frames, stride: nat, f: Fate)
    requires 0 < stride
  {
    match f
    case Completed(sid, p) =>
      sid in frames && p.index in frames[sid] && Faithful(p, frames[sid][p.index])
    case Lost(sid, idx, shards) =>
      sid in frames && idx in frames[sid] && 1 <= shards < ShardCount(|frames[sid][idx]|, stride)
  }

  /**
   * Every entry in progress holds the frame's bytes for the shards it has and lacks at least one; every packet ever
   * queued is the sender's frame; every loss ever reported is between 1 and the frame's shard count less one.
   */
  ghost predicate Inv(frames: Frames, stride: nat, s: SocketState)
    requires 0 < stride
  {
    && (forall sid :: sid in s.streams ==>
          StreamInv(s.streams[sid], if sid in frames then frames[sid] else map[], stride))
    && (forall sid, p :: sid in s.streams && p in s.streams[sid].packetQueue ==> Completed(sid, p) in s.log)
    && (forall f :: f in s.log ==> FateInv(frames, stride, f))
    && (forall id :: id in s.lost ==> Logged(s.log, id, s.lost[id]))
  }

  /** Every entry has some but not all of its shards. */
  ghost predicate Unfinished(c: StreamComponents) {
    forall idx :: idx in c.inProgress ==> 1 <= |c.inProgress[idx].received| < c.inProgress[idx].expected
  }

  /** Every entry a sweep can see lacks a shard, so the loss it reports cannot underflow. */
  lemma UnfinishedEntries(frames: Frames, stride: nat, s: SocketState)
    requires 0 < stride && Inv(frames, stride, s)
    ensures forall sid :: sid in s.streams ==> Unfinished(s.streams[sid])
  {
    forall sid | sid in s.streams
      ensures Unfinished(s.streams[sid])
    {
      assert StreamInv(s.streams[sid], if sid in frames then frames[sid] else map[], stride);
    }
  }

  ghost function ReceivedOf(c: StreamComponents, idx: nat): set<nat> {
    if idx in c.inProgress then c.inProgress[idx].received else {}
  }

  /**
   * How one arrival changes the in-progress table of its stream: the frame is complete, and gone from it, or has an
   * entry.
   */
  ghost predicate Progress(c: StreamComponents, c': StreamComponents, idx: nat, i: nat, n: nat) {
    var all := ReceivedOf(c, idx) + {i};
    && (forall k :: k in c'.inProgress && k != idx ==> k in c.inProgress && c'.inProgress[k] == c.inProgress[k])
    && (|all| == n <==> |c.packetQueue| < |c'.packetQueue|)
    && (|all| == n <==> idx !in c'.inProgress)
    && (idx in c'.inProgress ==> c'.inProgress[idx].received == all && c'.inProgress[idx].expected == n)
  }

  /** The buffer of frame `k` goes to a frame without an entry: the pool is empty, and the search found `k`. */
  predicate TakenOver(c: StreamComponents, idx: nat, victim: Option<nat>, k: nat) {
    idx !in c.inProgress && c.pool == [] && victim == Some(k)
  }

  /** Other entries stay exactly unless taken over, and an entry keeps the deadline it was opened with. */
  ghost predicate Kept(c: StreamComponents, c': StreamComponents, idx: nat, deadline: Option<int>,
                       victim: Option<nat>)
  {
    && (forall k :: k in c.inProgress && k != idx ==> (k in c'.inProgress <==> !TakenOver(c, idx, victim, k)))
    && (forall k :: k in c.inProgress && k in c'.inProgress && k != idx ==> c'.inProgress[k] == c.inProgress[k])
    && (idx in c'.inProgress ==>
          c'.inProgress[idx].deadline == if idx in c.inProgress then c.inProgress[idx].deadline else deadline)
  }

  ghost predicate QueueGrows(c: StreamComponents, c': StreamComponents, idx: nat, frame: seq<Byte>) {
    || c'.packetQueue == c.packetQueue
    || (|c'.packetQueue| == |c.packetQueue| + 1
        && c'.packetQueue[..|c.packetQueue|] == c.packetQueue
        && c'.packetQueue[|c.packetQueue|].index == idx
        && Faithful(c'.packetQueue[|c.packetQueue|], frame))
  }

  lemma OpenedHolds(c: StreamComponents, frames: map<nat, seq<Byte>>, stride: nat, idx: nat,
                    deadline: Option<int>, victim: Option<nat>)
    requires 0 < stride && idx in frames && StreamInv(c, frames, stride) && LegalVictim(c, idx, victim)
    ensures var o := Opened(c, idx, ShardCount(|frames[idx]|, stride), deadline, victim);
            && Holds(o.inProgress[idx], frames[idx], stride)
            && o.inProgress[idx].received == ReceivedOf(c, idx)
            && o.packetQueue == c.packetQueue
            && (forall k :: k in o.inProgress && k != idx ==> k in c.inProgress && o.inProgress[k] == c.inProgress[k])
            && Kept(c, o, idx, deadline, victim)
  {
  }

  /** What finishing does to the table, whatever the bytes. */
  lemma FinishedProgress(c: StreamComponents, o: StreamComponents, idx: nat, n: nat, e: InProgressPacket, i: nat,
                         counters: Counters, deadline: Option<int>, victim: Option<nat>)
    requires forall k :: k in o.inProgress && k != idx ==> k in c.inProgress && o.inProgress[k] == c.inProgress[k]
    requires o.packetQueue == c.packetQueue && e.expected == n && e.received == ReceivedOf(c, idx) + {i}
    requires idx in o.inProgress && e.deadline == o.inProgress[idx].deadline && Kept(c, o, idx, deadline, victim)
    ensures var c' := Finished(o.(inProgress := o.inProgress[idx := e]), idx, n, counters);
            && Progress(c, c', idx, i, n) && Kept(c, c', idx, deadline, victim)
            && (forall k :: k in c'.inProgress ==> c'.inProgress[k] == if k == idx then e else o.inProgress[k])
            && c'.packetQueue == c.packetQueue + (if |e.received| == n
                 then [ReconstructedPacket(idx, e.buffer, e.bufferLength, counters)] else [])
  {
  }

  /** The frame's entry goes on being right, and unfinished, or is gone. */
  lemma FinishedHolds(c: StreamComponents, o: StreamComponents, frames: map<nat, seq<Byte>>, stride: nat, idx: nat,
                      e: InProgressPacket, counters: Counters)
    requires 0 < stride && idx in frames && StreamInv(c, frames, stride) && idx in o.inProgress
    requires forall k :: k in o.inProgress && k != idx ==> k in c.inProgress && o.inProgress[k] == c.inProgress[k]
    requires Holds(e, frames[idx], stride) && 1 <= |e.received| <= e.expected
    ensures StreamInv(Finished(o.(inProgress := o.inProgress[idx := e]), idx, e.expected, counters), frames, stride)
  {
    hide Holds;
  }

  /** What is queued is the frame, whole. */
  lemma FinishedQueues(c: StreamComponents, c': StreamComponents, frame: seq<Byte>, stride: nat, idx: nat,
                       e: InProgressPacket, counters: Counters)
    requires 0 < stride && SHARD_PREFIX_SIZE < |frame| && Holds(e, frame, stride)
    requires c'.packetQueue == c.packetQueue + (if |e.received| == e.expected
               then [ReconstructedPacket(idx, e.buffer, e.bufferLength, counters)] else [])
    ensures QueueGrows(c, c', idx, frame)
  {
    if |e.received| == e.expected {
      CompleteIsFaithful(e, frame, stride, idx, counters);
    }
    hide Holds, Faithful;
  }

  lemma FinishedKeeps(c: StreamComponents, o: StreamComponents, frames: map<nat, seq<Byte>>, stride: nat, idx: nat,
                      e: InProgressPacket, i: nat, counters: Counters, deadline: Option<int>, victim: Option<nat>)
    requires 0 < stride && idx in frames && i < ShardCount(|frames[idx]|, stride) && StreamInv(c, frames, stride)
    requires forall k :: k in o.inProgress && k != idx ==> k in c.inProgress && o.inProgress[k] == c.inProgress[k]
    requires o.packetQueue == c.packetQueue
    requires Holds(e, frames[idx], stride)
    requires idx in o.inProgress && e.deadline == o.inProgress[idx].deadline && Kept(c, o, idx, deadline, victim)
    requires e.received == ReceivedOf(c, idx) + {i}
    ensures var c' := Finished(o.(inProgress := o.inProgress[idx := e]), idx, ShardCount(|frames[idx]|, stride),
                               counters);
            && StreamInv(c', frames, stride)
            && QueueGrows(c, c', idx, frames[idx])
            && Progress(c, c', idx, i, ShardCount(|frames[idx]|, stride))
            && Kept(c, c', idx, deadline, victim)
  {
    var n := ShardCount(|frames[idx]|, stride);
    ShardInRange(|frames[idx]|, stride, i);
    assert i in e.received && e.expected == n;
    ReceivedFits(e, frames[idx], stride);
    hide ShardCount, Holds, Kept, Progress, QueueGrows, StreamInv, ReceivedOf;
    FinishedProgress(c, o, idx, n, e, i, counters, deadline, victim);
    var c' := Finished(o.(inProgress := o.inProgress[idx := e]), idx, n, counters);
    hide Finished;
    FinishedQueues(c, c', frames[idx], stride, idx, e, counters);
    FinishedHolds(c, o, frames, stride, idx, e, counters);
  }

  lemma ReceivedFits(e: InProgressPacket, frame: seq<Byte>, stride: nat)
    requires 0 < stride && Holds(e, frame, stride) && e.received != {}
    ensures 1 <= |e.received| <= e.expected
  {
    hide ShardCount, PieceHeld, LengthWitnessed, ShardEnd;
    FullSet(e.received, e.expected);
  }

  lemma ArriveKeeps(c: StreamComponents, frames: map<nat, seq<Byte>>, stride: nat, tag: FrameTag, i: nat,
                    deadline: Option<int>, victim: Option<nat>, counters: Counters)
    requires tag.Valid() && 0 < stride && tag.packetIndex in frames
    requires i < ShardCount(|frames[tag.packetIndex]|, stride)
    requires StreamInv(c, frames, stride) && LegalVictim(c, tag.packetIndex, victim)
    ensures var c' := ArrivedStream(c, frames[tag.packetIndex], stride, tag, i, deadline, victim, counters);
            && StreamInv(c', frames, stride)
            && QueueGrows(c, c', tag.packetIndex, frames[tag.packetIndex])
            && Progress(c, c', tag.packetIndex, i, ShardCount(|frames[tag.packetIndex]|, stride))
            && Kept(c, c', tag.packetIndex, deadline, victim)
  {
    var idx := tag.packetIndex;
    OpenedHolds(c, frames, stride, idx, deadline, victim);
    var o := Opened(c, idx, ShardCount(|frames[idx]|, stride), deadline, victim);
    StoreHolds(o.inProgress[idx], tag, frames[idx], stride, i);
    var e := Store(o.inProgress[idx], i, Shard(tag, frames[idx], stride, i), stride);
    assert e.received == o.inProgress[idx].received + {i};
    FinishedKeeps(c, o, frames, stride, idx, e, i, counters, deadline, victim);
  }

  lemma ArrivalKeepsInv(frames: Frames, stride: nat, s: SocketState, e: Event, mid: SocketState)
    requires 0 < stride && Inv(frames, stride, s) && e.Arrival?
    requires FromFrames(frames, stride, e.tag, e.shardIndex) && ArrivalStep(s, frames, stride, e, mid)
    ensures Inv(frames, stride, mid)
  {
    var sid, idx := e.tag.streamId, e.tag.packetIndex;
    ArriveKeeps(s.streams[sid], frames[sid], stride, e.tag, e.shardIndex, e.deadline, e.victim, e.counters);
    hide ArrivedStream, Open, Logged, FateInv, QueueGrows, NewFates, Progress;
    StreamChangeKeepsInv(frames, stride, s, sid, idx, mid.streams[sid], mid);
  }

  /** One stream moves on, and what it queues is the frame of the shard, whole. */
  lemma StreamChangeKeepsInv(frames: Frames, stride: nat, s: SocketState, sid: nat, idx: nat, c': StreamComponents,
                             mid: SocketState)
    requires 0 < stride && Inv(frames, stride, s) && sid in s.streams && sid in frames && idx in frames[sid]
    requires StreamInv(c', frames[sid], stride) && QueueGrows(s.streams[sid], c', idx, frames[sid][idx])
    requires mid.streams == s.streams[sid := c'] && mid.lost == s.lost
    requires mid.log == s.log + multiset(NewFates(sid, s.streams[sid], c'))
    ensures Inv(frames, stride, mid)
  {
    var c := s.streams[sid];
    LogOnlyGrows(s.lost, s.log, mid.log);
    StreamChangeFates(frames, stride, s, sid, idx, c', mid.log);
    hide StreamInv, Logged, NewFates, QueueGrows, FateInv;
  }

  lemma StreamChangeFates(frames: Frames, stride: nat, s: SocketState, sid: nat, idx: nat, c': StreamComponents,
                          log': multiset<Fate>)
    requires 0 < stride && sid in s.streams && sid in frames && idx in frames[sid]
    requires forall f :: f in s.log ==> FateInv(frames, stride, f)
    requires forall p :: p in s.streams[sid].packetQueue ==> Completed(sid, p) in s.log
    requires QueueGrows(s.streams[sid], c', idx, frames[sid][idx])
    requires log' == s.log + multiset(NewFates(sid, s.streams[sid], c'))
    ensures forall f :: f in log' ==> FateInv(frames, stride, f)
    ensures forall p :: p in c'.packetQueue ==> Completed(sid, p) in log'
  {
    var c := s.streams[sid];
    NewFatesCases(sid, c, c', idx, frames[sid][idx]);
    var added := NewFates(sid, c, c');
    hide NewFates, QueueGrows, Faithful;
    if added != [] {
      assert FateInv(frames, stride, added[0]);
      assert added == [added[0]] && added[0] in log';
      assert added[0] == Completed(sid, added[0].packet);
      hide FateInv;
    }
  }

  lemma NewFatesCases(sid: nat, c: StreamComponents, c': StreamComponents, idx: nat, frame: seq<Byte>)
    requires QueueGrows(c, c', idx, frame)
    ensures var added := NewFates(sid, c, c');
      || (added == [] && c'.packetQueue == c.packetQueue)
      || (|added| == 1 && added[0].Completed? && added[0].streamId == sid
          && c'.packetQueue == c.packetQueue + [added[0].packet]
          && added[0].packet.index == idx && Faithful(added[0].packet, frame))
  {
    if c'.packetQueue != c.packetQueue {
      var n := |c.packetQueue|;
      assert c'.packetQueue == c'.packetQueue[..n] + [c'.packetQueue[n]];
    }
  }

  lemma LogOnlyGrows(lost: map<nat, int>, log: multiset<Fate>, log': multiset<Fate>)
    requires log <= log' && forall id :: id in lost ==> Logged(log, id, lost[id])
    ensures forall id :: id in lost ==> Logged(log', id, lost[id])
  {
    forall id | id in lost
      ensures Logged(log', id, lost[id])
    {
      var sid :| Lost(sid, id, lost[id]) in log;
      assert Lost(sid, id, lost[id]) in log';
    }
  }

  lemma ReportsAre(streams: map<nat, StreamComponents>, now: int, f: Fate) returns (idx: nat)
    requires f in Reports(streams, now)
    ensures f.Lost? && f.packetIndex == idx && f.streamId in streams
    ensures idx in streams[f.streamId].inProgress && Expired(streams[f.streamId].inProgress[idx], now)
    ensures f.shards == streams[f.streamId].inProgress[idx].expected - |streams[f.streamId].inProgress[idx].received|
  {
    var sid :| sid in streams && f in StreamReports(streams[sid], sid, now);
    idx := f.packetIndex;
  }

  lemma SweepKeepsInv(frames: Frames, stride: nat, s: SocketState, now: int, s': SocketState)
    requires 0 < stride && Inv(frames, stride, s) && SweepStep(s, now, s')
    ensures Inv(frames, stride, s')
  {
    SweepKeepsStreams(frames, stride, s, now, s');
    SweepKeepsFateInv(frames, stride, s, now, s');
    SweepKeepsTable(s, now, s');
    hide StreamInv, FateInv, Logged, Reports, TableAfter;
  }

  lemma SweepKeepsStreams(frames: Frames, stride: nat, s: SocketState, now: int, s': SocketState)
    requires 0 < stride && Inv(frames, stride, s) && SweepStep(s, now, s')
    ensures forall sid :: sid in s'.streams ==>
      sid in s.streams && s'.streams[sid].packetQueue == s.streams[sid].packetQueue
      && StreamInv(s'.streams[sid], if sid in frames then frames[sid] else map[], stride)
  {
    hide FateInv, Logged, Reports, Open;
    forall sid | sid in s'.streams
      ensures StreamInv(s'.streams[sid], if sid in frames then frames[sid] else map[], stride)
    {
      assert StreamInv(s.streams[sid], if sid in frames then frames[sid] else map[], stride);
    }
  }

  lemma SweepKeepsFateInv(frames: Frames, stride: nat, s: SocketState, now: int, s': SocketState)
    requires 0 < stride && Inv(frames, stride, s) && SweepStep(s, now, s')
    ensures forall f :: f in s'.log ==> FateInv(frames, stride, f)
  {
    hide Logged, TableAfter, Holds;
    forall f | f in s'.log && f !in s.log
      ensures FateInv(frames, stride, f)
    {
      var idx := ReportsAre(s.streams, now, f);
      assert StreamInv(s.streams[f.streamId], if f.streamId in frames then frames[f.streamId] else map[], stride);
      ExpectedIs(s.streams[f.streamId].inProgress[idx], frames[f.streamId][idx], stride);
    }
  }

  lemma ExpectedIs(e: InProgressPacket, frame: seq<Byte>, stride: nat)
    requires 0 < stride && Open(e, frame, stride)
    ensures e.expected == ShardCount(|frame|, stride) && 1 <= |e.received| < e.expected
  {
  }

  lemma SweepKeepsTable(s: SocketState, now: int, s': SocketState)
    requires SweepStep(s, now, s') && forall id :: id in s.lost ==> Logged(s.log, id, s.lost[id])
    ensures forall id :: id in s'.lost ==> Logged(s'.log, id, s'.lost[id])
  {
    var reports := Reports(s.streams, now);
    hide Reports;
    forall id | id in s'.lost
      ensures Logged(s'.log, id, s'.lost[id])
    {
      if SomeReport(reports, id) {
        var sid :| Lost(sid, id, s'.lost[id]) in reports;
        assert Lost(sid, id, s'.lost[id]) in s'.log;
      } else {
        var sid :| Lost(sid, id, s.lost[id]) in s.log;
        assert Lost(sid, id, s'.lost[id]) in s'.log;
      }
    }
  }

  lemma ArrivalThenSweep(frames: Frames, stride: nat, s: SocketState, e: Event, mid: SocketState, s': SocketState)
    requires 0 < stride && e.Arrival? && FromFrames(frames, stride, e.tag, e.shardIndex)
    requires ArrivalStep(s, frames, stride, e, mid) && Inv(frames, stride, mid) && SweepStep(mid, e.now, s')
    ensures Step(frames, stride, s, e, s') && Inv(frames, stride, s')
    ensures forall sid :: sid in s'.streams <==> sid in mid.streams
    ensures forall sid :: sid in s'.streams ==> s'.streams[sid].packetQueue == mid.streams[sid].packetQueue
  {
    SweepKeepsInv(frames, stride, mid, e.now, s');
  }

  lemma StepKeepsInv(frames: Frames, stride: nat, s: SocketState, e: Event, s': SocketState)
    requires 0 < stride && Inv(frames, stride, s) && Step(frames, stride, s, e, s')
    ensures Inv(frames, stride, s')
  {
    if e.Arrival? {
      hide Inv;
      var mid :| ArrivalStep(s, frames, stride, e, mid) && SweepStep(mid, e.now, s');
      ArrivalKeepsInv(frames, stride, s, e, mid);
      SweepKeepsInv(frames, stride, mid, e.now, s');
    } else if e.Sweep? {
      SweepKeepsInv(frames, stride, s, e.now, s');
    } else {
      QuietKeepsInv(frames, stride, s, e, s');
    }
  }

  /** Events that bring no shard and report no loss: an entry or a queued packet can only go. */
  lemma QuietKeepsInv(frames: Frames, stride: nat, s: SocketState, e: Event, s': SocketState)
    requires 0 < stride && Inv(frames, stride, s) && Step(frames, stride, s, e, s') && !e.Arrival? && !e.Sweep?
    ensures Inv(frames, stride, s')
  {
    hide Open, FateInv, Logged;
    forall sid | sid in s'.streams
      ensures StreamInv(s'.streams[sid], if sid in frames then frames[sid] else map[], stride)
      ensures forall p :: p in s'.streams[sid].packetQueue ==> Completed(sid, p) in s'.log
    {
      assert sid in s.streams ==> StreamInv(s.streams[sid], if sid in frames then frames[sid] else map[], stride);
    }
  }

  lemma QueuedIsFaithful(frames: Frames, stride: nat, s: SocketState, sid: nat, p: ReconstructedPacket)
    requires 0 < stride && Inv(frames, stride, s) && sid in s.streams && p in s.streams[sid].packetQueue
    ensures sid in frames && p.index in frames[sid] && Faithful(p, frames[sid][p.index])
  {
    assert FateInv(frames, stride, Completed(sid, p));
  }

  /**
   * Round trip of every run: whatever the order, duplication and interleaving of the shards, and whatever stale
   * bytes the recycled buffers hold, every packet ever queued is the frame that was sent.
   */
  lemma {:induction false} EveryRunIsFaithful(frames: Frames, stride: nat, states: seq<SocketState>, events: seq<Event>,
                                              k: nat)
    requires 0 < stride && IsRun(frames, stride, states, events) && k < |states|
    ensures Inv(frames, stride, states[k])
    ensures forall sid, p :: sid in states[k].streams && p in states[k].streams[sid].packetQueue ==>
              sid in frames && p.index in frames[sid] && Faithful(p, frames[sid][p.index])
  {
    if k > 0 {
      EveryRunIsFaithful(frames, stride, states, events, k - 1);
      StepKeepsInv(frames, stride, states[k - 1], events[k - 1], states[k]);
    }
  }
}
