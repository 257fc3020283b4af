/** From the sender's frames to what the reader of the video stream hands to the application. */
module VideoReader {
  import opened Bytes
  import opened Reassembly
  import opened SocketRuns
  import opened StreamSocket
  import opened Delivery
  import opened Accounting

  /** The reader after taking these packets. */
  function After(s: ReceiverState, packets: seq<ReconstructedPacket>): ReceiverState
    decreases |packets|
  {
    if packets == [] then s else After(Accepts(s, packets[0]).0, packets[1..])
  }

  lemma {:induction false} TakesOneMore(s: ReceiverState, packets: seq<ReconstructedPacket>, p: ReconstructedPacket)
    ensures var (s', d) := Accepts(After(s, packets), p);
            && After(s, packets + [p]) == s'
            && Deliveries(s, packets + [p]) == Deliveries(s, packets) + (if d.Some? then [d.value] else [])
    decreases |packets|
  {
    hide Accepts;
    var all := packets + [p];
    if packets == [] {
      assert all[0] == p && all[1..] == [];
    } else {
      TakesOneMore(Accepts(s, packets[0]).0, packets[1..], p);
      assert all[0] == packets[0] && all[1..] == packets[1..] + [p];
    }
  }

  /** The delivered frame is the one its index names: the sender's size, and its bytes behind the prefix. */
  ghost predicate Intact(frames: Frames, index: nat, size: nat, buffer: seq<Byte>) {
    && VIDEO_STREAM in frames && index in frames[VIDEO_STREAM]
    && Faithful(ReconstructedPacket(index, buffer, size, NO_COUNTS), frames[VIDEO_STREAM][index])
  }

  ghost predicate ReaderInv(frames: Frames, stride: nat, s: System)
    requires 0 < stride
  {
    && Inv(frames, stride, s.socket)
    && s.receiver == After(FRESH, s.taken) && s.delivered == Deliveries(FRESH, s.taken)
    && (forall p :: p in s.taken ==> Intact(frames, p.index, p.size, p.buffer))
    && (forall d :: d in s.delivered ==> Intact(frames, d.index, d.size, d.buffer))
  }

  lemma QueuedIsIntact(frames: Frames, stride: nat, s: System, p: ReconstructedPacket)
    requires 0 < stride && Inv(frames, stride, s.socket) && p in s.Queue()
    ensures Intact(frames, p.index, p.size, p.buffer)
  {
    QueuedIsFaithful(frames, stride, s.socket, VIDEO_STREAM, p);
  }

  lemma MoveKeepsReader(frames: Frames, stride: nat, s: System, m: Move, s': System)
    requires 0 < stride && ReaderInv(frames, stride, s) && Moves(frames, stride, s, m, s')
    ensures ReaderInv(frames, stride, s')
  {
    hide Inv, Step, Intact, Deliveries, After, Stale, Skipped, AddCounters;
    match m
    case Stall(_) =>
    case Receive(e) => StepKeepsInv(frames, stride, s.socket, e, s'.socket);
    case Poll =>
      StepKeepsInv(frames, stride, s.socket, Take(VIDEO_STREAM), s'.socket);
      QueuedIsIntact(frames, stride, s, s.Queue()[0]);
      TakesOneMore(FRESH, s.taken, s.Queue()[0]);
    case Renew(e) =>
      StepKeepsInv(frames, stride, s.socket, e, s'.socket);
      NothingTaken(FRESH);
    case Other(e) => StepKeepsInv(frames, stride, s.socket, e, s'.socket);
  }

  lemma NothingTaken(s: ReceiverState)
    ensures After(s, []) == s && Deliveries(s, []) == []
  {
  }

  lemma {:induction false} RunKeepsReader(frames: Frames, stride: nat, systems: seq<System>, moves: seq<Move>, k: nat)
    requires 0 < stride && IsSystemRun(frames, stride, systems, moves) && k < |systems|
    ensures ReaderInv(frames, stride, systems[k])
  {
    hide Moves, Deliveries, After;
    if k > 0 {
      hide ReaderInv;
      RunKeepsReader(frames, stride, systems, moves, k - 1);
      MoveKeepsReader(frames, stride, systems[k - 1], moves[k - 1], systems[k]);
    } else {
      NothingTaken(FRESH);
    }
  }

  /**
   * End to end, over every run: the frames a reader of the video stream delivers are, in order, exactly the packets it
   * took that are newer than all before; gaps are counted right; and each has the sender's size and bytes for its
   * index, whatever arrived repeated, interleaved, late or in recycled buffers.
   */
  lemma DeliversSentFrames(frames: Frames, stride: nat, systems: seq<System>, moves: seq<Move>, k: nat,
                           numbers: seq<nat>)
    requires 0 < stride && IsSystemRun(frames, stride, systems, moves) && k < |systems|
    requires Numbered(systems[k].taken, numbers) && Near(None, numbers)
    ensures InStep(None, systems[k].delivered, Records(None, numbers))
    ensures forall d :: d in systems[k].delivered ==> Intact(frames, d.index, d.size, d.buffer)
  {
    RunKeepsReader(frames, stride, systems, moves, k);
    hide IsSystemRun, Inv, Deliveries, Numbered, Near, InStep, Intact, After;
    DeliversRecords(FRESH, None, systems[k].taken, numbers);
  }
}
