/** The reader of a stream: takes completed packets off the queue, drops those that are too late, counts gaps. */
module Delivery {
  import opened Bytes
  import opened SerialOrder
  import opened Reassembly

  datatype ReceiverState = ReceiverState(last: Option<nat>, pending: Counters)

  datatype ReceiverData = ReceiverData(
    index: nat, buffer: seq<Byte>, size: nat, hadPacketLoss: bool, framesSkipped: nat, counters: Counters)

  const FRESH := ReceiverState(None, Counters(0, 0, 0))

  function AddCounters(a: Counters, b: Counters): Counters {
    Counters(WrappingAdd(a.rxBytes, b.rxBytes), WrappingAdd(a.newShards, b.newShards),
             WrappingAdd(a.duplicateShards, b.duplicateShards))
  }

  /** A packet is stale when it is not after the last one delivered, in wrap-around order. */
  predicate Stale(last: Option<nat>, index: nat) {
    last.Some? && WrappingCmp(index, WrappingAdd(last.value, 1)) == Less
  }

  /** The frames missing between the last delivered packet and this one. */
  function Skipped(last: Option<nat>, index: nat): nat {
    if last.Some? && WrappingCmp(index, WrappingAdd(last.value, 1)) == Greater
    then WrappingSub(index, WrappingAdd(last.value, 1)) else 0
  }

  function Accepts(s: ReceiverState, p: ReconstructedPacket): (ReceiverState, Option<ReceiverData>) {
    var counters := AddCounters(s.pending, p.counters);
    if Stale(s.last, p.index) then (s.(pending := counters), None)
    else
      (ReceiverState(Some(p.index), Counters(0, 0, 0)),
       Some(ReceiverData(p.index, p.buffer, p.size, Skipped(s.last, p.index) > 0, Skipped(s.last, p.index), counters)))
  }

  datatype Polled = TryAgain | Delivered(data: ReceiverData)

  class StreamReceiver {
    var lastPacketIndex: Option<nat>
    var pending: Counters

    constructor ()
      ensures View() == FRESH
    {
      lastPacketIndex, pending := None, Counters(0, 0, 0);
    }

    ghost function View(): ReceiverState
      reads this
    {
      ReceiverState(lastPacketIndex, pending)
    }

    /**
     * Polls the packet queue once: `rest` is what stays in it, `recycled` the buffer of a packet that came too late.
     */
    method Recv(queue: seq<ReconstructedPacket>)
      returns (rest: seq<ReconstructedPacket>, r: Polled, recycled: Option<seq<Byte>>)
      modifies this
      ensures queue == [] ==> r == TryAgain && rest == [] && recycled == None && View() == old(View())
      ensures queue != [] ==>
                var (s, d) := Accepts(old(View()), queue[0]);
                && rest == queue[1..] && View() == s
                && r == (if d.Some? then Delivered(d.value) else TryAgain)
                && recycled == (if d.Some? then None else Some(queue[0].buffer))
    {
      recycled := None;
      if queue == [] {
        return [], TryAgain, None;
      }
      var packet := queue[0];
      rest := queue[1..];
      pending := AddCounters(pending, packet.counters);
      var hadPacketLoss, framesSkipped := false, 0;
      if lastPacketIndex.Some? {
        var expected := WrappingAdd(lastPacketIndex.value, 1);
        match WrappingCmp(packet.index, expected)
        case Equal =>
        case Greater =>
          framesSkipped, hadPacketLoss := WrappingSub(packet.index, expected), true;
        case Less =>
          return rest, TryAgain, Some(packet.buffer);
      }
      r := Delivered(ReceiverData(packet.index, packet.buffer, packet.size, hadPacketLoss, framesSkipped, pending));
      pending := Counters(0, 0, 0);
      lastPacketIndex := Some(packet.index);
    }
  }

  /** What polling through a sequence of packets delivers. */
  function Deliveries(s: ReceiverState, packets: seq<ReconstructedPacket>): seq<ReceiverData>
    decreases |packets|
  {
    if packets == [] then [] else
    var (s', d) := Accepts(s, packets[0]);
    (if d.Some? then [d.value] else []) + Deliveries(s', packets[1..])
  }

  /** The numbers greater than `best` and than every number before them. */
  function Records(best: Option<nat>, numbers: seq<nat>): seq<nat>
    decreases |numbers|
  {
    if numbers == [] then [] else
    if best.Some? && numbers[0] <= best.value then Records(best, numbers[1..])
    else [numbers[0]] + Records(Some(numbers[0]), numbers[1..])
  }

  /** `numbers` are the unbounded frame numbers behind the packets' wrapped indices. */
  ghost predicate Numbered(packets: seq<ReconstructedPacket>, numbers: seq<nat>) {
    |packets| == |numbers| && forall k :: 0 <= k < |packets| ==> packets[k].index == numbers[k] % U32_MODULUS
  }

  /** Frame numbers that never stray further apart than wrap-around comparison can tell. */
  ghost predicate Near(best: Option<nat>, numbers: seq<nat>) {
    && (forall i, j :: 0 <= i < |numbers| && 0 <= j < |numbers| ==> numbers[i] <= numbers[j] + 0x7FFF_FFFE)
    && (best.Some? ==> forall i :: 0 <= i < |numbers| ==>
          numbers[i] <= best.value + 0x7FFF_FFFE && best.value <= numbers[i] + 0x7FFF_FFFE)
  }

  lemma OneAccept(s: ReceiverState, best: Option<nat>, p: ReconstructedPacket, number: nat)
    requires p.index == number % U32_MODULUS
    requires s.last == (if best.Some? then Some(best.value % U32_MODULUS) else None)
    requires best.Some? ==> -0x7FFF_FFFE <= number - best.value <= 0x7FFF_FFFE
    ensures Stale(s.last, p.index) <==> best.Some? && number <= best.value
    ensures best.Some? && best.value < number ==> Skipped(s.last, p.index) == number - best.value - 1
  {
    if best.Some? {
      var expected := best.value + 1;
      assert WrappingAdd(best.value % U32_MODULUS, 1) == expected % U32_MODULUS;
      AgreesWithIntegers(number, expected);
      SubOfWrapped(number, expected);
    }
  }

  /**
   * Delivery in order: whatever order packets complete in, the frames delivered are exactly those newer than every
   * frame before them, and each gap counted is the number of frames really skipped.
   */
  lemma {:induction false} DeliversRecords(s: ReceiverState, best: Option<nat>, packets: seq<ReconstructedPacket>,
                                           numbers: seq<nat>)
    requires Numbered(packets, numbers) && Near(best, numbers)
    requires s.last == (if best.Some? then Some(best.value % U32_MODULUS) else None)
    ensures InStep(best, Deliveries(s, packets), Records(best, numbers))
    decreases |packets|
  {
    if packets != [] {
      OneAccept(s, best, packets[0], numbers[0]);
      var (s', d) := Accepts(s, packets[0]);
      if d.Some? {
        DeliversRecords(s', Some(numbers[0]), packets[1..], numbers[1..]);
        InStepPrepends(best, numbers[0], d.value, Deliveries(s', packets[1..]),
                       Records(Some(numbers[0]), numbers[1..]));
      } else {
        DeliversRecords(s', best, packets[1..], numbers[1..]);
        assert Deliveries(s, packets) == Deliveries(s', packets[1..]);
      }
    }
  }

  /** Deliveries `d` are the frames numbered `r`, each reporting the gap to the one before (or to `best`). */
  ghost predicate InStep(best: Option<nat>, d: seq<ReceiverData>, r: seq<nat>) {
    && |d| == |r|
    && (forall k :: 0 <= k < |d| ==>
          d[k].index == r[k] % U32_MODULUS && (d[k].hadPacketLoss <==> d[k].framesSkipped > 0))
    && (forall k :: 0 < k < |d| ==> r[k - 1] < r[k] && d[k].framesSkipped == r[k] - r[k - 1] - 1)
    && (|d| > 0 ==>
          if best.Some? then best.value < r[0] && d[0].framesSkipped == r[0] - best.value - 1
          else d[0].framesSkipped == 0)
  }

  lemma InStepPrepends(best: Option<nat>, n: nat, d: ReceiverData, ds: seq<ReceiverData>, rs: seq<nat>)
    requires InStep(Some(n), ds, rs) && d.index == n % U32_MODULUS && (d.hadPacketLoss <==> d.framesSkipped > 0)
    requires if best.Some? then best.value < n && d.framesSkipped == n - best.value - 1 else d.framesSkipped == 0
    ensures InStep(best, [d] + ds, [n] + rs)
  {
    var dd, rr := [d] + ds, [n] + rs;
    forall k | 0 < k < |dd|
      ensures rr[k - 1] < rr[k] && dd[k].framesSkipped == rr[k] - rr[k - 1] - 1
    {
      if k > 1 {
        assert rr[k - 1] == rs[k - 2] && rr[k] == rs[k - 1] && dd[k] == ds[k - 1];
      }
    }
  }

  function Gaps(d: seq<ReceiverData>): nat {
    if d == [] then 0 else 1 + d[0].framesSkipped + Gaps(d[1..])
  }

  /** Each delivery moves the index forward, by one plus the gap it reports. */
  lemma OneMove(s: ReceiverState, p: ReconstructedPacket)
    requires p.index < U32_MODULUS && s.last.Some? && s.last.value < U32_MODULUS && Accepts(s, p).1.Some?
    ensures var d := Accepts(s, p).1.value;
            && WrappingSub(p.index, s.last.value) == 1 + d.framesSkipped
            && 1 + d.framesSkipped <= 0x7FFF_FFFF
  {
  }

  /** With no assumption on the packets: modulo 2^32, last index less first index is the sum of (1 + gap). */
  lemma {:induction false} GapsTelescope(s: ReceiverState, packets: seq<ReconstructedPacket>)
    requires s.last.Some? && s.last.value < U32_MODULUS
    requires forall k :: 0 <= k < |packets| ==> packets[k].index < U32_MODULUS
    ensures WrappingSub(LastIndex(s, packets), s.last.value) == Gaps(Deliveries(s, packets)) % U32_MODULUS
    decreases |packets|
  {
    if packets != [] {
      var (s', d) := Accepts(s, packets[0]);
      GapsTelescope(s', packets[1..]);
      if d.Some? {
        var rest := Deliveries(s', packets[1..]);
        OneMove(s, packets[0]);
        assert ([d.value] + rest)[1..] == rest;
        ModularSum(LastIndex(s', packets[1..]), packets[0].index, s.last.value, Gaps(rest), 1 + d.value.framesSkipped);
      } else {
        assert Deliveries(s, packets) == Deliveries(s', packets[1..]);
      }
    }
  }

  /** The index of the last packet delivered once `packets` have been polled. */
  function LastIndex(s: ReceiverState, packets: seq<ReconstructedPacket>): nat
    requires s.last.Some?
    decreases |packets|
  {
    if packets == [] then s.last.value else LastIndex(Accepts(s, packets[0]).0, packets[1..])
  }

  lemma {:induction false} LastIndexIsLastDelivery(s: ReceiverState, packets: seq<ReconstructedPacket>)
    requires s.last.Some?
    ensures var d := Deliveries(s, packets);
            LastIndex(s, packets) == if d == [] then s.last.value else d[|d| - 1].index
    decreases |packets|
  {
    if packets != [] {
      LastIndexIsLastDelivery(Accepts(s, packets[0]).0, packets[1..]);
    }
  }

  lemma ModularSum(c: nat, b: nat, a: nat, x: nat, y: nat)
    requires WrappingSub(c, b) == x % U32_MODULUS && WrappingSub(b, a) == y
    ensures WrappingSub(c, a) == (y + x) % U32_MODULUS
  {
  }

  /** The gap is computed with a plain subtraction, which underflows exactly when the index has wrapped in between. */
  lemma PlainSubtractionUnderflows(last: nat, number: nat)
    requires 1 <= number - (last + 1) <= 0x7FFF_FFFE
    ensures number % U32_MODULUS - (last + 1) % U32_MODULUS < 0 <==> number / U32_MODULUS != (last + 1) / U32_MODULUS
  {
  }
}
