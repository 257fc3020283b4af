/**
 * What one update makes of the bitrate, in numbers: normal use raises it by 8 percent, or by 32 bits per second for
 * each millisecond once the link has an estimate; over-use lowers it to 85 percent of the throughput; all within the
 * bounds that the link's estimate and the configuration set.
 */
module RateResponse {
  import opened Bytes
  import opened RateControl

  /** The sample, or the last one there was. */
  function Rate(c: Control, input: Input): real {
    match input.throughput case Some(t) => t case None => c.throughput
  }

  /** Three standard deviations of the estimate. */
  function Margin(sqrt: real -> real, l: Link): real
    requires l.estimate.Some?
  {
    3.0 * sqrt(l.deviation * l.estimate.value)
  }

  lemma MarginIs(sqrt: real -> real, l: Link)
    requires l.estimate.Some?
    ensures Spread(sqrt, l) == Margin(sqrt, l)
  {
    var v := l.deviation * l.estimate.value;
    assert Variance(l) == v;
    assert sqrt(Variance(l)) == sqrt(v);
  }

  /** Three standard deviations above the estimate, in bits, and no more than 150 Mbps. */
  function Ceiling(sqrt: real -> real, l: Link): real {
    match l.estimate
    case None => 157286400.0
    case Some(e) => Min(157286400.0, 1024.0 * (e + Margin(sqrt, l)))
  }

  /** Three standard deviations below the estimate, in bits, and no less than 50 kbps. */
  function Floor(sqrt: real -> real, l: Link): real {
    match l.estimate
    case None => 50000.0
    case Some(e) => Max(50000.0, 1024.0 * (e - Margin(sqrt, l)))
  }

  /** The bitrate nearest to `want`: capped, lowered at most to 85 percent of the floor, and at least 50 kbps. */
  function Within(bitrate: real, want: real, floor: real, ceiling: real): real {
    var capped := Min(want, ceiling);
    Max(50000.0, if capped < bitrate then Min(bitrate, Max(capped, 0.85 * floor)) else capped)
  }

  lemma BoundsAre(sqrt: real -> real, l: Link)
    ensures NetworkUpper(sqrt, l) == Ceiling(sqrt, l) && NetworkLower(sqrt, l) == Floor(sqrt, l)
  {
    if l.estimate.Some? {
      MarginIs(sqrt, l);
      hide Spread, Margin;
    }
  }

  lemma SettledIs(sqrt: real -> real, c: Control, wish: Option<real>)
    ensures var s := Settled(sqrt, c, wish);
      && s.bitrate == Within(c.bitrate, if wish.Some? then wish.value else c.bitrate,
                             Floor(sqrt, c.link), Ceiling(sqrt, c.link))
      && s == c.(lower := s.lower, upper := s.upper, bitrate := s.bitrate)
  {
    BoundsAre(sqrt, c.link);
    hide NetworkUpper, NetworkLower, Ceiling, Floor;
  }

  /** The throughput exceeds what the link's estimate allows for, which is then given up. */
  predicate Outgrown(sqrt: real -> real, l: Link, t: real) {
    l.estimate.Some? && t > 1024.0 * (l.estimate.value + Margin(sqrt, l))
  }

  /** What is added: 32 bits for each millisecond, or 8 percent and at least 1000 without an estimate. */
  function Gain(l: Link, bitrate: real, elapsed: int): real {
    if l.estimate.Some? then 32.0 * elapsed as real else Max(0.08 * bitrate, 1000.0)
  }

  lemma IncreasedIs(c: Control, at: int)
    requires c.lastChange.Some? && (c.link.estimate.Some? ==> c.bitrate > 0.0)
    ensures Increased(c, at) == c.bitrate + Gain(c.link, c.bitrate, at - c.lastChange.value)
  {
    hide NearMaxIncrease;
    if c.link.estimate.Some? {
      assert NearMaxIncrease(c.bitrate) == 32000.0;
    }
  }

  lemma OutgrownIs(sqrt: real -> real, l: Link, t: real)
    ensures AboveUpper(sqrt, l, t) <==> Outgrown(sqrt, l, t)
  {
    if l.estimate.Some? {
      MarginIs(sqrt, l);
      hide Spread, Margin;
    }
  }

  /** What an increasing controller wants, and the link it goes on with. */
  lemma GrownIs(sqrt: real -> real, c: Control, t: real, at: int)
    requires c.lastChange.Some? && (c.link.estimate.Some? ==> c.bitrate > 0.0)
    ensures var (g, wish) := Grown(sqrt, c, t, at);
      var link := if Outgrown(sqrt, c.link, t) then c.link.(estimate := None) else c.link;
      && g == c.(link := link, lastChange := Some(at))
      && wish == Wanted(c, link, t, at - c.lastChange.value)
  {
    OutgrownIs(sqrt, c.link, t);
    var d := if Outgrown(sqrt, c.link, t) then c.(link := c.link.(estimate := None)) else c;
    IncreasedIs(d, at);
    hide AboveUpper, Outgrown, Increased, Gain;
  }

  /**
   * Up to half again over the throughput, and nothing in an application-limited region.
   */
  function Wanted(c: Control, link: Link, t: real, elapsed: int): Option<real> {
    var limit := if c.sendSide && c.inAlr then c.bitrate else 1.5 * t + 10240.0;
    if c.bitrate < limit then Some(Min(c.bitrate + Gain(link, c.bitrate, elapsed), limit)) else None
  }

  /** The controller increases: use is normal, or there is no verdict on it and it increased before. */
  predicate Increases(c: Control, input: Input) {
    c.initialized && (input.usage == Normal || (input.usage == Last && c.state == Increase))
  }

  /**
   * Normal use of an initialised controller, holding or increasing: it increases from now on. The bitrate grows by what
   * `Wanted` says over the time since the last change, within the bounds of the link.
   */
  lemma NormalRaises(sqrt: real -> real, c: Control, input: Input, at: int)
    requires Inv(c) && LegalInput(input) && Increases(c, input)
    ensures var t, u := Rate(c, input), Updated(sqrt, c, input, at);
      var link := if Outgrown(sqrt, c.link, t) then c.link.(estimate := None) else c.link;
      var want := Wanted(c, link, t, if c.state == Increase then at - c.lastChange.value else 0);
      && u.state == Increase && u.lastChange == Some(at) && u.link == link && u.throughput == t
      && u.bitrate == Within(c.bitrate, if want.Some? then want.value else c.bitrate,
                             Floor(sqrt, link), Ceiling(sqrt, link))
  {
    NormalReady(c, input, at);
    UpdatedIs(sqrt, c, input, at);
    hide Updated, Settled, Within, Floor, Ceiling, Grown, Outgrown, Gain, Ready, Wanted;
    var d := Ready(c, input, at);
    GrownIs(sqrt, d, d.throughput, at);
    var (g, wish) := Grown(sqrt, d, d.throughput, at);
    SettledIs(sqrt, g, wish);
    SameWish(c, d, g.link, d.throughput, at - d.lastChange.value);
  }

  lemma NormalReady(c: Control, input: Input, at: int)
    requires Inv(c) && Increases(c, input)
    ensures Ready(c, input, at)
         == c.(throughput := Rate(c, input), state := Increase,
               lastChange := if c.state == Increase then c.lastChange else Some(at))
    ensures !Idle(c, input, at)
  {
  }

  lemma SameWish(c: Control, d: Control, link: Link, t: real, elapsed: int)
    requires d.bitrate == c.bitrate && d.sendSide == c.sendSide && d.inAlr == c.inAlr
    ensures Wanted(d, link, t, elapsed) == Wanted(c, link, t, elapsed)
  {
  }

  /** Below its limit and without an estimate, a controller outside an application-limited region always gains. */
  lemma GainsWithoutEstimate(sqrt: real -> real, c: Control, input: Input, at: int)
    requires Inv(c) && LegalInput(input) && Increases(c, input)
    requires c.link.estimate.None? && !(c.sendSide && c.inAlr) && c.bitrate < 1.5 * Rate(c, input) + 10240.0
    ensures var limit := Min(1.5 * Rate(c, input) + 10240.0, 157286400.0);
      Updated(sqrt, c, input, at).bitrate == Min(c.bitrate + Max(0.08 * c.bitrate, 1000.0), limit)
  {
    NormalRaises(sqrt, c, input, at);
    hide Updated;
  }

  /** The controller holds its bitrate, within bounds, when the link is not used up or there is no verdict. */
  lemma OtherwiseHolds(sqrt: real -> real, c: Control, input: Input, at: int)
    requires Inv(c) && LegalInput(input) && c.initialized && input.usage != Overusing && !Increases(c, input)
    ensures var u := Updated(sqrt, c, input, at);
      && u.state == Hold && u.link == c.link && u.lastChange == c.lastChange && u.throughput == Rate(c, input)
      && u.bitrate == Within(c.bitrate, c.bitrate, Floor(sqrt, c.link), Ceiling(sqrt, c.link))
  {
    UpdatedIs(sqrt, c, input, at);
    hide Updated, Settled, Within, Floor, Ceiling;
    SettledIs(sqrt, Ready(c, input, at), None);
  }

  ghost predicate SteadyUse(samples: seq<Sample>, t: real) {
    forall k :: 0 <= k < |samples| ==> samples[k].input == Input(Normal, Some(t))
  }

  /** Under normal use at a steady throughput the bitrate climbs, by 1000 an update at least, up to its limit. */
  lemma {:induction false} ClimbsToLimit(sqrt: real -> real, c: Control, samples: seq<Sample>, t: real)
    requires Inv(c) && t >= 0.0 && Legal(samples) && SteadyUse(samples, t)
    requires c.initialized && c.link.estimate.None? && !(c.sendSide && c.inAlr)
    ensures var r := After(sqrt, c, samples);
      && r.initialized && r.link.estimate.None? && r.sendSide == c.sendSide && r.inAlr == c.inAlr
      && r.bitrate >= Min(c.bitrate + 1000.0 * |samples| as real, Min(1.5 * t + 10240.0, 157286400.0))
  {
    if samples != [] {
      var n := |samples| - 1;
      ClimbsToLimit(sqrt, c, samples[..n], t);
      var b := After(sqrt, c, samples[..n]);
      ClimbsOnce(sqrt, b, samples[n], t);
      hide After, Updated, Inv;
      assert After(sqrt, c, samples) == Updated(sqrt, b, samples[n].input, samples[n].at);
    }
  }

  lemma ClimbsOnce(sqrt: real -> real, b: Control, sample: Sample, t: real)
    requires Inv(b) && t >= 0.0 && sample.input == Input(Normal, Some(t))
    requires b.initialized && b.link.estimate.None? && !(b.sendSide && b.inAlr)
    ensures var u := Updated(sqrt, b, sample.input, sample.at);
      && u.initialized && u.link.estimate.None? && u.sendSide == b.sendSide && u.inAlr == b.inAlr
      && u.bitrate >= Min(b.bitrate + 1000.0, Min(1.5 * t + 10240.0, 157286400.0))
  {
    NormalRaises(sqrt, b, sample.input, sample.at);
  }

  // Over-use.

  /** The throughput is not below what the link's estimate allows for. */
  predicate Known(sqrt: real -> real, l: Link, t: real) {
    l.estimate.Some? && t >= 1024.0 * Max(0.0, l.estimate.value - Margin(sqrt, l))
  }

  /** The link takes the sample with a weight of 5 percent, or starts over with it if it is below the floor. */
  function Learned(sqrt: real -> real, l: Link, t: real): Link {
    var sample := 0.001 * t;
    var estimate := if Known(sqrt, l, t) then 0.95 * l.estimate.value + 0.05 * sample else sample;
    Link(Some(estimate), Max(0.4, Min(2.5, 0.95 * l.deviation + 0.05 * Error(estimate, sample))))
  }

  /** The square of the error over the estimate. */
  function Error(estimate: real, sample: real): real {
    (sample - estimate) * (sample - estimate) / Max(1.0, estimate)
  }

  lemma ErrorIs(estimate: real, sample: real)
    ensures NormalisedError(estimate, sample) == Error(estimate, sample)
  {
    var x, y := estimate - sample, sample - estimate;
    assert x * x == y * y;
  }

  lemma ObservedIs(l: Link, t: real)
    ensures var o, sample := Observed(l, t, 0.05), 0.001 * t;
      && o.estimate == Some(if l.estimate.Some? then 0.95 * l.estimate.value + 0.05 * sample else sample)
      && o.deviation == Max(0.4, Min(2.5, 0.95 * l.deviation + 0.05 * Error(o.estimate.value, sample)))
  {
    var o, sample := Observed(l, t, 0.05), 0.001 * t;
    ErrorIs(o.estimate.value, sample);
    hide NormalisedError, Error;
  }

  lemma OverusedIs(sqrt: real -> real, l: Link, t: real)
    requires t >= 0.0
    ensures Overused(sqrt, l, t) == Learned(sqrt, l, t)
  {
    var m := if t < LowerBound(sqrt, l) then l.(estimate := None) else l;
    KnownIs(sqrt, l, t);
    ObservedIs(m, t);
    hide Observed, Error, LowerBound, Known;
  }

  lemma KnownIs(sqrt: real -> real, l: Link, t: real)
    requires t >= 0.0
    ensures Known(sqrt, l, t) <==> l.estimate.Some? && !(t < LowerBound(sqrt, l))
    ensures l.estimate.None? ==> !(t < LowerBound(sqrt, l))
  {
    if l.estimate.Some? {
      MarginIs(sqrt, l);
      hide Spread, Margin;
    }
  }

  /** What over-use calls for: 85 percent of the throughput, or of the estimate if that is the lower one. */
  function Target(c: Control, t: real): real {
    if 0.85 * t <= c.bitrate || c.link.estimate.None? then 0.85 * t else 0.85 * (1024.0 * c.link.estimate.value)
  }

  /** The first five seconds of samples have just gone by. */
  predicate Starting(c: Control, input: Input, at: int) {
    !c.initialized && input.throughput.Some? && c.firstThroughput.Some? && at - c.firstThroughput.value > 5000
  }

  /** The bitrate an update starts from: the sample, if with it the controller starts. */
  function Base(c: Control, input: Input, at: int): real {
    if Starting(c, input, at) then input.throughput.value else c.bitrate
  }

  /**
   * Over-use, initialised or not: the controller holds, the link learns the throughput, and the bitrate goes down to
   * the target, if that is below it, within the bounds of the new link.
   */
  lemma OveruseLowers(sqrt: real -> real, c: Control, input: Input, at: int)
    requires Inv(c) && LegalInput(input) && input.usage == Overusing
    ensures var t, u, b := Rate(c, input), Updated(sqrt, c, input, at), c.(bitrate := Base(c, input, at));
      && u.state == Hold && u.initialized && u.lastChange == u.lastDecreaseAt == Some(at) && u.throughput == t
      && u.link == Learned(sqrt, c.link, t)
      && u.bitrate == Within(b.bitrate, Min(Target(b, t), b.bitrate), Floor(sqrt, u.link), Ceiling(sqrt, u.link))
      && u.bitrate <= Max(b.bitrate, 50000.0)
      && u.lastDecrease == (if !(c.initialized || Starting(c, input, at)) || b.bitrate <= t then c.lastDecrease
                            else if Target(b, t) < b.bitrate then Some(b.bitrate - Target(b, t)) else None)
  {
    OveruseReady(c, input, at);
    UpdatedIs(sqrt, c, input, at);
    hide Updated, Acted, Ready, Learned, Starting, Floor, Ceiling, Target, Idle;
    var d, b := Ready(c, input, at), c.(bitrate := Base(c, input, at));
    hide Base;
    Shrinks(sqrt, b, d, at);
  }

  lemma Shrinks(sqrt: real -> real, b: Control, d: Control, at: int)
    requires d.state == Decrease && d.bitrate == b.bitrate && d.link == b.link && d.throughput >= 0.0
    ensures var t, u := d.throughput, Acted(sqrt, d, d.throughput, at);
      && u.state == Hold && u.initialized && u.lastChange == u.lastDecreaseAt == Some(at) && u.throughput == t
      && u.link == Learned(sqrt, b.link, t)
      && u.bitrate == Within(b.bitrate, Min(Target(b, t), b.bitrate), Floor(sqrt, u.link), Ceiling(sqrt, u.link))
      && u.bitrate <= Max(b.bitrate, 50000.0)
      && u.lastDecrease == (if !d.initialized || b.bitrate <= t then d.lastDecrease
                            else if Target(b, t) < b.bitrate then Some(b.bitrate - Target(b, t)) else None)
  {
    OverusedIs(sqrt, d.link, d.throughput);
    LoweredIs(b, d, d.throughput);
    LastDecreaseIs(b, d, d.throughput);
    hide Settled, Floor, Ceiling, Overused, Learned, Lowered, Target, LastDecrease;
    SettledIs(sqrt, Shrunk(sqrt, d, d.throughput, at), Lowered(d, d.throughput));
  }

  /**
   * A controller that has not started, while there is no over-use: it keeps its first bitrate until a sample comes in
   * more than five seconds after the first one, and then starts from that sample.
   */
  lemma StartsFromSample(sqrt: real -> real, c: Control, input: Input, at: int)
    requires Inv(c) && LegalInput(input) && !c.initialized && input.usage != Overusing
    ensures var u := Updated(sqrt, c, input, at);
      var starts := Starting(c, input, at);
      && (u.initialized <==> starts) && u.throughput == Rate(c, input) && u.link == c.link
      && (!starts ==>
            && u.bitrate == 30720000.0 && u.state == Hold
            && u.firstThroughput
                 == if c.firstThroughput.None? && input.throughput.Some? then Some(at) else c.firstThroughput)
      && (starts ==>
            var t := input.throughput.value;
            var want := if input.usage == Normal && !(c.sendSide && c.inAlr) then t + Max(0.08 * t, 1000.0) else t;
            u.bitrate == Max(50000.0, Min(157286400.0, want)))
  {
  }

  lemma OveruseReady(c: Control, input: Input, at: int)
    requires Inv(c) && input.usage == Overusing
    ensures var d := Ready(c, input, at);
      d == c.(bitrate := Base(c, input, at), throughput := Rate(c, input), state := Decrease,
              initialized := c.initialized || Starting(c, input, at), firstThroughput := d.firstThroughput)
    ensures !Idle(c, input, at)
  {
  }

  lemma LastDecreaseIs(b: Control, d: Control, t: real)
    requires d.bitrate == b.bitrate && d.link == b.link
    ensures LastDecrease(d, t)
         == if !d.initialized || b.bitrate <= t then d.lastDecrease
            else if Target(b, t) < b.bitrate then Some(b.bitrate - Target(b, t)) else None
  {
  }

  lemma LoweredIs(b: Control, d: Control, t: real)
    requires d.bitrate == b.bitrate && d.link == b.link
    ensures (if Lowered(d, t).Some? then Lowered(d, t).value else d.bitrate) == Min(Target(b, t), b.bitrate)
  {
  }
}
