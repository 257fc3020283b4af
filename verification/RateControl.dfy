/**
 * The additive-increase, multiplicative-decrease rate controller on values: what one update does to its state,
 * and what holds after every sequence of updates. Floats are reals; the square root is a parameter. A time that
 * was never set is `None`, and so is an infinite bound.
 */
module RateControl {
  import opened Arithmetic
  import opened Bytes

  datatype Usage = Normal | Underusing | Overusing | Last

  datatype State = Hold | Increase | Decrease

  /** The link-capacity estimate, in kbps, and its normalised variance. */
  datatype Link = Link(estimate: Option<real>, deviation: real)

  datatype Input = Input(usage: Usage, throughput: Option<real>)

  datatype Control = Control(
    bitrate: real, throughput: real, link: Link, lower: Option<real>, upper: Option<real>, state: State,
    lastChange: Option<int>, lastDecreaseAt: Option<int>, firstThroughput: Option<int>, initialized: bool,
    lastDecrease: Option<real>, sendSide: bool, inAlr: bool)

  const MIN_BITRATE := 50000.0
  const MAX_BITRATE := 157286400.0
  const START_BITRATE := 30720000.0
  const BETA := 0.85
  const INITIALIZATION_TIME := 5000
  const RTT := 200.0
  const OVERUSE_WEIGHT := 0.05

  function Start(sendSide: bool): Control {
    Control(START_BITRATE, START_BITRATE, Link(None, 0.4), None, None, Hold, None, None, None, false, Some(0.0),
            sendSide, false)
  }

  function Min(x: real, y: real): real { if x <= y then x else y }

  function Max(x: real, y: real): real { if x >= y then x else y }

  // The link-capacity estimator.

  function Variance(l: Link): real
    requires l.estimate.Some?
  {
    l.deviation * l.estimate.value
  }

  function Spread(sqrt: real -> real, l: Link): real
    requires l.estimate.Some?
  {
    3.0 * sqrt(Variance(l))
  }

  function UpperBound(sqrt: real -> real, l: Link): Option<real> {
    if l.estimate.None? then None else Some((l.estimate.value + Spread(sqrt, l)) * 1024.0)
  }

  function LowerBound(sqrt: real -> real, l: Link): real {
    if l.estimate.None? then 0.0 else Max(0.0, l.estimate.value - Spread(sqrt, l)) * 1024.0
  }

  function Blend(x: real, y: real, weight: real): real { (1.0 - weight) * x + weight * y }

  /** The squared error of an estimate, relative to the estimate. */
  function NormalisedError(estimate: real, sample: real): real {
    (estimate - sample) * (estimate - sample) / Max(estimate, 1.0)
  }

  function Deviation(l: Link, estimate: real, sample: real, weight: real): real {
    Max(0.4, Min(2.5, Blend(l.deviation, NormalisedError(estimate, sample), weight)))
  }

  function Observed(l: Link, rate: real, weight: real): Link {
    var sample := rate * 0.001;
    var estimate := if l.estimate.None? then sample else Blend(l.estimate.value, sample, weight);
    Link(Some(estimate), Deviation(l, estimate, sample, weight))
  }

  // One update of the controller.

  /** After five seconds of throughput samples the next one becomes the bitrate, once. */
  predicate Adopts(c: Control, input: Input, at: int) {
    && !c.initialized && input.throughput.Some?
    && c.firstThroughput.Some? && at - c.firstThroughput.value > INITIALIZATION_TIME
  }

  function Begun(c: Control, input: Input, at: int): Control {
    if Adopts(c, input, at) then c.(bitrate := input.throughput.value, initialized := true)
    else if !c.initialized && c.firstThroughput.None? && input.throughput.Some? then c.(firstThroughput := Some(at))
    else c
  }

  function StateChanged(c: Control, usage: Usage, at: int): Control {
    match usage
    case Normal => if c.state == Hold then c.(lastChange := Some(at), state := Increase) else c
    case Overusing => c.(state := Decrease)
    case Underusing => c.(state := Hold)
    case Last => c
  }

  function IncreaseLimit(c: Control, throughput: real): real {
    if c.sendSide && c.inAlr then c.bitrate else 1.5 * throughput + 10240.0
  }

  /** Bits per second to add each second: one packet per response time, whatever the bitrate. */
  function NearMaxIncrease(bitrate: real): (r: real)
    requires bitrate > 0.0
    ensures r == 32000.0
  {
    var frameSize := bitrate * 0.015;
    var packetSize := frameSize / (frameSize / 9600.0);
    Max(4000.0, packetSize / ((RTT + 100.0) * 0.001))
  }

  /** The bitrate after an increase; the elapsed time counts only once the link has an estimate. */
  function Increased(c: Control, at: int): real
    requires c.lastChange.Some? && (c.link.estimate.Some? ==> c.bitrate > 0.0)
  {
    c.bitrate +
    if c.link.estimate.Some? then NearMaxIncrease(c.bitrate) * ((at - c.lastChange.value) as real / 1000.0)
    else Max(c.bitrate * 0.08, 1000.0)
  }

  predicate AboveUpper(sqrt: real -> real, l: Link, throughput: real) {
    l.estimate.Some? && throughput > UpperBound(sqrt, l).value
  }

  function Grown(sqrt: real -> real, c: Control, throughput: real, at: int): (r: (Control, Option<real>))
    requires c.lastChange.Some? && (c.link.estimate.Some? ==> c.bitrate > 0.0)
  {
    var d := if AboveUpper(sqrt, c.link, throughput) then c.(link := c.link.(estimate := None)) else c;
    var limit := IncreaseLimit(d, throughput);
    (d.(lastChange := Some(at)), if d.bitrate < limit then Some(Min(Increased(d, at), limit)) else None)
  }

  function Lowered(c: Control, throughput: real): Option<real> {
    var first := throughput * BETA;
    var target := if first > c.bitrate && c.link.estimate.Some? then BETA * (c.link.estimate.value * 1024.0) else first;
    if target < c.bitrate then Some(target) else None
  }

  function LastDecrease(c: Control, throughput: real): Option<real> {
    if !(c.initialized && throughput < c.bitrate) then c.lastDecrease
    else match Lowered(c, throughput) case Some(b) => Some(c.bitrate - b) case None => None
  }

  function Overused(sqrt: real -> real, l: Link, throughput: real): Link {
    Observed(if throughput < LowerBound(sqrt, l) then l.(estimate := None) else l, throughput, OVERUSE_WEIGHT)
  }

  function Shrunk(sqrt: real -> real, c: Control, throughput: real, at: int): Control {
    c.(lastDecrease := LastDecrease(c, throughput), initialized := true, link := Overused(sqrt, c.link, throughput),
       state := Hold, lastChange := Some(at), lastDecreaseAt := Some(at))
  }

  function NetworkLower(sqrt: real -> real, l: Link): real { Max(LowerBound(sqrt, l), MIN_BITRATE) }

  function NetworkUpper(sqrt: real -> real, l: Link): real {
    match UpperBound(sqrt, l) case Some(b) => Min(b, MAX_BITRATE) case None => MAX_BITRATE
  }

  function Clamped(bitrate: real, wish: real, lower: real, upper: real): real {
    var capped := Min(upper, wish);
    Max(if capped < bitrate then Min(bitrate, Max(capped, lower * BETA)) else capped, MIN_BITRATE)
  }

  function Settled(sqrt: real -> real, c: Control, wish: Option<real>): Control {
    var lower, upper := NetworkLower(sqrt, c.link), NetworkUpper(sqrt, c.link);
    c.(lower := Some(lower), upper := Some(upper),
       bitrate := Clamped(c.bitrate, if wish.Some? then wish.value else c.bitrate, lower, upper))
  }

  function Acted(sqrt: real -> real, c: Control, throughput: real, at: int): Control
    requires c.state == Increase ==> c.lastChange.Some? && (c.link.estimate.Some? ==> c.bitrate > 0.0)
  {
    match c.state
    case Hold => Settled(sqrt, c, None)
    case Increase => var (d, wish) := Grown(sqrt, c, throughput, at); Settled(sqrt, d, wish)
    case Decrease => Settled(sqrt, Shrunk(sqrt, c, throughput, at), Lowered(c, throughput))
  }

  function Throughput(c: Control, input: Input): real {
    if input.throughput.Some? then input.throughput.value else c.throughput
  }

  function Changed(sqrt: real -> real, c: Control, input: Input, at: int): Control
    requires c.state == Increase ==> c.lastChange.Some?
    requires c.link.estimate.Some? ==> c.bitrate > 0.0
  {
    var d := c.(throughput := Throughput(c, input));
    if !d.initialized && input.usage != Overusing then d
    else Acted(sqrt, StateChanged(d, input.usage, at), d.throughput, at)
  }

  // What every state reached by updates keeps.

  ghost predicate Inv(c: Control) {
    && (c.state == Increase ==> c.lastChange.Some?)
    && c.state != Decrease
    && MIN_BITRATE <= c.bitrate
    && c.throughput >= 0.0
    && (c.link.estimate.Some? ==> c.link.estimate.value >= 0.0)
    && 0.4 <= c.link.deviation <= 2.5
    && (!c.initialized ==> c.link == Link(None, 0.4) && c.state == Hold && c.bitrate == START_BITRATE)
  }

  ghost predicate LegalInput(input: Input) { input.throughput.Some? ==> input.throughput.value >= 0.0 }

  lemma StartHolds(sendSide: bool)
    ensures Inv(Start(sendSide)) && Start(sendSide).bitrate <= MAX_BITRATE
  {
  }

  function Updated(sqrt: real -> real, c: Control, input: Input, at: int): Control
    requires c.state == Increase ==> c.lastChange.Some?
    requires c.link.estimate.Some? ==> Begun(c, input, at).bitrate > 0.0
  {
    Changed(sqrt, Begun(c, input, at), input, at)
  }

  predicate Idle(c: Control, input: Input, at: int) { !Begun(c, input, at).initialized && input.usage != Overusing }

  /** The state an update acts on. */
  function Ready(c: Control, input: Input, at: int): Control {
    var b := Begun(c, input, at);
    StateChanged(b.(throughput := Throughput(b, input)), input.usage, at)
  }

  lemma UpdatedIs(sqrt: real -> real, c: Control, input: Input, at: int)
    requires Inv(c) && LegalInput(input)
    ensures var d, u := Ready(c, input, at), Updated(sqrt, c, input, at);
      if Idle(c, input, at) then !Adopts(c, input, at) && Inv(u) && u.bitrate == c.bitrate
      else
        && (d.state == Increase ==> d.lastChange.Some? && (d.link.estimate.Some? ==> d.bitrate > 0.0))
        && u == Acted(sqrt, d, d.throughput, at)
  {
    hide Acted;
  }

  lemma ReadyFacts(c: Control, input: Input, at: int)
    requires Inv(c) && LegalInput(input) && !Idle(c, input, at)
    ensures var d := Ready(c, input, at);
      && d.link == c.link && d.throughput >= 0.0
      && (d.state == Decrease <==> input.usage == Overusing)
      && (d.state == Increase ==> input.usage == Normal || input.usage == Last)
      && (d.state == Increase ==> d.lastChange == if c.state == Increase then c.lastChange else Some(at))
      && (d.state != Decrease ==> d.initialized)
      && (if Adopts(c, input, at) then d.bitrate == d.throughput == input.throughput.value && d.link == Link(None, 0.4)
          else d.bitrate == c.bitrate)
  {
  }

  /** A sample moves the estimate towards itself and not past it, and the deviation stays within its limits. */
  lemma ObservedKeeps(l: Link, rate: real, weight: real)
    requires 0.0 <= weight <= 1.0
    ensures var o := Observed(l, rate, weight);
      && o.estimate.Some? && 0.4 <= o.deviation <= 2.5
      && (l.estimate.None? ==> o.estimate.value == rate * 0.001)
      && (l.estimate.Some? ==>
          var e, s := l.estimate.value, rate * 0.001;
          Min(e, s) <= o.estimate.value <= Max(e, s))
  {
    var o := Observed(l, rate, weight);
    DeviationBounded(l, o.estimate.value, rate * 0.001, weight);
    hide Deviation;
    if l.estimate.Some? {
      BlendBetween(l.estimate.value, rate * 0.001, weight);
      hide Blend;
    }
  }

  lemma BlendBetween(x: real, y: real, weight: real)
    requires 0.0 <= weight <= 1.0
    ensures Min(x, y) <= Blend(x, y, weight) <= Max(x, y)
  {
    NonNegative(weight, Max(x, y) - Min(x, y));
    NonNegative(1.0 - weight, Max(x, y) - Min(x, y));
    assert Blend(x, y, weight) == x + weight * (y - x);
  }

  lemma DeviationBounded(l: Link, estimate: real, sample: real, weight: real)
    ensures 0.4 <= Deviation(l, estimate, sample, weight) <= 2.5
  {
  }

  lemma SettledKeeps(sqrt: real -> real, c: Control, wish: Option<real>)
    requires Inv(c.(bitrate := MIN_BITRATE)) && c.initialized
    ensures Inv(Settled(sqrt, c, wish))
  {
    hide NetworkLower, NetworkUpper;
  }

  lemma ActedKeeps(sqrt: real -> real, c: Control, at: int)
    requires Inv(c.(bitrate := MIN_BITRATE, initialized := true, state := Hold))
    requires c.state != Decrease ==> c.initialized
    requires c.state == Increase ==> c.lastChange.Some? && (c.link.estimate.Some? ==> c.bitrate > 0.0)
    ensures Inv(Acted(sqrt, c, c.throughput, at))
  {
    hide Settled, Observed, AboveUpper, LowerBound, Lowered, LastDecrease, Increased, IncreaseLimit;
    match c.state
    case Hold =>
      SettledKeeps(sqrt, c, None);
    case Increase =>
      var (d, wish) := Grown(sqrt, c, c.throughput, at);
      SettledKeeps(sqrt, d, wish);
    case Decrease =>
      var reset := if c.throughput < LowerBound(sqrt, c.link) then c.link.(estimate := None) else c.link;
      ObservedKeeps(reset, c.throughput, OVERUSE_WEIGHT);
      SettledKeeps(sqrt, Shrunk(sqrt, c, c.throughput, at), Lowered(c, c.throughput));
  }

  /** Every update keeps the invariant, for any reading of the square root. */
  lemma UpdateKeepsInv(sqrt: real -> real, c: Control, input: Input, at: int)
    requires Inv(c) && LegalInput(input)
    ensures Inv(Updated(sqrt, c, input, at))
  {
    UpdatedIs(sqrt, c, input, at);
    if !Idle(c, input, at) {
      ReadyFacts(c, input, at);
      hide Acted, Ready, Updated, Idle;
      ActedKeeps(sqrt, Ready(c, input, at), at);
    }
  }

  // The upper end.

  /** The one way past the maximum: over-use reported together with a huge sample adopted as the bitrate. */
  predicate Overshoots(sqrt: real -> real, c: Control, input: Input, at: int) {
    && Adopts(c, input, at) && input.usage == Overusing && input.throughput.value > MAX_BITRATE
    && BETA * LowerBound(sqrt, Link(Some(input.throughput.value * 0.001), 0.4)) > MAX_BITRATE
  }

  lemma ClampExactly(bitrate: real, wish: real, lower: real, upper: real)
    requires upper <= MAX_BITRATE
    ensures Clamped(bitrate, wish, lower, upper) <= MAX_BITRATE <==>
              bitrate <= MAX_BITRATE || lower * BETA <= MAX_BITRATE
  {
  }

  lemma SettledMaximum(sqrt: real -> real, c: Control, wish: Option<real>)
    ensures Settled(sqrt, c, wish).bitrate <= MAX_BITRATE
      <==> c.bitrate <= MAX_BITRATE || NetworkLower(sqrt, c.link) * BETA <= MAX_BITRATE
  {
    var lower, upper := NetworkLower(sqrt, c.link), NetworkUpper(sqrt, c.link);
    assert upper <= MAX_BITRATE;
    hide NetworkLower, NetworkUpper, Clamped;
    ClampExactly(c.bitrate, if wish.Some? then wish.value else c.bitrate, lower, upper);
  }

  /** The link a controller without one has after over-use at `rate`. */
  lemma FirstObservation(sqrt: real -> real, rate: real)
    requires rate >= 0.0
    ensures Overused(sqrt, Link(None, 0.4), rate) == Link(Some(rate * 0.001), 0.4)
  {
  }

  lemma NoEstimate(sqrt: real -> real, l: Link)
    ensures l.estimate.None? ==> NetworkLower(sqrt, l) == MIN_BITRATE
  {
  }

  lemma ActedMaximum(sqrt: real -> real, c: Control, at: int)
    requires c.state == Increase ==> c.lastChange.Some? && (c.link.estimate.Some? ==> c.bitrate > 0.0)
    ensures var u := Acted(sqrt, c, c.throughput, at);
      u.bitrate <= MAX_BITRATE <==> c.bitrate <= MAX_BITRATE || NetworkLower(sqrt, u.link) * BETA <= MAX_BITRATE
  {
    hide Clamped, NetworkLower, NetworkUpper, Overused, Lowered, LastDecrease, Increased, IncreaseLimit, AboveUpper;
    match c.state
    case Hold =>
      SettledMaximum(sqrt, c, None);
    case Increase =>
      var (d, wish) := Grown(sqrt, c, c.throughput, at);
      SettledMaximum(sqrt, d, wish);
    case Decrease =>
      SettledMaximum(sqrt, Shrunk(sqrt, c, c.throughput, at), Lowered(c, c.throughput));
  }

  /** The link after a controller without an estimate has acted. */
  lemma ActedLink(sqrt: real -> real, c: Control, at: int)
    requires c.link == Link(None, 0.4) && c.throughput >= 0.0 && (c.state == Increase ==> c.lastChange.Some?)
    ensures var l := Acted(sqrt, c, c.throughput, at).link;
      if c.state == Decrease then l == Link(Some(c.throughput * 0.001), 0.4) else l.estimate.None?
  {
    FirstObservation(sqrt, c.throughput);
    hide Overused;
  }

  /** An update leaves a bitrate within the maximum there unless it overshoots, and then it does not. */
  lemma MaximumExactly(sqrt: real -> real, c: Control, input: Input, at: int)
    requires Inv(c) && LegalInput(input) && c.bitrate <= MAX_BITRATE
    ensures Updated(sqrt, c, input, at).bitrate <= MAX_BITRATE <==> !Overshoots(sqrt, c, input, at)
  {
    hide Acted, Ready, Updated, Idle, LowerBound;
    UpdatedIs(sqrt, c, input, at);
    if !Idle(c, input, at) {
      ReadyFacts(c, input, at);
      ActedMaximum(sqrt, Ready(c, input, at), at);
      if Adopts(c, input, at) {
        ActedLink(sqrt, Ready(c, input, at), at);
        NoEstimate(sqrt, Acted(sqrt, Ready(c, input, at), Ready(c, input, at).throughput, at).link);
      }
    }
  }

  /** Only an increasing controller raises its bitrate, and no further than half again over the throughput. */
  lemma RaiseIsLimited(sqrt: real -> real, c: Control, input: Input, at: int)
    requires Inv(c) && LegalInput(input) && !Adopts(c, input, at)
    ensures var u := Updated(sqrt, c, input, at);
      u.bitrate > c.bitrate ==>
        && u.state == Increase && (input.usage == Normal || input.usage == Last)
        && u.bitrate <= Max(c.bitrate, 1.5 * u.throughput + 10240.0)
        && (if u.link.estimate.None? then u.bitrate <= c.bitrate + Max(c.bitrate * 0.08, 1000.0)
            else
              && c.state == Increase && c.lastChange.Some?
              && u.bitrate <= c.bitrate + 32.0 * (at - c.lastChange.value) as real)
  {
    hide Acted, Ready, Updated, Idle;
    UpdatedIs(sqrt, c, input, at);
    if !Idle(c, input, at) {
      ReadyFacts(c, input, at);
      ActedRaise(sqrt, Ready(c, input, at), at);
    }
  }

  lemma ActedRaise(sqrt: real -> real, c: Control, at: int)
    requires c.bitrate >= MIN_BITRATE && (c.state == Increase ==> c.lastChange.Some?)
    ensures var u := Acted(sqrt, c, c.throughput, at);
      u.bitrate > c.bitrate ==>
        && c.state == u.state == Increase && c.lastChange.Some?
        && u.bitrate <= Max(c.bitrate, 1.5 * u.throughput + 10240.0) && u.throughput == c.throughput
        && (if u.link.estimate.None? then u.bitrate <= c.bitrate + Max(c.bitrate * 0.08, 1000.0)
            else u.bitrate <= c.bitrate + 32.0 * (at - c.lastChange.value) as real)
  {
    hide Clamped, NetworkLower, NetworkUpper, Overused, LastDecrease, AboveUpper, NearMaxIncrease;
    match c.state
    case Hold =>
      SettledRaise(sqrt, c, None);
    case Increase =>
      var (d, wish) := Grown(sqrt, c, c.throughput, at);
      SettledRaise(sqrt, d, wish);
    case Decrease =>
      SettledRaise(sqrt, Shrunk(sqrt, c, c.throughput, at), Lowered(c, c.throughput));
  }

  lemma SettledRaise(sqrt: real -> real, c: Control, wish: Option<real>)
    requires c.bitrate >= MIN_BITRATE
    ensures var r := Settled(sqrt, c, wish).bitrate; r > c.bitrate ==> wish.Some? && r <= wish.value
  {
    hide NetworkLower, NetworkUpper;
  }

  // Whole runs.

  datatype Sample = Sample(input: Input, at: int)

  ghost predicate Legal(samples: seq<Sample>) {
    forall i :: 0 <= i < |samples| ==> LegalInput(samples[i].input)
  }

  /** The controller after a sequence of updates. */
  ghost function After(sqrt: real -> real, c: Control, samples: seq<Sample>): (r: Control)
    requires Inv(c) && Legal(samples)
    ensures Inv(r)
  {
    if samples == [] then c
    else
      var last := samples[|samples| - 1];
      var before := After(sqrt, c, samples[..|samples| - 1]);
      UpdateKeepsInv(sqrt, before, last.input, last.at);
      Updated(sqrt, before, last.input, last.at)
  }

  /** Over every sequence of inputs from a new controller: an increasing one has its last change stamped, a
      decrease never outlives its update, and the bitrate is at least the minimum. */
  lemma EveryRunHolds(sqrt: real -> real, sendSide: bool, samples: seq<Sample>)
    requires Legal(samples)
    ensures Inv(Start(sendSide))
    ensures var c := After(sqrt, Start(sendSide), samples);
      && (c.state == Increase ==> c.lastChange.Some?) && c.state != Decrease && c.bitrate >= MIN_BITRATE
  {
    StartHolds(sendSide);
  }

  ghost predicate StaysWithinMaximum(sqrt: real -> real, c: Control, samples: seq<Sample>)
    requires Inv(c) && Legal(samples)
  {
    forall k :: 0 <= k <= |samples| ==> After(sqrt, c, samples[..k]).bitrate <= MAX_BITRATE
  }

  ghost predicate NeverOvershoots(sqrt: real -> real, c: Control, samples: seq<Sample>)
    requires Inv(c) && Legal(samples)
  {
    forall k :: 0 <= k < |samples| ==> !Overshoots(sqrt, After(sqrt, c, samples[..k]), samples[k].input, samples[k].at)
  }

  /** A run stays within the maximum exactly when none of its updates overshoots. */
  lemma {:induction false} RunMaximumExactly(sqrt: real -> real, c: Control, samples: seq<Sample>)
    requires Inv(c) && Legal(samples) && c.bitrate <= MAX_BITRATE
    ensures StaysWithinMaximum(sqrt, c, samples) <==> NeverOvershoots(sqrt, c, samples)
  {
    if samples != [] {
      var n := |samples| - 1;
      RunMaximumExactly(sqrt, c, samples[..n]);
      SplitLast(sqrt, c, samples);
      var b := After(sqrt, c, samples[..n]);
      hide Inv, Overshoots, LegalInput, StaysWithinMaximum, NeverOvershoots;
      if b.bitrate <= MAX_BITRATE {
        MaximumExactly(sqrt, b, samples[n].input, samples[n].at);
      }
    }
  }

  lemma SplitLast(sqrt: real -> real, c: Control, samples: seq<Sample>)
    requires Inv(c) && Legal(samples) && samples != []
    ensures var n := |samples| - 1; var before, last := samples[..n], samples[n];
      && (StaysWithinMaximum(sqrt, c, samples)
          <==> StaysWithinMaximum(sqrt, c, before) && After(sqrt, c, samples).bitrate <= MAX_BITRATE)
      && (NeverOvershoots(sqrt, c, samples)
          <==> NeverOvershoots(sqrt, c, before) && !Overshoots(sqrt, After(sqrt, c, before), last.input, last.at))
      && (StaysWithinMaximum(sqrt, c, before) ==> After(sqrt, c, before).bitrate <= MAX_BITRATE)
  {
    hide Inv, Overshoots, LegalInput, After;
    var n := |samples| - 1;
    var before := samples[..n];
    assert samples[..n + 1] == samples && before[..n] == before;
    assert forall k :: 0 <= k <= n ==> before[..k] == samples[..k];
  }

  ghost predicate SquareRoot(sqrt: real -> real) {
    forall x :: x >= 0.0 ==> sqrt(x) >= 0.0 && sqrt(x) * sqrt(x) == x
  }

  lemma ThousandSquared(r: real)
    requires r >= 0.0 && r * r == 1000000.0
    ensures r == 1000.0
  {
    assert r <= 1000.0 ==> r * r <= 1000.0 * r;
    assert r >= 1000.0 ==> r * r >= 1000.0 * r;
  }

  /** Two updates of a new controller that leave it far above its configured maximum. */
  lemma HugeSampleOvershoots(sqrt: real -> real, sendSide: bool)
    requires SquareRoot(sqrt)
    ensures var samples := [Sample(Input(Normal, Some(2500000000.0)), 0),
                            Sample(Input(Overusing, Some(2500000000.0)), 5001)];
      Inv(Start(sendSide)) && Legal(samples) && After(sqrt, Start(sendSide), samples).bitrate > MAX_BITRATE
  {
    var s0 := Sample(Input(Normal, Some(2500000000.0)), 0);
    var s1 := Sample(Input(Overusing, Some(2500000000.0)), 5001);
    var c0 := Start(sendSide);
    assert [s0, s1][..1] == [s0] && [s0][..0] == [];
    assert After(sqrt, c0, []) == c0;
    var c1 := After(sqrt, c0, [s0]);
    assert c1 == c0.(throughput := 2500000000.0, firstThroughput := Some(0));
    ThousandSquared(sqrt(1000000.0));
    assert Overshoots(sqrt, c1, s1.input, s1.at);
    MaximumExactly(sqrt, c1, s1.input, s1.at);
  }
}
