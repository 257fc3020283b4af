/**
 * The rate controller and its link-capacity estimator as they are written, fields updated in place. Each method
 * is proved to make the step that `RateControl` specifies, so what is proved there of every run holds of them.
 */
module AimdRateControl {
  import opened Bytes
  import opened RateControl

  /** The stamp of a time that was never set, i64::MIN; elsewhere such a time is `None`. */
  const NEVER := -0x8000_0000_0000_0000

  class LinkCapacityEstimator {
    var estimateKbps: Option<real>
    var deviationKbps: real
    const sqrt: real -> real

    function View(): Link
      reads this
    {
      Link(estimateKbps, deviationKbps)
    }

    constructor (sqrt: real -> real)
      ensures View() == Link(None, 0.4) && this.sqrt == sqrt
    {
      estimateKbps, deviationKbps := None, 0.4;
      this.sqrt := sqrt;
    }

    method DeviationEstimateKbps() returns (d: real)
      requires estimateKbps.Some?
      ensures 3.0 * d == Spread(sqrt, View())
    {
      d := sqrt(Variance(View()));
    }

    method GetUpperBound() returns (bound: Option<real>)
      ensures bound == UpperBound(sqrt, View())
    {
      if estimateKbps.Some? {
        var d := DeviationEstimateKbps();
        return Some((estimateKbps.value + 3.0 * d) * 1024.0);
      }
      return None;
    }

    method GetLowerBound() returns (bound: real)
      ensures bound == LowerBound(sqrt, View())
    {
      if estimateKbps.Some? {
        var d := DeviationEstimateKbps();
        return Max(0.0, estimateKbps.value - 3.0 * d) * 1024.0;
      }
      return 0.0;
    }

    method Reset()
      modifies this
      ensures View() == old(View()).(estimate := None)
    {
      estimateKbps := None;
    }

    /** After over-use there is an estimate: the rate itself, or between the rate and the estimate before. */
    method OnOveruseDetected(acknowledged: real)
      modifies this
      ensures View() == Observed(old(View()), acknowledged, OVERUSE_WEIGHT)
      ensures estimateKbps.Some? && 0.4 <= deviationKbps <= 2.5
      ensures var sample, before := acknowledged * 0.001, old(estimateKbps);
        if before.None? then estimateKbps.value == sample
        else Min(before.value, sample) <= estimateKbps.value <= Max(before.value, sample)
    {
      ObservedKeeps(View(), acknowledged, OVERUSE_WEIGHT);
      hide Observed;
      Update(acknowledged, OVERUSE_WEIGHT);
    }

    method Update(capacity: real, alpha: real)
      modifies this
      ensures View() == Observed(old(View()), capacity, alpha)
    {
      hide Blend, NormalisedError;
      var sample := capacity * 0.001;
      if estimateKbps.None? {
        estimateKbps := Some(sample);
      } else {
        estimateKbps := Some(Blend(estimateKbps.value, sample, alpha));
      }
      deviationKbps := Blend(deviationKbps, NormalisedError(estimateKbps.value, sample), alpha);
      if deviationKbps > 2.5 {
        deviationKbps := 2.5;
      } else if deviationKbps < 0.4 {
        deviationKbps := 0.4;
      }
    }
  }

  class Aimd {
    const link: LinkCapacityEstimator
    const pow: (real, real) -> real
    const sendSide: bool
    var inAlr: bool
    var currentBitrate: real
    var latestEstimatedThroughput: real
    var linkCapacityLower: Option<real>
    var linkCapacityUpper: Option<real>
    var rateControlState: State
    var timeLastBitrateChange: Option<int>
    var timeLastBitrateDecrease: Option<int>
    var timeFirstThroughputEstimate: Option<int>
    var bitrateIsInitialized: bool
    var lastDecrease: Option<real>

    ghost function View(): Control
      reads this, link
    {
      Control(currentBitrate, latestEstimatedThroughput, link.View(), linkCapacityLower, linkCapacityUpper,
              rateControlState, timeLastBitrateChange, timeLastBitrateDecrease, timeFirstThroughputEstimate,
              bitrateIsInitialized, lastDecrease, sendSide, inAlr)
    }

    constructor (sqrt: real -> real, pow: (real, real) -> real, sendSide: bool)
      ensures View() == Start(sendSide) && Inv(View()) && link.sqrt == sqrt && this.pow == pow && fresh(link)
    {
      this.pow := pow;
      link := new LinkCapacityEstimator(sqrt);
      this.sendSide := sendSide;
      inAlr := false;
      currentBitrate, latestEstimatedThroughput := 30000.0 * 1024.0, 30000.0 * 1024.0;
      linkCapacityLower, linkCapacityUpper := None, None;
      rateControlState := Hold;
      timeLastBitrateChange, timeLastBitrateDecrease, timeFirstThroughputEstimate := None, None, None;
      bitrateIsInitialized, lastDecrease := false, Some(0.0);
    }

    method ChangeState(usage: Usage, at: int)
      modifies this
      ensures View() == StateChanged(old(View()), usage, at)
    {
      match usage
      case Normal =>
        if rateControlState == Hold {
          timeLastBitrateChange := Some(at);
          rateControlState := Increase;
        }
      case Overusing =>
        if rateControlState != Decrease {
          rateControlState := Decrease;
        }
      case Underusing =>
        rateControlState := Hold;
      case Last =>
    }

    /**
     * Compounds over the time since a change that was never stamped; with a stamp the increase is 8 percent, or the
     * least. Under the controller's invariant there always is one.
     */
    method MultiplicativeRateIncrease(at: int, last: Option<int>, bitrate: real) returns (increase: real)
      ensures increase >= 1000.0
      ensures last.Some? ==> increase == Max(bitrate * 0.08, 1000.0)
    {
      var alpha := 1.08;
      if last.None? {
        alpha := pow(alpha, Min((at - NEVER) as real / 1000.0, 1.0));
      }
      increase := Max(bitrate * (alpha - 1.0), 1000.0);
    }

    method AdditiveRateIncrease(at: int, last: Option<int>) returns (increase: real)
      requires last.Some? && currentBitrate > 0.0
      ensures increase == 32000.0 * ((at - last.value) as real / 1000.0)
    {
      increase := NearMaxIncrease(currentBitrate) * ((at - last.value) as real / 1000.0);
    }

    method Grow(throughput: real, at: int) returns (wish: Option<real>)
      requires timeLastBitrateChange.Some? && (link.estimateKbps.Some? ==> currentBitrate > 0.0)
      modifies this, link
      ensures (View(), wish) == Grown(link.sqrt, old(View()), throughput, at)
    {
      var upper := link.GetUpperBound();
      if upper.Some? && throughput > upper.value {
        link.Reset();
      }
      var limit := 1.5 * throughput + 10240.0;
      if sendSide && inAlr {
        limit := currentBitrate;
      }
      wish := None;
      if currentBitrate < limit {
        var increase;
        if link.estimateKbps.Some? {
          increase := AdditiveRateIncrease(at, timeLastBitrateChange);
        } else {
          increase := MultiplicativeRateIncrease(at, timeLastBitrateChange, currentBitrate);
        }
        wish := Some(Min(currentBitrate + increase, limit));
      }
      timeLastBitrateChange := Some(at);
    }

    /** The bitrate that over-use calls for: below the current one, or none. */
    method LowerTarget(throughput: real) returns (wish: Option<real>)
      ensures wish == Lowered(View(), throughput)
      ensures wish.Some? ==> wish.value < currentBitrate
    {
      var decreased := throughput * BETA;
      if decreased > currentBitrate {
        if link.estimateKbps.Some? {
          decreased := BETA * (link.estimateKbps.value * 1024.0);
        }
      }
      wish := None;
      if decreased < currentBitrate {
        wish := Some(decreased);
      }
    }

    /** The link takes the sample, starting over if that is below what it expected. */
    method ObserveOveruse(throughput: real)
      modifies link
      ensures link.View() == Overused(link.sqrt, old(link.View()), throughput)
    {
      hide Observed, LowerBound;
      var lower := link.GetLowerBound();
      if throughput < lower {
        link.Reset();
      }
      link.OnOveruseDetected(throughput);
    }

    method Shrink(throughput: real, at: int) returns (wish: Option<real>)
      modifies this, link
      ensures View() == Shrunk(link.sqrt, old(View()), throughput, at)
      ensures wish == Lowered(old(View()), throughput)
    {
      hide Overused, Lowered;
      wish := LowerTarget(throughput);
      if bitrateIsInitialized && throughput < currentBitrate {
        if wish.Some? {
          lastDecrease := Some(currentBitrate - wish.value);
        } else {
          lastDecrease := None;
        }
      }
      ObserveOveruse(throughput);
      bitrateIsInitialized := true;
      rateControlState := Hold;
      timeLastBitrateChange := Some(at);
      timeLastBitrateDecrease := Some(at);
    }

    method ClampBitrate(wish: real) returns (bitrate: real)
      requires linkCapacityLower.Some? && linkCapacityUpper.Some?
      ensures bitrate == Clamped(currentBitrate, wish, linkCapacityLower.value, linkCapacityUpper.value)
      ensures MIN_BITRATE <= bitrate && (bitrate > currentBitrate ==> bitrate == MIN_BITRATE || bitrate <= wish)
      ensures linkCapacityUpper.value <= MAX_BITRATE ==>
        (bitrate <= MAX_BITRATE <==> currentBitrate <= MAX_BITRATE || linkCapacityLower.value * BETA <= MAX_BITRATE)
    {
      bitrate := Min(linkCapacityUpper.value, wish);
      if bitrate < currentBitrate {
        bitrate := Min(currentBitrate, Max(bitrate, linkCapacityLower.value * BETA));
      }
      bitrate := Max(bitrate, MIN_BITRATE);
    }

    method Settle(wish: Option<real>)
      modifies this
      ensures View() == Settled(link.sqrt, old(View()), wish)
    {
      var lower := link.GetLowerBound();
      if lower != 0.0 {
        linkCapacityLower := Some(if lower < MIN_BITRATE then MIN_BITRATE else lower);
      } else {
        linkCapacityLower := Some(MIN_BITRATE);
      }
      var upper := link.GetUpperBound();
      if upper.Some? {
        linkCapacityUpper := Some(if upper.value > MAX_BITRATE then MAX_BITRATE else upper.value);
      } else {
        linkCapacityUpper := Some(MAX_BITRATE);
      }
      currentBitrate := ClampBitrate(if wish.Some? then wish.value else currentBitrate);
    }

    method ChangeBitrate(input: Input, at: int)
      requires rateControlState == Increase ==> timeLastBitrateChange.Some?
      requires link.estimateKbps.Some? ==> currentBitrate > 0.0
      modifies this, link
      ensures View() == Changed(link.sqrt, old(View()), input, at)
    {
      hide Grown, Shrunk, Settled, Lowered;
      var throughput := if input.throughput.Some? then input.throughput.value else latestEstimatedThroughput;
      if input.throughput.Some? {
        latestEstimatedThroughput := input.throughput.value;
      }
      if !bitrateIsInitialized && input.usage != Overusing {
        return;
      }
      ChangeState(input.usage, at);
      var wish := None;
      match rateControlState {
        case Hold =>
        case Increase => wish := Grow(throughput, at);
        case Decrease => wish := Shrink(throughput, at);
      }
      Settle(wish);
    }

    /** One update keeps every invariant of the controller and returns its new bitrate. */
    method Update(input: Input, at: int) returns (bitrate: real)
      requires Inv(View()) && LegalInput(input)
      modifies this, link
      ensures Inv(old(View())) && View() == Updated(link.sqrt, old(View()), input, at)
      ensures Inv(View()) && bitrate == currentBitrate >= MIN_BITRATE
    {
      UpdateKeepsInv(link.sqrt, View(), input, at);
      if !bitrateIsInitialized {
        if timeFirstThroughputEstimate.None? {
          if input.throughput.Some? {
            timeFirstThroughputEstimate := Some(at);
          }
        } else if at - timeFirstThroughputEstimate.value > INITIALIZATION_TIME && input.throughput.Some? {
          currentBitrate := input.throughput.value;
          bitrateIsInitialized := true;
        }
      }
      hide Changed;
      ChangeBitrate(input, at);
      bitrate := currentBitrate;
    }
  }
}
