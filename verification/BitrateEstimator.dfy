/**
 * The acknowledged-bitrate estimator: bytes are summed over windows of time, and each full window is a sample that
 * moves a Bayesian estimate. Floats are reals, with `None` for a variance that is not a number: from an estimate of
 * zero every further sample makes it so and leaves the estimate at zero.
 */
module BitrateEstimator {
  import opened Bytes
  import RateControl

  const INITIAL_WINDOW_MS := 350
  const WINDOW_MS := 250
  const UNCERTAINTY_SCALE := 10.0
  const START_VARIANCE := 50.0

  /** Times in milliseconds; a negative previous time or estimate means there is none yet. */
  datatype Estimate = Estimate(sum: int, windowMs: int, prevMs: int, kbps: real, variance: Option<real>)

  const START := Estimate(0, 0, -1, -1.0, Some(START_VARIANCE))

  datatype Arrival = Arrival(nowMs: int, bytes: nat)

  // One arrival.

  /** Time gone by, before the window is looked at: a step back starts over, a long silence forgets the sum. */
  function Elapsed(e: Estimate, nowMs: int, rateWindowMs: int): Estimate
    requires rateWindowMs > 0
  {
    if nowMs < e.prevMs then e.(prevMs := nowMs, sum := 0, windowMs := 0)
    else if e.prevMs < 0 then e.(prevMs := nowMs)
    else
      var gone := nowMs - e.prevMs;
      if gone > rateWindowMs then e.(prevMs := nowMs, sum := 0, windowMs := (e.windowMs + gone) % rateWindowMs)
      else e.(prevMs := nowMs, windowMs := e.windowMs + gone)
  }

  /** The sample a full window gives, if it is full, and the estimator with the arrival counted. */
  function Windowed(e: Estimate, a: Arrival, rateWindowMs: int): (r: (Estimate, Option<real>))
    requires rateWindowMs > 0
  {
    var d := Elapsed(e, a.nowMs, rateWindowMs);
    if d.windowMs >= rateWindowMs then
      (d.(windowMs := d.windowMs - rateWindowMs, sum := a.bytes), Some(8.0 * d.sum as real / rateWindowMs as real))
    else
      (d.(sum := d.sum + a.bytes), None)
  }

  function RateWindow(e: Estimate): int { if e.kbps < 0.0 then INITIAL_WINDOW_MS else WINDOW_MS }

  function Uncertainty(kbps: real, sample: real): real
    requires kbps > 0.0
  {
    UNCERTAINTY_SCALE * (if kbps >= sample then kbps - sample else sample - kbps) / kbps
  }

  function SampleVariance(kbps: real, sample: real): real
    requires kbps > 0.0
  {
    Uncertainty(kbps, sample) * Uncertainty(kbps, sample)
  }

  /** Two values weighted against each other. */
  function Weighted(x: real, weightX: real, y: real, weightY: real): real
    requires weightX + weightY > 0.0
  {
    (weightX * x + weightY * y) / (weightX + weightY)
  }

  function Combined(v: real, predicted: real): real
    requires v + predicted > 0.0
  {
    v * predicted / (v + predicted)
  }

  /**
   * The first sample is the estimate. Later ones move it, except that an estimate of zero is divided by: the
   * uncertainty is then infinite or not a number, the variance is lost, and the larger of the result and zero is zero.
   */
  function Moved(e: Estimate, sample: real): Estimate
    requires e.variance.Some? ==> e.variance.value >= 0.0
  {
    if e.kbps < 0.0 then e.(kbps := sample)
    else if e.kbps == 0.0 || e.variance.None? then e.(kbps := 0.0, variance := None)
    else
      var v, predicted := SampleVariance(e.kbps, sample), e.variance.value + 5.0;
      VarianceNonNegative(e.kbps, sample);
      e.(kbps := RateControl.Max(Weighted(e.kbps, v, sample, predicted), 0.0), variance := Some(Combined(v, predicted)))
  }

  function Updated(e: Estimate, a: Arrival): Estimate
    requires e.variance.Some? ==> e.variance.value >= 0.0
  {
    var (d, sample) := Windowed(e, a, RateWindow(e));
    if sample.None? then d else Moved(d, sample.value)
  }

  function Sampled(e: Estimate, a: Arrival): Option<real> { Windowed(e, a, RateWindow(e)).1 }

  lemma VarianceNonNegative(kbps: real, sample: real)
    requires kbps > 0.0
    ensures SampleVariance(kbps, sample) >= 0.0
  {
    hide Uncertainty;
    Square(Uncertainty(kbps, sample));
  }

  lemma Square(x: real)
    ensures x * x >= 0.0
  {
  }

  lemma Cancel(x: real, y: real, w: real)
    requires w > 0.0 && x * w <= y * w
    ensures x <= y
  {
    assert x > y ==> (x - y) * w > 0.0;
  }

  /** A weighted mean lies between its two values. */
  lemma WeightedBetween(x: real, weightX: real, y: real, weightY: real)
    requires weightX >= 0.0 && weightY > 0.0
    ensures var m := Weighted(x, weightX, y, weightY); x <= m <= y || y <= m <= x
  {
    var total := weightX * x + weightY * y;
    var lo, hi := RateControl.Min(x, y), RateControl.Max(x, y);
    Quotient(total, weightX + weightY);
    LowerSum(lo, x, weightX, y, weightY);
    LowerSum(-hi, -x, weightX, -y, weightY);
    Bounds(total / (weightX + weightY), weightX + weightY, total, lo, hi);
  }

  lemma LowerSum(lo: real, x: real, weightX: real, y: real, weightY: real)
    requires lo <= x && lo <= y && weightX >= 0.0 && weightY >= 0.0
    ensures lo * (weightX + weightY) <= weightX * x + weightY * y
  {
    Scale(lo, x, weightX);
    Scale(lo, y, weightY);
  }

  lemma Bounds(m: real, w: real, total: real, lo: real, hi: real)
    requires w > 0.0 && m * w == total && lo * w <= total && (-hi) * w <= -total
    ensures lo <= m <= hi
  {
    Cancel(lo, m, w);
    Cancel(m, hi, w);
  }

  lemma Quotient(x: real, w: real)
    requires w > 0.0
    ensures x / w * w == x
  {
  }

  lemma Scale(x: real, y: real, w: real)
    requires x <= y && w >= 0.0
    ensures x * w <= y * w && w * x <= w * y
  {
  }

  // Whole runs.

  /** Between the smallest and the largest of the samples. */
  ghost predicate Spanned(x: real, samples: seq<real>) {
    && (exists i :: 0 <= i < |samples| && samples[i] <= x)
    && (exists i :: 0 <= i < |samples| && x <= samples[i])
  }

  ghost predicate WindowInv(e: Estimate) { 0 <= e.windowMs < INITIAL_WINDOW_MS && e.sum >= 0 }

  /** No estimate before the first sample; zero for good if that is zero; else positive and within the samples. */
  ghost predicate EstimateInv(e: Estimate, samples: seq<real>) {
    if samples == [] then e.kbps == -1.0 && e.variance.Some? && e.variance.value >= 0.0
    else if samples[0] == 0.0 then e.kbps == 0.0 && (e.variance.Some? ==> e.variance.value >= 0.0)
    else e.kbps > 0.0 && Spanned(e.kbps, samples) && e.variance.Some? && e.variance.value >= 0.0
  }

  ghost predicate Inv(e: Estimate, samples: seq<real>) {
    WindowInv(e) && EstimateInv(e, samples) && forall i :: 0 <= i < |samples| ==> samples[i] >= 0.0
  }

  function Appended(samples: seq<real>, sample: Option<real>): seq<real> {
    if sample.Some? then samples + [sample.value] else samples
  }

  /** The window after any arrival; a sample is zero exactly if the window it closes counted no byte. */
  lemma WindowedKeeps(e: Estimate, a: Arrival)
    requires WindowInv(e)
    ensures var (d, sample) := Windowed(e, a, RateWindow(e));
      && WindowInv(d) && d.kbps == e.kbps && d.variance == e.variance
      && (sample.Some? ==> sample.value >= 0.0 && (sample.value == 0.0 <==> e.sum == 0))
  {
  }

  lemma MovedBetween(e: Estimate, sample: real)
    requires e.variance.Some? && e.variance.value >= 0.0 && e.kbps > 0.0 && sample >= 0.0
    ensures var m := Moved(e, sample);
      && (e.kbps <= m.kbps <= sample || sample <= m.kbps <= e.kbps) && m.kbps > 0.0
      && m.variance.Some? && m.variance.value >= 0.0
  {
    var v, predicted := SampleVariance(e.kbps, sample), e.variance.value + 5.0;
    VarianceNonNegative(e.kbps, sample);
    if sample == 0.0 {
      FallingVariance(e.kbps);
    }
    hide SampleVariance, Weighted, Combined;
    WeightedBetween(e.kbps, v, sample, predicted);
    if sample == 0.0 {
      StaysPositive(e.kbps, v, predicted);
    }
    CombinedNonNegative(v, predicted);
  }

  /** The squared uncertainty of a sample: ten times its distance from the estimate, over the estimate. */
  function Doubt(kbps: real, sample: real): real
    requires kbps > 0.0
  {
    (10.0 * (sample - kbps) / kbps) * (10.0 * (sample - kbps) / kbps)
  }

  lemma DoubtIs(kbps: real, sample: real)
    requires kbps > 0.0
    ensures SampleVariance(kbps, sample) == Doubt(kbps, sample)
  {
    var u, d := Uncertainty(kbps, sample), 10.0 * (sample - kbps) / kbps;
    Quotient(10.0 * (sample - kbps), kbps);
    Quotient(10.0 * (kbps - sample), kbps);
    assert u == d || u == -d by {
      if sample <= kbps {
        assert (u + d) * kbps == 0.0;
      }
    }
    assert u * u == d * d;
  }

  /**
   * A sample moves a positive estimate by the share that its variance, and five more, have in the total with the doubt
   * in the sample; so strictly towards the sample, unless it is the estimate.
   */
  lemma SampleMoves(e: Estimate, sample: real)
    requires e.variance.Some? && e.variance.value >= 0.0 && e.kbps > 0.0 && sample >= 0.0
    ensures var m, doubt, p := Moved(e, sample), Doubt(e.kbps, sample), e.variance.value + 5.0;
      && (m.kbps - e.kbps) * (doubt + p) == p * (sample - e.kbps)
      && m.variance.Some? && m.variance.value * (doubt + p) == doubt * p
      && (e.kbps < sample ==> e.kbps < m.kbps) && (sample < e.kbps ==> m.kbps < e.kbps)
  {
    var v, p := Doubt(e.kbps, sample), e.variance.value + 5.0;
    DoubtIs(e.kbps, sample);
    VarianceNonNegative(e.kbps, sample);
    MovedBetween(e, sample);
    Products(e.kbps, v, sample, p);
    hide Doubt, SampleVariance, Weighted, Combined;
    Share(Moved(e, sample).kbps, e.kbps, sample, v, p);
  }

  lemma Products(x: real, v: real, y: real, p: real)
    requires v >= 0.0 && p > 0.0
    ensures Weighted(x, v, y, p) * (v + p) == v * x + p * y && Combined(v, p) * (v + p) == v * p
  {
    Quotient(v * x + p * y, v + p);
    Quotient(v * p, v + p);
  }

  lemma Share(m: real, x: real, s: real, v: real, p: real)
    requires m * (v + p) == v * x + p * s && v >= 0.0 && p > 0.0
    ensures (m - x) * (v + p) == p * (s - x)
    ensures (x < s ==> x < m) && (s < x ==> m < x)
  {
    var d, w := m - x, v + p;
    assert d * w == m * w - x * w;
    assert x * w == x * v + x * p;
    if x < s {
      Positive(p, s - x);
      PositiveFactor(d, w);
    }
    if s < x {
      Positive(p, x - s);
      assert (-d) * w == p * (x - s);
      PositiveFactor(-d, w);
    }
  }

  lemma Positive(x: real, y: real)
    requires x > 0.0 && y > 0.0
    ensures x * y > 0.0
  {
  }

  /** A sample of nothing is uncertain enough to leave something of the estimate. */
  lemma FallingVariance(kbps: real)
    requires kbps > 0.0
    ensures SampleVariance(kbps, 0.0) == 100.0
  {
    assert Uncertainty(kbps, 0.0) == 10.0 * kbps / kbps == 10.0;
  }

  lemma StaysPositive(kbps: real, v: real, predicted: real)
    requires kbps > 0.0 && v == 100.0 && predicted > 0.0
    ensures Weighted(kbps, v, 0.0, predicted) > 0.0
  {
    var m := Weighted(kbps, v, 0.0, predicted);
    Quotient(v * kbps + predicted * 0.0, v + predicted);
    assert m * (v + predicted) == 100.0 * kbps;
    PositiveFactor(m, v + predicted);
  }

  lemma PositiveFactor(x: real, w: real)
    requires w > 0.0 && x * w > 0.0
    ensures x > 0.0
  {
    if x <= 0.0 {
      Scale(x, 0.0, w);
    }
  }

  lemma CombinedNonNegative(v: real, predicted: real)
    requires v >= 0.0 && predicted > 0.0
    ensures Combined(v, predicted) >= 0.0
  {
    Scale(0.0, v, predicted);
    Quotient(v * predicted, v + predicted);
    NonNegativeQuotient(Combined(v, predicted), v + predicted);
  }

  lemma NonNegativeQuotient(q: real, w: real)
    requires w > 0.0 && q * w >= 0.0
    ensures q >= 0.0
  {
    Cancel(0.0, q, w);
  }

  lemma SpannedStep(before: real, after: real, samples: seq<real>, sample: real)
    requires samples != [] ==> Spanned(before, samples)
    requires if samples == [] then after == sample else before <= after <= sample || sample <= after <= before
    ensures Spanned(after, samples + [sample])
  {
    var all := samples + [sample];
    assert all[|samples|] == sample;
    if samples != [] {
      var i :| 0 <= i < |samples| && samples[i] <= before;
      var j :| 0 <= j < |samples| && before <= samples[j];
      assert all[i] <= before && before <= all[j];
    }
  }

  lemma MovedKeeps(e: Estimate, samples: seq<real>, sample: real)
    requires EstimateInv(e, samples) && sample >= 0.0
    ensures var m := Moved(e, sample);
      EstimateInv(m, samples + [sample]) && m.windowMs == e.windowMs && m.sum == e.sum
  {
    var m := Moved(e, sample);
    if samples != [] && samples[0] != 0.0 {
      MovedBetween(e, sample);
    }
    assert (samples + [sample])[0] == if samples == [] then sample else samples[0];
    hide SampleVariance, Weighted, Combined, Spanned;
    if samples == [] || samples[0] != 0.0 {
      SpannedStep(e.kbps, m.kbps, samples, sample);
    }
  }

  /** Every arrival keeps the invariant, with the sample it completes added. */
  lemma UpdateKeepsInv(e: Estimate, a: Arrival, samples: seq<real>)
    requires Inv(e, samples)
    ensures Inv(Updated(e, a), Appended(samples, Sampled(e, a)))
  {
    var (d, sample) := Windowed(e, a, RateWindow(e));
    WindowedKeeps(e, a);
    hide Windowed, Spanned;
    if sample.Some? {
      MovedKeeps(d, samples, sample.value);
      hide Moved;
    }
  }

  /** The estimator after a run of arrivals, and the samples it took. */
  ghost function After(arrivals: seq<Arrival>): (r: (Estimate, seq<real>))
    ensures Inv(r.0, r.1)
  {
    if arrivals == [] then (START, [])
    else
      var last := arrivals[|arrivals| - 1];
      var (e, samples) := After(arrivals[..|arrivals| - 1]);
      UpdateKeepsInv(e, last, samples);
      (Updated(e, last), Appended(samples, Sampled(e, last)))
  }

  /**
   * In every run the estimate is zero exactly if the first window to fill counted no byte, and then it stays zero.
   * Otherwise it is positive and lies between the smallest and the largest sample, and the variance is a number and
   * not negative. Samples are never negative, and less than the longer window is ever pending.
   */
  lemma EveryRunIsBounded(arrivals: seq<Arrival>)
    ensures var (e, samples) := After(arrivals);
      && (e.kbps == 0.0 <==> samples != [] && samples[0] == 0.0)
      && (e.kbps > 0.0 <==> samples != [] && samples[0] > 0.0)
      && (e.kbps > 0.0 ==> Spanned(e.kbps, samples) && e.variance.Some? && e.variance.value >= 0.0)
      && (forall i :: 0 <= i < |samples| ==> samples[i] >= 0.0)
      && 0 <= e.windowMs < INITIAL_WINDOW_MS
  {
    var (e, samples) := After(arrivals);
    hide After, Spanned;
  }

  // Nothing is counted twice or forgotten.

  ghost function TotalBytes(arrivals: seq<Arrival>): nat {
    if arrivals == [] then 0 else TotalBytes(arrivals[..|arrivals| - 1]) + arrivals[|arrivals| - 1].bytes
  }

  /** The bits that the samples stand for: the first one over 350 milliseconds, each later one over 250. */
  ghost function SampledBits(samples: seq<real>): real {
    if samples == [] then 0.0
    else SampledBits(samples[..|samples| - 1]) + samples[|samples| - 1] * if |samples| == 1 then 350.0 else 250.0
  }

  ghost function SampledMs(samples: seq<real>): nat {
    if samples == [] then 0 else 100 + 250 * |samples|
  }

  /** Arrivals in order of time, none later than a window after the one before. */
  ghost predicate Steady(arrivals: seq<Arrival>) {
    && (arrivals != [] ==> 0 <= arrivals[0].nowMs)
    && forall k :: 0 < k < |arrivals| ==>
         0 <= arrivals[k].nowMs - arrivals[k - 1].nowMs <= if After(arrivals[..k]).1 == [] then 350 else 250
  }

  /** While arrivals are steady, all bytes and all milliseconds are in the samples or pending. */
  lemma {:induction false} NothingForgotten(arrivals: seq<Arrival>)
    requires Steady(arrivals) && arrivals != []
    ensures var (e, samples) := After(arrivals);
      && 8.0 * TotalBytes(arrivals) as real == SampledBits(samples) + 8.0 * e.sum as real
      && arrivals[|arrivals| - 1].nowMs - arrivals[0].nowMs == SampledMs(samples) + e.windowMs
      && e.prevMs == arrivals[|arrivals| - 1].nowMs
  {
    var n := |arrivals| - 1;
    var init, last := arrivals[..n], arrivals[n];
    var (e, samples) := After(init);
    assert After(arrivals) == (Updated(e, last), Appended(samples, Sampled(e, last)));
    if init == [] {
      assert After(init) == (START, []);
      FirstArrival(last);
    } else {
      assert forall k :: 0 < k < n ==> init[..k] == arrivals[..k];
      assert arrivals[..n] == init;
      NothingForgotten(init);
      hide After, Updated, Sampled, TotalBytes, SampledBits, Inv;
      InvMeans(e, samples);
      OneMoreArrival(e, samples, last);
      TotalGrows(init, last, arrivals);
    }
  }

  lemma TotalGrows(init: seq<Arrival>, last: Arrival, arrivals: seq<Arrival>)
    requires |arrivals| > 0 && init == arrivals[..|arrivals| - 1] && last == arrivals[|arrivals| - 1]
    ensures TotalBytes(arrivals) == TotalBytes(init) + last.bytes
  {
  }

  lemma FirstArrival(a: Arrival)
    requires 0 <= a.nowMs
    ensures Sampled(START, a).None? && Updated(START, a) == START.(prevMs := a.nowMs, sum := a.bytes)
    ensures TotalBytes([a]) == a.bytes
  {
    assert [a][..0] == [];
  }

  lemma InvMeans(e: Estimate, samples: seq<real>)
    requires Inv(e, samples)
    ensures (e.kbps < 0.0 <==> samples == []) && 0 <= e.windowMs < 350
    ensures e.variance.Some? ==> e.variance.value >= 0.0
  {
  }

  lemma OneMoreArrival(e: Estimate, samples: seq<real>, a: Arrival)
    requires (e.kbps < 0.0 <==> samples == []) && 0 <= e.windowMs < 350
    requires e.variance.Some? ==> e.variance.value >= 0.0
    requires 0 <= e.prevMs <= a.nowMs <= e.prevMs + if samples == [] then 350 else 250
    ensures var e', all := Updated(e, a), Appended(samples, Sampled(e, a));
      && SampledBits(all) + 8.0 * e'.sum as real == SampledBits(samples) + 8.0 * (e.sum + a.bytes) as real
      && SampledMs(all) + e'.windowMs == SampledMs(samples) + e.windowMs + (a.nowMs - e.prevMs)
      && e'.prevMs == a.nowMs
  {
    var w := if samples == [] then 350 else 250;
    assert RateWindow(e) == w;
    WindowCounts(e, w, a);
    var (d, sample) := Windowed(e, a, w);
    hide Windowed, Moved, SampledBits, RateWindow;
    if sample.Some? {
      MovedLeavesWindow(d, sample.value);
      SampledGrows(samples, sample.value);
    }
  }

  /** A window that is full gives its bytes away as a sample, and its time; otherwise both are pending. */
  lemma WindowCounts(e: Estimate, w: int, a: Arrival)
    requires (w == 350 || w == 250) && 0 <= e.prevMs <= a.nowMs <= e.prevMs + w
    ensures var (d, sample) := Windowed(e, a, w);
      && d == e.(prevMs := a.nowMs, sum := d.sum, windowMs := d.windowMs)
      && if sample.Some? then
           && sample.value * w as real == 8.0 * e.sum as real && d.sum == a.bytes
           && d.windowMs == e.windowMs + (a.nowMs - e.prevMs) - w
         else d.sum == e.sum + a.bytes && d.windowMs == e.windowMs + (a.nowMs - e.prevMs)
  {
  }

  lemma SampledGrows(samples: seq<real>, sample: real)
    ensures SampledBits(samples + [sample]) == SampledBits(samples) + sample * if samples == [] then 350.0 else 250.0
  {
    assert (samples + [sample])[..|samples|] == samples;
  }

  lemma MovedLeavesWindow(e: Estimate, sample: real)
    requires e.variance.Some? ==> e.variance.value >= 0.0
    ensures var m := Moved(e, sample); m.sum == e.sum && m.windowMs == e.windowMs && m.prevMs == e.prevMs
  {
  }

  /** A clock that goes back, or a silence of more than a window, has the bytes so far forgotten. */
  lemma StartsOver(e: Estimate, a: Arrival)
    requires WindowInv(e) && (a.nowMs < e.prevMs || (0 <= e.prevMs && a.nowMs - e.prevMs > RateWindow(e)))
    ensures var (d, sample) := Windowed(e, a, RateWindow(e));
      && sample == None && d.sum == a.bytes && d.prevMs == a.nowMs
      && d.windowMs == if a.nowMs < e.prevMs then 0 else (e.windowMs + a.nowMs - e.prevMs) % RateWindow(e)
  {
  }

  /** Bytes have been counted, or the clock has not started. */
  ghost predicate Counting(e: Estimate) { e.sum > 0 || (e.windowMs == 0 && e.prevMs < 0) }

  /** With bytes in every arrival every sample is positive, so the estimate never is zero. */
  lemma {:induction false} NonEmptyArrivals(arrivals: seq<Arrival>)
    requires forall i :: 0 <= i < |arrivals| ==> arrivals[i].bytes > 0
    ensures var (e, samples) := After(arrivals);
      Counting(e) && (forall i :: 0 <= i < |samples| ==> samples[i] > 0.0) && e.kbps != 0.0
  {
    if arrivals != [] {
      var init, last := arrivals[..|arrivals| - 1], arrivals[|arrivals| - 1];
      NonEmptyArrivals(init);
      var (e, samples) := After(init);
      CountingKeeps(e, last);
      WindowedKeeps(e, last);
      MovedCounts(e, last);
      EveryRunIsBounded(arrivals);
      hide Windowed, Updated, Counting;
      assert After(arrivals) == (Updated(e, last), Appended(samples, Sampled(e, last)));
    }
  }

  lemma CountingKeeps(e: Estimate, a: Arrival)
    requires WindowInv(e) && Counting(e) && a.bytes > 0
    ensures var (d, sample) := Windowed(e, a, RateWindow(e)); Counting(d) && (sample.Some? ==> e.sum > 0)
  {
  }

  lemma MovedCounts(e: Estimate, a: Arrival)
    requires WindowInv(e) && (e.variance.Some? ==> e.variance.value >= 0.0) && Counting(Windowed(e, a, RateWindow(e)).0)
    ensures Counting(Updated(e, a))
  {
    hide Windowed, SampleVariance, Weighted, Combined;
  }

  /** Two arrivals without bytes, a window apart, and the estimate is zero. */
  lemma EmptyArrivalsReachZero(t: nat)
    ensures After([Arrival(t, 0), Arrival(t + INITIAL_WINDOW_MS, 0)]).0.kbps == 0.0
  {
    var a0, a1 := Arrival(t, 0), Arrival(t + INITIAL_WINDOW_MS, 0);
    assert [a0, a1][..1] == [a0] && [a0][..0] == [];
    assert After([]) == (START, []);
    hide Moved;
    var e := Updated(START, a0);
    assert After([a0]).0 == e && e == START.(prevMs := t);
    var d := e.(prevMs := t + INITIAL_WINDOW_MS, windowMs := INITIAL_WINDOW_MS);
    assert Elapsed(e, t + INITIAL_WINDOW_MS, INITIAL_WINDOW_MS) == d;
    FirstSample(d.(windowMs := 0), 0.0);
  }

  lemma FirstSample(e: Estimate, sample: real)
    requires e.kbps < 0.0 && (e.variance.Some? ==> e.variance.value >= 0.0)
    ensures Moved(e, sample).kbps == sample
  {
    hide SampleVariance, Weighted, Combined;
  }

  class FOBitrateEstimator {
    var sum: int
    var currentWindowMs: int
    var prevTimeMs: int
    var bitrateEstimateKbps: real
    var bitrateEstimateVar: Option<real>

    ghost function View(): Estimate
      reads this
    {
      Estimate(sum, currentWindowMs, prevTimeMs, bitrateEstimateKbps, bitrateEstimateVar)
    }

    constructor ()
      ensures View() == START && Inv(View(), [])
    {
      sum, currentWindowMs, prevTimeMs, bitrateEstimateKbps, bitrateEstimateVar := 0, 0, -1, -1.0, Some(50.0);
    }

    method UpdateWindow(nowMs: int, bytes: nat, rateWindowMs: int) returns (sample: real)
      requires rateWindowMs > 0 && currentWindowMs >= 0 && sum >= 0
      modifies this`sum, this`currentWindowMs, this`prevTimeMs
      ensures var (d, s) := Windowed(old(View()), Arrival(nowMs, bytes), rateWindowMs);
        View() == d && (if s.Some? then sample == s.value >= 0.0 else sample == -1.0)
    {
      if nowMs < prevTimeMs {
        prevTimeMs, sum, currentWindowMs := -1, 0, 0;
      }
      if prevTimeMs >= 0 {
        currentWindowMs := currentWindowMs + (nowMs - prevTimeMs);
        if nowMs - prevTimeMs > rateWindowMs {
          sum := 0;
          currentWindowMs := currentWindowMs % rateWindowMs;
        }
      }
      prevTimeMs := nowMs;
      sample := -1.0;
      if currentWindowMs >= rateWindowMs {
        sample := 8.0 * sum as real / rateWindowMs as real;
        currentWindowMs := currentWindowMs - rateWindowMs;
        sum := 0;
      }
      sum := sum + bytes;
    }

    /** One arrival, whatever its time and size. */
    method Update(nowMs: int, bytes: nat, ghost samples: seq<real>)
      requires Inv(View(), samples)
      modifies this
      ensures View() == Updated(old(View()), Arrival(nowMs, bytes))
      ensures Inv(View(), Appended(samples, Sampled(old(View()), Arrival(nowMs, bytes))))
    {
      UpdateKeepsInv(View(), Arrival(nowMs, bytes), samples);
      WindowedKeeps(View(), Arrival(nowMs, bytes));
      var rateWindowMs := WINDOW_MS;
      if bitrateEstimateKbps < 0.0 {
        rateWindowMs := INITIAL_WINDOW_MS;
      }
      var sample := UpdateWindow(nowMs, bytes, rateWindowMs);
      hide Windowed, Moved, Spanned;
      if sample < 0.0 {
        return;
      }
      Move(sample);
    }

    method Move(sample: real)
      requires bitrateEstimateVar.Some? ==> bitrateEstimateVar.value >= 0.0
      modifies this`bitrateEstimateKbps, this`bitrateEstimateVar
      ensures View() == Moved(old(View()), sample)
    {
      hide SampleVariance, Weighted, Combined;
      if bitrateEstimateKbps < 0.0 {
        bitrateEstimateKbps := sample;
        return;
      }
      if bitrateEstimateKbps == 0.0 || bitrateEstimateVar.None? {
        bitrateEstimateKbps, bitrateEstimateVar := 0.0, None;
        return;
      }
      var v := SampleVariance(bitrateEstimateKbps, sample);
      VarianceNonNegative(bitrateEstimateKbps, sample);
      var predicted := bitrateEstimateVar.value + 5.0;
      bitrateEstimateKbps := Weighted(bitrateEstimateKbps, v, sample, predicted);
      bitrateEstimateKbps := RateControl.Max(bitrateEstimateKbps, 0.0);
      bitrateEstimateVar := Some(Combined(v, predicted));
    }

    /** What the controller is given: nothing before the first sample, and never a negative throughput. */
    method Bitrate(ghost samples: seq<real>) returns (rate: Option<real>)
      requires Inv(View(), samples)
      ensures rate.Some? <==> samples != []
      ensures rate.Some? ==> if samples[0] == 0.0 then rate.value == 0.0 else Spanned(rate.value / 1024.0, samples)
      ensures forall usage :: RateControl.LegalInput(RateControl.Input(usage, rate))
    {
      if bitrateEstimateKbps < 0.0 {
        return None;
      }
      return Some(bitrateEstimateKbps * 1024.0);
    }
  }
}
