/** The smoothing filter over the analog readings (src/adc.c). */
module Adc {
  import opened Bytes
  import T = Timers

  const SAMPLE_MAX: nat := 1023
  const CHANNELS: nat := 4
  const SAMPLE_PERIOD: nat := 100

  /** The filter in unsigned 16-bit arithmetic: weight 8 of 32 for the new sample, rounded. */
  function Filter(sample: nat, smoothed: nat): nat {
    Wrap16(Wrap16(sample * 8 + smoothed * 24) + 16) / 32
  }

  /** What the filter is meant to be, in exact arithmetic. */
  function Smooth(sample: int, smoothed: int): int {
    (sample * 8 + smoothed * 24 + 16) / 32
  }

  /** Ten-bit values never overflow, and the result lies between the old value and the sample. */
  lemma FilterIsSmooth(sample: nat, smoothed: nat)
    requires sample <= SAMPLE_MAX && smoothed <= SAMPLE_MAX
    ensures Filter(sample, smoothed) == Smooth(sample, smoothed) <= SAMPLE_MAX
    ensures smoothed <= sample ==> smoothed <= Filter(sample, smoothed) <= sample
    ensures sample <= smoothed ==> sample <= Filter(sample, smoothed) <= smoothed
  {}

  /** The filter rests exactly when the sample is at most two below or one above the value. */
  lemma RestsExactlyNear(sample: nat, v: nat)
    requires sample <= SAMPLE_MAX && v <= SAMPLE_MAX
    ensures Filter(sample, v) == v <==> -2 <= sample - v <= 1
  {}

  /** The value after `n` equal samples. */
  function Settle(sample: nat, v: nat, n: nat): nat
    decreases n
  {
    if n == 0 then v else Settle(sample, Filter(sample, v), n - 1)
  }

  function Gap(a: int, b: int): nat {
    if a <= b then b - a else a - b
  }

  /** One step: away from rest, the value moves toward the sample by at least a quarter of the gap, rounded. */
  lemma StepCloses(sample: nat, v: nat)
    requires sample <= SAMPLE_MAX && v <= SAMPLE_MAX
    ensures !(-2 <= sample - v <= 1) ==> Gap(sample, Filter(sample, v)) < Gap(sample, v)
    ensures 4 * Gap(sample, Filter(sample, v)) <= 3 * Gap(sample, v) + 2
  {
    FilterIsSmooth(sample, v);
    var x, w := sample * 8 + v * 24 + 16, Filter(sample, v);
    assert 32 * w <= x < 32 * w + 32;
  }

  /**
   Under a constant sample the value never overshoots, never turns back, is at rest after at most
   as many steps as the gap was wide, and rests within two of the sample for good.
   */
  lemma {:induction false} ConstantSampleSettles(sample: nat, v: nat, n: nat)
    requires sample <= SAMPLE_MAX && v <= SAMPLE_MAX
    ensures var w := Settle(sample, v, n);
            && (v <= sample ==> v <= w <= sample)
            && (sample <= v ==> sample <= w <= v)
            && (n >= Gap(sample, v) ==> -2 <= sample - w <= 1 && Filter(sample, w) == w)
    decreases n
  {
    FilterIsSmooth(sample, v);
    if n > 0 {
      var v' := Filter(sample, v);
      if -2 <= sample - v <= 1 {
        RestsExactlyNear(sample, v);
        RestStays(sample, v, n);
      } else {
        StepCloses(sample, v);
        ConstantSampleSettles(sample, v', n - 1);
        RestsExactlyNear(sample, Settle(sample, v', n - 1));
      }
    } else if v == sample {
      RestsExactlyNear(sample, v);
    }
  }

  lemma {:induction false} RestStays(sample: nat, v: nat, n: nat)
    requires Filter(sample, v) == v
    ensures Settle(sample, v, n) == v
    decreases n
  {
    if n > 0 {
      RestStays(sample, v, n - 1);
    }
  }

  class AdcModule {
    const results: array<nat>
    var adcTimeout: nat

    ghost predicate Valid()
      reads this, results
    {
      results.Length == CHANNELS && forall i :: 0 <= i < CHANNELS ==> results[i] <= SAMPLE_MAX
    }

    constructor ()
      ensures Valid() && fresh(results)
    {
      results := new nat[CHANNELS](_ => 0);
      adcTimeout := 0;
    }

    /** Every channel is filtered once. */
    method Collect(samples: seq<nat>)
      requires Valid() && |samples| == CHANNELS && forall i :: 0 <= i < CHANNELS ==> samples[i] <= SAMPLE_MAX
      modifies results
      ensures Valid()
      ensures forall i :: 0 <= i < CHANNELS ==> results[i] == Smooth(samples[i], old(results[i]))
    {
      for idx := 0 to CHANNELS
        invariant Valid()
        invariant forall i :: 0 <= i < idx ==> results[i] == Smooth(samples[i], old(results[i]))
        invariant forall i :: idx <= i < CHANNELS ==> results[i] == old(results[i])
      {
        FilterIsSmooth(samples[idx], results[idx]);
        results[idx] := Filter(samples[idx], results[idx]);
      }
    }

    /** Sampling happens at most once per call, when the ADC is enabled and its timeout has passed. */
    method RunAdc(enabled: bool, systick: nat, samples: seq<nat>)
      requires Valid() && |samples| == CHANNELS && forall i :: 0 <= i < CHANNELS ==> samples[i] <= SAMPLE_MAX
      modifies this`adcTimeout, results
      ensures Valid()
      ensures var due := enabled && T.Expired16(systick, old(adcTimeout));
              && adcTimeout == (if due then Wrap16(old(adcTimeout) + SAMPLE_PERIOD) else old(adcTimeout))
              && forall i :: 0 <= i < CHANNELS ==>
                   results[i] == if due then Smooth(samples[i], old(results[i])) else old(results[i])
    {
      if enabled && T.Expired16(systick, adcTimeout) {
        adcTimeout := Wrap16(adcTimeout + SAMPLE_PERIOD);
        Collect(samples);
      }
    }
  }
}
