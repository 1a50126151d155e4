/**
 * The RAK12007 ultrasonic level sensor (rak12007_us.cpp): ten echo-time
 * samples, of which those inside the timeout window are averaged in
 * integer arithmetic; the reading succeeds when the average is inside the
 * window too.
 *
 * This is the build without the RAK4630 calibration factor. The echo times
 * `pulseInLong` measures are an oracle, and so is the quotient of the
 * average's division when no sample was valid: C leaves a division by zero
 * undefined.
 */
module Rak12007Ultrasonic {
  import opened Common
  import opened Payload

  /** Echo time in microseconds for the 4 m range limit. */
  const TIME_OUT: nat := 24125
  /** Samples taken per reading. */
  const SAMPLES: nat := 10

  /** A sample counts iff its echo time is strictly inside (0, TIME_OUT). */
  predicate ValidEcho(t: U32) { 0 < t < TIME_OUT }

  /** `valid_measures` after the samples `ts`. */
  function ValidCount(ts: seq<U32>): (n: nat)
    ensures n <= |ts|
  {
    if ts == [] then 0 else ValidCount(ts[..|ts| - 1]) + if ValidEcho(ts[|ts| - 1]) then 1 else 0
  }

  /** `measure_time` after the samples `ts`: the sum of the valid echo times. */
  function ValidSum(ts: seq<U32>): nat
  {
    if ts == [] then 0 else ValidSum(ts[..|ts| - 1]) + if ValidEcho(ts[|ts| - 1]) then ts[|ts| - 1] else 0
  }

  /** Every counted sample contributes between 1 and TIME_OUT - 1 to the sum. */
  lemma {:induction false} SumBounds(ts: seq<U32>)
    ensures ValidCount(ts) <= ValidSum(ts) <= ValidCount(ts) * (TIME_OUT - 1)
  {
    if ts != [] {
      SumBounds(ts[..|ts| - 1]);
    }
  }

  /**
   * `measure_time / valid_measures` as written. With no valid sample the
   * divisor is 0 and the result is whatever the division yields on the
   * target, passed in as `zeroQuotient`.
   */
  function DividedAverage(ts: seq<U32>, zeroQuotient: nat): nat
  {
    if ValidCount(ts) == 0 then zeroQuotient else ValidSum(ts) / ValidCount(ts)
  }

  /** The average with the empty case made explicit: None when no sample was valid. */
  function CheckedAverage(ts: seq<U32>): (r: Option<nat>)
    ensures r.None? <==> ValidCount(ts) == 0
    ensures r.Some? ==> r.value == DividedAverage(ts, 0)
  {
    if ValidCount(ts) == 0 then None else Some(ValidSum(ts) / ValidCount(ts))
  }

  /** The success test on the averaged echo time. */
  predicate InWindow(avg: nat) { 0 < avg < TIME_OUT }

  /** A quotient of values bounded as `ValidSum` is bounded lies in the same window. */
  lemma QuotientBounds(s: nat, c: nat, k: nat)
    requires 0 < c && c <= s <= c * k
    ensures 1 <= s / c <= k
  {
    var q := s / c;
    assert q * c <= s < q * c + c;
  }

  /** At least one valid sample puts the average inside the window, so the reading succeeds. */
  lemma AverageInWindow(ts: seq<U32>, zeroQuotient: nat)
    requires ValidCount(ts) > 0
    ensures 1 <= DividedAverage(ts, zeroQuotient) <= TIME_OUT - 1
    ensures InWindow(DividedAverage(ts, zeroQuotient))
  {
    SumBounds(ts);
    QuotientBounds(ValidSum(ts), ValidCount(ts), TIME_OUT - 1);
  }

  /** With the empty case checked, a reading succeeds exactly when some sample was valid. */
  lemma CheckedReadOkIffEcho(ts: seq<U32>)
    ensures (CheckedAverage(ts).Some? && InWindow(CheckedAverage(ts).value)) <==> ValidCount(ts) > 0
  {
    if ValidCount(ts) > 0 {
      AverageInWindow(ts, 0);
    }
  }

  /**
   * As written, ten timed-out samples (no sensor answering) divide by zero,
   * and the probe then succeeds whenever that division happens to yield a
   * value inside the window.
   */
  lemma NoEchoDividesByZero(zeroQuotient: nat)
    ensures ValidCount(seq(SAMPLES, _ => 0)) == 0
    ensures InWindow(zeroQuotient) ==> InWindow(DividedAverage(seq(SAMPLES, _ => 0), zeroQuotient))
    ensures CheckedAverage(seq(SAMPLES, _ => 0)).None?
  {
    var ts: seq<U32> := seq(SAMPLES, _ => 0);
    NoValidEcho(ts);
  }

  lemma {:induction false} NoValidEcho(ts: seq<U32>)
    requires forall k :: 0 <= k < |ts| ==> ts[k] == 0
    ensures ValidCount(ts) == 0
  {
    if ts != [] {
      NoValidEcho(ts[..|ts| - 1]);
    }
  }

  /** The payload entry for a successful reading with average echo time `avg`. */
  function LevelEntry(avg: nat): Entry
  {
    Entry(ChannelWaterLevel, AnalogInput, DistanceOfEcho(avg))
  }

  /** `has_rak12007` and the levels of the power-down (PD) and trigger pins. */
  class Rak12007 {
    var hasRak12007: bool
    var pdHigh: bool
    var trigHigh: bool

    /**
     * `has_rak12007` starts false. The source sets no initial pin levels;
     * low on both is an assumed reset state, and Init drives both pins anyway.
     */
    constructor ()
      ensures !hasRak12007 && !pdHigh && !trigHigh
    {
      hasRak12007 := false;
      pdHigh := false;
      trigHigh := false;
    }

    /** The sampling loop: ten trigger pulses, summing and counting the valid echo times. */
    method Sample(echoes: seq<U32>) returns (measureTime: nat, validMeasures: nat)
      requires |echoes| == SAMPLES
      modifies this`trigHigh
      ensures measureTime == ValidSum(echoes) && validMeasures == ValidCount(echoes)
      ensures !trigHigh
    {
      measureTime, validMeasures := 0, 0;
      trigHigh := false;
      for reading := 0 to SAMPLES
        invariant measureTime == ValidSum(echoes[..reading])
        invariant validMeasures == ValidCount(echoes[..reading])
        invariant !trigHigh
      {
        trigHigh := true;
        trigHigh := false;
        var respondTime := echoes[reading];
        assert echoes[..reading + 1][..reading] == echoes[..reading];
        if 0 < respondTime < TIME_OUT {
          measureTime := measureTime + respondTime;
          validMeasures := validMeasures + 1;
        }
      }
      assert echoes[..SAMPLES] == echoes;
    }

    /**
     * `read_rak12007`: powers the sensor up, takes the ten samples, averages
     * the valid ones, adds the level to the payload when asked and the
     * reading succeeded, and powers the sensor down on both paths.
     */
    method Read(addPayload: bool, echoes: seq<U32>, zeroQuotient: nat, payload: Accumulator) returns (ok: bool)
      requires |echoes| == SAMPLES
      modifies this`pdHigh, this`trigHigh, payload
      ensures ok == InWindow(DividedAverage(echoes, zeroQuotient))
      ensures payload.entries == old(payload.entries) +
        if addPayload && ok then [LevelEntry(DividedAverage(echoes, zeroQuotient))] else []
      ensures pdHigh && trigHigh
    {
      pdHigh := false;
      trigHigh := false;
      var measureTime, validMeasures := Sample(echoes);
      if validMeasures == 0 {
        measureTime := zeroQuotient;
      } else {
        measureTime := measureTime / validMeasures;
      }
      assert measureTime == DividedAverage(echoes, zeroQuotient);
      if 0 < measureTime < TIME_OUT {
        if addPayload {
          payload.Add(LevelEntry(measureTime));
        }
        pdHigh := true;
        trigHigh := true;
        return true;
      }
      pdHigh := true;
      trigHigh := true;
      return false;
    }

    /**
     * `init_rak12007`: one reading without payload decides whether the
     * sensor is present; the sensor is left powered down.
     */
    method Init(echoes: seq<U32>, zeroQuotient: nat, payload: Accumulator) returns (ok: bool)
      requires |echoes| == SAMPLES
      modifies this, payload
      ensures ok == hasRak12007 == InWindow(DividedAverage(echoes, zeroQuotient))
      ensures payload.entries == old(payload.entries)
      ensures pdHigh && trigHigh
    {
      trigHigh := false;
      pdHigh := false;
      hasRak12007 := Read(false, echoes, zeroQuotient, payload);
      pdHigh := true;
      return hasRak12007;
    }
  }
}
