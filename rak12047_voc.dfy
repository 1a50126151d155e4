/**
 * The RAK12047 VOC sensor (RAK12047_voc.cpp): a once-a-second timer tick
 * measures the raw signal, feeds it to the gas-index algorithm, discards the
 * first readings while the algorithm warms up, and then keeps a running
 * average of the index; the sensor read adds that index to the payload once
 * any measurement has succeeded.
 *
 * The SGP40 library and the gas-index algorithm are oracles: a tick's
 * `Measurement` says whether the measurement failed, or which raw value it
 * gave and which index the algorithm returned for it. The algorithm's own
 * state is represented by the list of raw values it has been fed.
 */
module Rak12047Voc {
  import opened Common
  import opened Payload
  import Rak1901Temp

  /** Readings while `discard_counter` is at most this are only fed to the algorithm. */
  const DISCARD_LIMIT: nat := 100
  /** The counter value at which the first index is taken. */
  const FIRST_READING: nat := 101
  /** Where the counter stays once the running average has started. */
  const STEADY: nat := 102
  /** The self-test result of a healthy SGP40. */
  const SELF_TEST_OK: nat := 0xD400
  /** The compensation `measureRawSignal` is given: 50 %RH and 25 degC in sensor ticks. */
  const DEFAULT_RH: U16 := 0x8000
  const DEFAULT_T: U16 := 0x6666

  /** One tick's measurement: a library error, or the raw signal and the index computed from it. */
  datatype Measurement = MeasureError | Measured(raw: U16, processed: I32)

  /** `discard_counter`, `voc_index`, `voc_valid` and the raw values fed to the algorithm. */
  datatype VocState = VocState(counter: nat, index: I32, valid: bool, fed: seq<U16>)

  /**
   * `(voc_index + new_voc_index) / 2` as C evaluates it: `voc_index` is
   * converted to `uint32_t`, the sum wraps modulo 2^32, the division is
   * unsigned, and the result is stored back into an `int32_t`.
   */
  function Average(index: I32, processed: I32): (r: I32)
    ensures 0 <= index && 0 <= processed ==> r == (index + processed) / 2
  {
    ToI32(ToU32(ToU32(index) + ToU32(processed)) / 2)
  }

  /** The averaged index lies between the old index and the new value when both are non-negative. */
  lemma AverageBetween(index: I32, processed: I32)
    requires 0 <= index && 0 <= processed
    ensures index <= processed ==> index <= Average(index, processed) <= processed
    ensures processed <= index ==> processed <= Average(index, processed) <= index
  {
  }

  /** The state after one tick of `do_read_rak12047`. */
  function Tick(st: VocState, m: Measurement): (r: VocState)
    ensures m.MeasureError? ==> r == st
    ensures m.Measured? ==> r.valid && r.fed == st.fed + [m.raw]
  {
    match m
    case MeasureError => st
    case Measured(raw, processed) =>
      var fed := st.fed + [raw];
      if st.counter <= DISCARD_LIMIT then VocState(st.counter + 1, st.index, true, fed)
      else if st.counter == FIRST_READING then VocState(st.counter + 1, processed, true, fed)
      else VocState(st.counter, Average(st.index, processed), true, fed)
  }

  /** The counter never passes 102, so the `uint16_t` counter cannot wrap. */
  lemma TickCounterBound(st: VocState, m: Measurement)
    requires st.counter <= STEADY
    ensures Tick(st, m).counter <= STEADY
    ensures st.counter == STEADY ==> Tick(st, m).counter == STEADY
  {
  }

  /** The state after a series of ticks. */
  function Ticks(st: VocState, ms: seq<Measurement>): VocState
  {
    if ms == [] then st else Tick(Ticks(st, ms[..|ms| - 1]), ms[|ms| - 1])
  }

  /** How many measurements of `ms` succeeded. */
  function Successes(ms: seq<Measurement>): (n: nat)
    ensures n <= |ms|
  {
    if ms == [] then 0 else Successes(ms[..|ms| - 1]) + if ms[|ms| - 1].Measured? then 1 else 0
  }

  /**
   * Warm-up: while the counter has not gone past 101, ticks never change the
   * index, each success bumps the counter and is fed to the algorithm, and the
   * index counts as valid as soon as one measurement has succeeded.
   */
  lemma {:induction false} WarmUp(st: VocState, ms: seq<Measurement>)
    requires st.counter + Successes(ms) <= FIRST_READING
    ensures Ticks(st, ms).index == st.index
    ensures Ticks(st, ms).counter == st.counter + Successes(ms)
    ensures Ticks(st, ms).valid == (st.valid || Successes(ms) > 0)
    ensures |Ticks(st, ms).fed| == |st.fed| + Successes(ms)
  {
    if ms != [] {
      WarmUp(st, ms[..|ms| - 1]);
    }
  }

  /**
   * From a freshly initialised counter, the 102nd successful measurement is
   * the first whose index is taken, as it is.
   */
  lemma FirstIndexTaken(st: VocState, ms: seq<Measurement>, raw: U16, processed: I32)
    requires st.counter == 0 && Successes(ms) == FIRST_READING
    ensures Ticks(st, ms + [Measured(raw, processed)]).index == processed
    ensures Ticks(st, ms + [Measured(raw, processed)]).counter == STEADY
  {
    WarmUp(st, ms);
    assert (ms + [Measured(raw, processed)])[..|ms|] == ms;
  }

  /** Once averaging, an index within [lo, hi] stays there when the algorithm's values do. */
  lemma {:induction false} IndexStaysInRange(st: VocState, ms: seq<Measurement>, lo: nat, hi: I32)
    requires st.counter == STEADY && lo <= st.index <= hi
    requires forall k :: 0 <= k < |ms| && ms[k].Measured? ==> lo <= ms[k].processed <= hi
    ensures lo <= Ticks(st, ms).index <= hi && Ticks(st, ms).counter == STEADY
  {
    if ms != [] {
      var prefix := ms[..|ms| - 1];
      IndexStaysInRange(st, prefix, lo, hi);
      var before := Ticks(st, prefix);
      var m := ms[|ms| - 1];
      if m.Measured? {
        AverageBetween(before.index, m.processed);
      }
    }
  }

  /** The driver's globals. */
  class Rak12047 {
    var vocIndex: I32
    var vocValid: bool
    var discardCounter: nat
    var fed: seq<U16>
    /** Whether the one-second read timer has been started. */
    var timerRunning: bool

    function State(): VocState
      reads this
    {
      VocState(discardCounter, vocIndex, vocValid, fed)
    }

    ghost predicate Valid()
      reads this
    {
      discardCounter <= STEADY
    }

    constructor ()
      ensures Valid() && State() == VocState(0, 0, false, []) && !timerRunning
    {
      vocIndex := 0;
      vocValid := false;
      discardCounter := 0;
      fed := [];
      timerRunning := false;
    }

    /**
     * `init_rak12047`: fails on a serial-number error, a self-test error or a
     * self-test result other than 0xD400; on success restarts the warm-up and
     * starts the read timer. The index and its flag are left as they were.
     */
    method Init(serialError: U16, selfTestError: U16, testResult: U16) returns (ok: bool)
      requires Valid()
      modifies this`discardCounter, this`timerRunning
      ensures Valid()
      ensures ok == (serialError == 0 && selfTestError == 0 && testResult == SELF_TEST_OK)
      ensures ok ==> discardCounter == 0 && timerRunning
      ensures !ok ==> discardCounter == old(discardCounter) && timerRunning == old(timerRunning)
    {
      if serialError != 0 {
        return false;
      }
      if selfTestError != 0 {
        return false;
      } else if testResult != SELF_TEST_OK {
        return false;
      }
      discardCounter := 0;
      timerRunning := true;
      return true;
    }

    /**
     * `do_read_rak12047`, one timer tick. When the temperature sensor is
     * present its cached values are consumed, but they never reach the
     * compensation: the local `temperature` stays 0.0, so the defaults are
     * always passed to the measurement, and they are returned here.
     */
    method DoRead(tempFound: bool, temp: Rak1901Temp.Rak1901, update: Rak1901Temp.Reading, m: Measurement)
        returns (rhTicks: U16, tTicks: U16)
      requires Valid()
      modifies this, temp`hasLastValues
      ensures Valid()
      ensures State() == Tick(old(State()), m) && timerRunning == old(timerRunning)
      ensures rhTicks == DEFAULT_RH && tTicks == DEFAULT_T
      ensures temp.hasLastValues == (old(temp.hasLastValues) && !tempFound)
    {
      var temperature: Float32 := 0;
      rhTicks, tTicks := DEFAULT_RH, DEFAULT_T;
      if tempFound {
        var values := temp.GetValues(update);
        if temperature != 0 {
          // the conversion of humidity and temperature to ticks is never reached
          assert false;
        }
      }
      match m {
        case MeasureError =>
        case Measured(raw, processed) =>
          fed := fed + [raw];
          if discardCounter <= DISCARD_LIMIT {
            discardCounter := discardCounter + 1;
          } else if discardCounter == FIRST_READING {
            vocIndex := processed;
            discardCounter := discardCounter + 1;
          } else {
            vocIndex := Average(vocIndex, processed);
          }
          vocValid := true;
      }
    }

    /** `read_rak12047`: adds the index to the payload only while it is valid. */
    method Read(payload: Accumulator)
      modifies payload
      ensures payload.entries == old(payload.entries) + if vocValid then [Entry(ChannelVoc, VocIndex, IntValue(vocIndex))] else []
    {
      if vocValid {
        payload.Add(Entry(ChannelVoc, VocIndex, IntValue(vocIndex)));
      }
    }
  }
}
