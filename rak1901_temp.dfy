/**
 * The RAK1901 temperature and humidity sensor (RAK1901_temp.cpp): a reading
 * goes into the payload and into a one-shot cache that the VOC driver
 * consumes for its compensation.
 *
 * The SHTC3 library is an oracle: each `update()` yields the reading passed
 * in as a parameter.
 */
module Rak1901Temp {
  import opened Common
  import opened Payload

  /** What `shtc3.temperature()` and `shtc3.humidity()` report after one update. */
  datatype Reading = Reading(temp: Float32, humid: Float32)

  /** The two payload entries one `read_rak1901` adds, humidity first. */
  function ReadEntries(r: Reading): (es: seq<Entry>)
    ensures |es| == 2
    ensures es[0].channel == ChannelHumid && es[0].value == FloatValue(r.humid)
    ensures es[1].channel == ChannelTemp && es[1].value == FloatValue(r.temp)
  {
    [Entry(ChannelHumid, RelativeHumidity, FloatValue(r.humid)), Entry(ChannelTemp, Temperature, FloatValue(r.temp))]
  }

  /**
   * What `get_rak1901_values` hands back: the cached pair while the flag is
   * set, otherwise a fresh reading; and the flag afterwards.
   */
  function GetOutcome(hasLast: bool, cache: Reading, update: Reading): (r: (Reading, bool))
    ensures !r.1
    ensures r.0 == cache || r.0 == update
    ensures hasLast ==> r.0 == cache
    ensures !hasLast ==> r.0 == update
  {
    if hasLast then (cache, false) else (update, false)
  }

  /** Two gets after a reading: the first sees the cached values, the second a fresh update. */
  lemma ConsumeOnce(cached: Reading, update1: Reading, update2: Reading)
    ensures GetOutcome(true, cached, update1).0 == cached
    ensures GetOutcome(GetOutcome(true, cached, update1).1, cached, update2).0 == update2
  {
  }

  /** `_last_temp`, `_last_humid` and `_has_last_values`. */
  class Rak1901 {
    var lastTemp: Float32
    var lastHumid: Float32
    var hasLastValues: bool

    /** The cache as one reading. */
    function Cache(): Reading
      reads this
    {
      Reading(lastTemp, lastHumid)
    }

    /** The globals at start-up: both values 0.0 and no cached reading. */
    constructor ()
      ensures lastTemp == 0 && lastHumid == 0 && !hasLastValues
    {
      lastTemp := 0;
      lastHumid := 0;
      hasLastValues := false;
    }

    /** `init_rak1901`: succeeds iff the sensor library's `init()` does; nothing is cached. */
    method Init(sensorOk: bool) returns (ok: bool)
      ensures ok == sensorOk
    {
      if !sensorOk {
        return false;
      }
      return true;
    }

    /** `read_rak1901`: adds humidity then temperature to the payload and caches both. */
    method Read(sensor: Reading, payload: Accumulator)
      modifies this, payload
      ensures payload.entries == old(payload.entries) + ReadEntries(sensor)
      ensures Cache() == sensor && hasLastValues
    {
      payload.Add(Entry(ChannelHumid, RelativeHumidity, FloatValue(sensor.humid)));
      payload.Add(Entry(ChannelTemp, Temperature, FloatValue(sensor.temp)));
      lastTemp := sensor.temp;
      lastHumid := sensor.humid;
      hasLastValues := true;
    }

    /**
     * `get_rak1901_values`: returns the cached pair and clears the flag, or,
     * with the flag clear, a fresh reading with cache and flag left as they are.
     */
    method GetValues(update: Reading) returns (values: Reading)
      modifies this`hasLastValues
      ensures (values, hasLastValues) == GetOutcome(old(hasLastValues), Cache(), update)
    {
      if hasLastValues {
        hasLastValues := false;
        values := Reading(lastTemp, lastHumid);
        return;
      } else {
        values := update;
      }
    }

    /** A reading followed by two gets: cached values first, then a fresh update. */
    method ReadThenGetTwice(sensor: Reading, update1: Reading, update2: Reading, payload: Accumulator)
        returns (first: Reading, second: Reading)
      modifies this, payload
      ensures first == sensor && second == update2
      ensures Cache() == sensor && !hasLastValues
      ensures payload.entries == old(payload.entries) + ReadEntries(sensor)
    {
      Read(sensor, payload);
      first := GetValues(update1);
      second := GetValues(update2);
    }
  }
}
