/**
 * The outbound Cayenne LPP payload (`g_solution_data`), reduced to an
 * append-only list of typed entries. The byte encoding is not modelled.
 */
module Payload {
  import opened Common

  /** The LPP channels the modelled drivers write to. */
  datatype Channel = ChannelHumid | ChannelTemp | ChannelVoc | ChannelWaterLevel

  /** The typed `add...` operation used for an entry. */
  datatype Kind = RelativeHumidity | Temperature | VocIndex | AnalogInput

  /** What an entry carries. `DistanceOfEcho(t)` is the distance computed from echo time `t` in floating point. */
  datatype Value = IntValue(i: int) | FloatValue(f: Float32) | DistanceOfEcho(echoTime: int)

  datatype Entry = Entry(channel: Channel, kind: Kind, value: Value)

  class Accumulator {
    var entries: seq<Entry>

    constructor ()
      ensures entries == []
    {
      entries := [];
    }

    /** One typed `add...` call: the entry goes at the end, nothing else changes. */
    method Add(e: Entry)
      modifies this
      ensures entries == old(entries) + [e]
    {
      entries := entries + [e];
    }
  }
}
