/** The data the optics agent works on: the per-channel fragments the switch
    reports, the per-port records the reader builds from them, and the
    `METRICS` table that names the channel readings. */
module Optics {

  datatype Option<+T> = None | Some(value: T)

  /** Why reading the fragment stream can fail. */
  datatype ReadError =
    | StreamExhausted  // a port announced more channels than fragments remain

  datatype Result<+T> = Success(value: T) | Failure(error: ReadError)

  /** One `show_ports_transceiver` element of the switch's reply, with the text of
      its child elements already extracted. */
  datatype Fragment = Fragment(
    nonEmpty: bool,             // the element has at least one child element
    hasErrorString: bool,       // a `portErrorString` child is present
    partNumberIsValid: string,
    port: string,
    numChannels: int,
    temp: string,
    voltageAux1: string,
    txPower: string,
    rxPower: string,
    txBiasCurrent: string)

  /** The readings of one channel: a dict with exactly the keys `tx-power`,
      `rx-power` and `tx-current`. */
  datatype Channel = Channel(txPower: string, rxPower: string, txCurrent: string)

  /** One port: `name`, `channels` (channel `j` at index `j`, so the keys are
      `0 .. |channels| - 1`), and `temperature` and `voltage`, which the dict
      carries only when channel 0 was read. */
  datatype PortRecord = PortRecord(
    name: string,
    temperature: Option<string>,
    voltage: Option<string>,
    channels: seq<Channel>)

  /** The `METRICS` table: fragment element name to channel key, in declaration order. */
  const METRICS: seq<(string, string)> :=
    [("txPower", "tx-power"), ("rxPower", "rx-power"), ("txBiasCurrent", "tx-current")]

  /** The text of a fragment's child element, looked up by element name. */
  function Element(f: Fragment, tag: string): Option<string>
  {
    match tag
    case "temp" => Some(f.temp)
    case "voltageAux1" => Some(f.voltageAux1)
    case "txPower" => Some(f.txPower)
    case "rxPower" => Some(f.rxPower)
    case "txBiasCurrent" => Some(f.txBiasCurrent)
    case "port" => Some(f.port)
    case "partNumberIsValid" => Some(f.partNumberIsValid)
    case _ => None
  }

  /** The key/value pairs of a channel dict, in `METRICS` order. */
  function ChannelFields(c: Channel): seq<(string, string)>
  {
    [("tx-power", c.txPower), ("rx-power", c.rxPower), ("tx-current", c.txCurrent)]
  }

  /** The channel dict read from one fragment: each `METRICS` key's element,
      stored under the key `METRICS` maps it to, and nothing else. */
  function ChannelOf(f: Fragment): (c: Channel)
    ensures |ChannelFields(c)| == |METRICS|
    ensures forall i :: 0 <= i < |METRICS| ==>
              ChannelFields(c)[i].0 == METRICS[i].1 && Element(f, METRICS[i].0) == Some(ChannelFields(c)[i].1)
  {
    Channel(f.txPower, f.rxPower, f.txBiasCurrent)
  }

  /** The shape every record the reader builds has: temperature and voltage
      are present exactly when the port has a channel 0. */
  predicate WellShaped(p: PortRecord)
  {
    p.temperature.Some? == (|p.channels| > 0) && p.voltage.Some? == (|p.channels| > 0)
  }
}
