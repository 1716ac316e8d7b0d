/** The sentinel sanitizer (`fix_extreme_inf_values`): the switch reports a
    power reading it cannot take as `-9999.000000`; the sanitizer rewrites that
    sentinel, in place, into the floor value consumers expect. */
module Sanitizer {
  import opened Optics

  const SENTINEL := "-9999.000000"
  /** No light detected. */
  const RX_FLOOR := "-40.000000"
  const TX_FLOOR := "0.00"

  /** The channel after the rewrite: a sentinel rx-power becomes `RX_FLOOR`, a
      sentinel tx-power becomes `TX_FLOOR`; no sentinel remains, and every
      other reading, tx-current among them, is kept. */
  function FixChannel(c: Channel): (d: Channel)
    ensures d.rxPower != SENTINEL && d.txPower != SENTINEL
    ensures d.rxPower == (if c.rxPower == SENTINEL then RX_FLOOR else c.rxPower)
    ensures d.txPower == (if c.txPower == SENTINEL then TX_FLOOR else c.txPower)
    ensures d.txCurrent == c.txCurrent
  {
    var c1 := if c.rxPower == SENTINEL then c.(rxPower := RX_FLOOR) else c;
    if c1.txPower == SENTINEL then c1.(txPower := TX_FLOOR) else c1
  }

  function FixPort(p: PortRecord): PortRecord
  {
    p.(channels := seq(|p.channels|, j requires 0 <= j < |p.channels| => FixChannel(p.channels[j])))
  }

  predicate HasSentinel(c: Channel)
  {
    c.rxPower == SENTINEL || c.txPower == SENTINEL
  }

  /** Some channel of some port still reports a sentinel power. */
  predicate AnySentinel(ports: seq<PortRecord>)
  {
    exists i, j :: 0 <= i < |ports| && 0 <= j < |ports[i].channels| && HasSentinel(ports[i].channels[j])
  }

  /** The ports after the rewrite: the same ports, in the same order, with the
      same names, temperatures, voltages and channel indices; each channel
      rewritten by `FixChannel`; no sentinel left anywhere. */
  function SanitizePorts(ports: seq<PortRecord>): (r: seq<PortRecord>)
    ensures |r| == |ports|
    ensures forall i :: 0 <= i < |ports| ==>
              && r[i].name == ports[i].name
              && r[i].temperature == ports[i].temperature
              && r[i].voltage == ports[i].voltage
              && |r[i].channels| == |ports[i].channels|
    ensures forall i, j :: 0 <= i < |ports| && 0 <= j < |ports[i].channels| ==>
              r[i].channels[j] == FixChannel(ports[i].channels[j])
    ensures !AnySentinel(r)
  {
    seq(|ports|, i requires 0 <= i < |ports| => FixPort(ports[i]))
  }

  /** The rewrite changes the ports exactly when some sentinel is present. */
  lemma {:induction false} SanitizeFixedPointIff(ports: seq<PortRecord>)
    ensures SanitizePorts(ports) == ports <==> !AnySentinel(ports)
  {
    var r := SanitizePorts(ports);
    if !AnySentinel(ports) {
      forall i | 0 <= i < |ports| ensures r[i] == ports[i] {
        forall j | 0 <= j < |ports[i].channels| ensures r[i].channels[j] == ports[i].channels[j] {
          assert !HasSentinel(ports[i].channels[j]);
        }
        assert r[i].channels == ports[i].channels;
      }
    }
  }

  /** Sanitizing twice is sanitizing once: no replacement value is the sentinel. */
  lemma {:induction false} SanitizeIdempotent(ports: seq<PortRecord>)
    ensures SanitizePorts(SanitizePorts(ports)) == SanitizePorts(ports)
  {
    SanitizeFixedPointIff(SanitizePorts(ports));
  }

  /** `fix_extreme_inf_values`: rewrites every channel of every port of the
      list in place and returns that same list. */
  method FixInfValues(data: array<PortRecord>) returns (r: array<PortRecord>)
    modifies data
    ensures r == data
    ensures data[..] == SanitizePorts(old(data[..]))
  {
    var i := 0;
    while i < data.Length
      invariant 0 <= i <= data.Length
      invariant forall k :: 0 <= k < i ==> data[k] == FixPort(old(data[k]))
      invariant forall k :: i <= k < data.Length ==> data[k] == old(data[k])
    {
      var channels := data[i].channels;
      var j := 0;
      while j < |channels|
        invariant 0 <= j <= |channels| == |data[i].channels|
        invariant forall m :: 0 <= m < j ==> channels[m] == FixChannel(data[i].channels[m])
        invariant forall m :: j <= m < |channels| ==> channels[m] == data[i].channels[m]
      {
        var channel := channels[j];
        if channel.rxPower == SENTINEL {
          channel := channel.(rxPower := RX_FLOOR);
        }
        if channel.txPower == SENTINEL {
          channel := channel.(txPower := TX_FLOOR);
        }
        channels := channels[j := channel];
        j := j + 1;
      }
      assert channels == FixPort(data[i]).channels;
      data[i] := data[i].(channels := channels);
      i := i + 1;
    }
    assert data[..] == SanitizePorts(old(data[..]));
    r := data;
  }
}
