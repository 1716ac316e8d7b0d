/** The line protocol encoder (`create_lineprotocol_data`): one `optics` line
    per port, followed by one `optics_channels` line per channel of that port,
    the lines joined by line breaks, in InfluxDB v1.3 line protocol
    (`measurement,tag=value,... field=value,...`). Tag and field values are
    inserted verbatim, without escaping. */
module LineProtocol {
  import opened Strings
  import opened Optics

  const PORT_MEASUREMENT := "optics"
  const CHANNEL_MEASUREMENT := "optics_channels"

  /** `",".join([key + "=" + value for ...])` */
  function FieldSet(fields: seq<(string, string)>): string
  {
    Join(seq(|fields|, i requires 0 <= i < |fields| => fields[i].0 + "=" + fields[i].1), ",")
  }

  /** The port dict's keys other than `name` and `channels`: temperature, then voltage. */
  function PortFields(p: PortRecord): seq<(string, string)>
  {
    (if p.temperature.Some? then [("temperature", p.temperature.value)] else [])
    + (if p.voltage.Some? then [("voltage", p.voltage.value)] else [])
  }

  function PortTags(p: PortRecord, device: string): string
  {
    "device=" + device + ",port=" + p.name
  }

  function PortLine(p: PortRecord, device: string): string
  {
    PORT_MEASUREMENT + "," + PortTags(p, device) + " " + FieldSet(PortFields(p))
  }

  function ChannelLine(p: PortRecord, device: string, j: nat): string
    requires j < |p.channels|
  {
    CHANNEL_MEASUREMENT + "," + Join([PortTags(p, device), "channel=" + NatToString(j)], ",")
    + " " + FieldSet(ChannelFields(p.channels[j]))
  }

  function TotalChannels(ports: seq<PortRecord>): nat
  {
    if |ports| == 0 then 0 else |ports[0].channels| + TotalChannels(ports[1..])
  }

  /** The lines of the payload: for each port in order, its port line and then
      its channel lines in ascending channel index; one line per port and one
      per channel. */
  function EncodedLines(ports: seq<PortRecord>, device: string): (lines: seq<string>)
    ensures |lines| == |ports| + TotalChannels(ports)
  {
    if |ports| == 0 then []
    else
      var p := ports[0];
      [PortLine(p, device)] + seq(|p.channels|, j requires 0 <= j < |p.channels| => ChannelLine(p, device, j))
      + EncodedLines(ports[1..], device)
  }

  /** Where port `k`'s line stands in the payload: after the lines of the ports before it. */
  function PortOffset(ports: seq<PortRecord>, k: nat): nat
    requires k <= |ports|
  {
    k + TotalChannels(ports[..k])
  }

  /** Layout: port `k`'s line stands at `PortOffset(ports, k)` and is followed
      immediately by its channel lines, channel `j` at distance `j + 1`. */
  lemma {:induction false} EncodedLinesLayout(ports: seq<PortRecord>, device: string, k: nat)
    requires k < |ports|
    ensures PortOffset(ports, k) + |ports[k].channels| < |EncodedLines(ports, device)|
    ensures EncodedLines(ports, device)[PortOffset(ports, k)] == PortLine(ports[k], device)
    ensures forall j :: 0 <= j < |ports[k].channels| ==>
              EncodedLines(ports, device)[PortOffset(ports, k) + 1 + j] == ChannelLine(ports[k], device, j)
  {
    var p := ports[k];
    var chans := seq(|p.channels|, j requires 0 <= j < |p.channels| => ChannelLine(p, device, j));
    var before := EncodedLines(ports[..k], device);
    var block := EncodedLines([p] + ports[k + 1..], device);
    assert ports == ports[..k] + ([p] + ports[k + 1..]);
    EncodedLinesConcat(ports[..k], [p] + ports[k + 1..], device);
    assert ([p] + ports[k + 1..])[1..] == ports[k + 1..];
    assert block == [PortLine(p, device)] + chans + EncodedLines(ports[k + 1..], device);
    assert |before| == PortOffset(ports, k);
  }

  /** Encoding a list of ports is encoding each part of it in turn. */
  lemma {:induction false} EncodedLinesConcat(a: seq<PortRecord>, b: seq<PortRecord>, device: string)
    ensures EncodedLines(a + b, device) == EncodedLines(a, device) + EncodedLines(b, device)
  {
    if |a| == 0 {
      assert a + b == b;
    } else {
      assert (a + b)[1..] == a[1..] + b;
      assert (a + b)[0] == a[0];
      EncodedLinesConcat(a[1..], b, device);
    }
  }

  lemma {:induction false} EncodedLinesAppend(ports: seq<PortRecord>, p: PortRecord, device: string)
    ensures EncodedLines(ports + [p], device) ==
            EncodedLines(ports, device) + [PortLine(p, device)]
            + seq(|p.channels|, j requires 0 <= j < |p.channels| => ChannelLine(p, device, j))
  {
    if |ports| == 0 {
      assert [p][1..] == [];
      assert ports + [p] == [p];
    } else {
      assert (ports + [p])[1..] == ports[1..] + [p];
      assert (ports + [p])[0] == ports[0];
      EncodedLinesAppend(ports[1..], p, device);
    }
  }

  /** `create_lineprotocol_data`: the lines are appended port by port, each
      port's channel lines after its own line, then joined with line breaks. */
  method CreateLineProtocol(portsData: seq<PortRecord>, deviceName: string) returns (payload: string)
    ensures payload == Join(EncodedLines(portsData, deviceName), "\n")
  {
    var lineData: seq<string> := [];
    var i := 0;
    while i < |portsData|
      invariant 0 <= i <= |portsData|
      invariant lineData == EncodedLines(portsData[..i], deviceName)
    {
      var port := portsData[i];
      lineData := AppendPortLines(lineData, port, deviceName);
      EncodedLinesAppend(portsData[..i], port, deviceName);
      assert portsData[..i + 1] == portsData[..i] + [port];
      i := i + 1;
    }
    assert portsData[..i] == portsData;
    payload := Join(lineData, "\n");
  }

  /** One turn of the encoder's outer loop: the port's line, then one line per
      channel in ascending channel index, appended to the lines so far. */
  method AppendPortLines(lineData: seq<string>, port: PortRecord, deviceName: string) returns (lines: seq<string>)
    ensures lines == lineData + [PortLine(port, deviceName)]
                     + seq(|port.channels|, j requires 0 <= j < |port.channels| => ChannelLine(port, deviceName, j))
  {
    var tags := "device=" + deviceName + ",port=" + port.name;
    var fields := FieldSet(PortFields(port));
    lines := lineData + [PORT_MEASUREMENT + "," + tags + " " + fields];
    var channel := 0;
    while channel < |port.channels|
      invariant 0 <= channel <= |port.channels|
      invariant lines == lineData + [PortLine(port, deviceName)]
                         + seq(channel, j requires 0 <= j < channel => ChannelLine(port, deviceName, j))
    {
      var channelTags := Join([tags, "channel=" + NatToString(channel)], ",");
      var channelFields := FieldSet(ChannelFields(port.channels[channel]));
      lines := lines + [CHANNEL_MEASUREMENT + "," + channelTags + " " + channelFields];
      channel := channel + 1;
    }
  }

  /** The two line shapes, written out: a port line carries temperature and
      voltage when the port has channels, and no field at all otherwise; a
      channel line carries tx-power, rx-power and tx-current. */
  lemma {:induction false} PortLineShape(p: PortRecord, device: string)
    requires WellShaped(p)
    ensures |p.channels| > 0 ==>
              PortLine(p, device) == "optics,device=" + device + ",port=" + p.name
                                     + " temperature=" + p.temperature.value + ",voltage=" + p.voltage.value
    ensures |p.channels| == 0 ==>
              PortLine(p, device) == "optics,device=" + device + ",port=" + p.name + " "
  {
    var head := "optics,device=" + device + ",port=" + p.name;
    assert PORT_MEASUREMENT + "," + PortTags(p, device) == head;
    if |p.channels| > 0 {
      var t, v := p.temperature.value, p.voltage.value;
      assert PortFields(p) == [("temperature", t), ("voltage", v)];
      TwoFieldsText("temperature", t, "voltage", v);
    } else {
      assert PortFields(p) == [];
      assert FieldSet([]) == "";
    }
  }

  lemma {:induction false} TwoFieldsText(k1: string, v1: string, k2: string, v2: string)
    ensures FieldSet([(k1, v1), (k2, v2)]) == k1 + "=" + v1 + "," + (k2 + "=" + v2)
  {
    var fs := [(k1, v1), (k2, v2)];
    var kv := seq(|fs|, i requires 0 <= i < |fs| => fs[i].0 + "=" + fs[i].1);
    assert |kv| == 2 && kv[0] == k1 + "=" + v1 && kv[1] == k2 + "=" + v2;
    assert Join(kv, ",") == kv[0] + "," + kv[1];
  }

  lemma {:induction false} ThreeFieldsText(k1: string, v1: string, k2: string, v2: string, k3: string, v3: string)
    ensures FieldSet([(k1, v1), (k2, v2), (k3, v3)]) == k1 + "=" + v1 + "," + (k2 + "=" + v2 + "," + (k3 + "=" + v3))
  {
    var fs := [(k1, v1), (k2, v2), (k3, v3)];
    var kv := seq(|fs|, i requires 0 <= i < |fs| => fs[i].0 + "=" + fs[i].1);
    assert |kv| == 3 && kv[0] == k1 + "=" + v1 && kv[1] == k2 + "=" + v2 && kv[2] == k3 + "=" + v3;
    assert kv[1..][1..] == [kv[2]];
    assert Join(kv[1..], ",") == kv[1] + "," + kv[2];
    assert Join(kv, ",") == kv[0] + "," + Join(kv[1..], ",");
  }

  lemma {:induction false} ChannelLineShape(p: PortRecord, device: string, j: nat)
    requires j < |p.channels|
    ensures ChannelLine(p, device, j) ==
              "optics_channels,device=" + device + ",port=" + p.name + ",channel=" + NatToString(j)
              + " tx-power=" + p.channels[j].txPower + ",rx-power=" + p.channels[j].rxPower
              + ",tx-current=" + p.channels[j].txCurrent
  {
    var c := p.channels[j];
    var idx := NatToString(j);
    var tags := [PortTags(p, device), "channel=" + idx];
    assert Join(tags, ",") == tags[0] + "," + tags[1];
    var head := "optics_channels,device=" + device + ",port=" + p.name + ",channel=" + idx;
    assert CHANNEL_MEASUREMENT + "," + Join(tags, ",") == head;
    ThreeFieldsText("tx-power", c.txPower, "rx-power", c.rxPower, "tx-current", c.txCurrent);
  }

  /** Values that keep every line on one line: no line break in the device
      name, the port names or the readings. */
  predicate SingleLineValues(ports: seq<PortRecord>, device: string)
  {
    && '\n' !in device
    && forall i :: 0 <= i < |ports| ==> SingleLinePort(ports[i])
  }

  predicate SingleLinePort(p: PortRecord)
  {
    && '\n' !in p.name
    && (p.temperature.Some? ==> '\n' !in p.temperature.value)
    && (p.voltage.Some? ==> '\n' !in p.voltage.value)
    && forall j :: 0 <= j < |p.channels| ==> SingleLineChannel(p.channels[j])
  }

  predicate SingleLineChannel(c: Channel)
  {
    '\n' !in c.txPower && '\n' !in c.rxPower && '\n' !in c.txCurrent
  }

  lemma {:induction false} FieldSetSingleLine(fields: seq<(string, string)>)
    requires forall i :: 0 <= i < |fields| ==> '\n' !in fields[i].0 && '\n' !in fields[i].1
    ensures '\n' !in FieldSet(fields)
  {
    var kv := seq(|fields|, i requires 0 <= i < |fields| => fields[i].0 + "=" + fields[i].1);
    JoinFree(kv, ",", '\n');
  }

  lemma {:induction false} EncodedLinesSingle(ports: seq<PortRecord>, device: string)
    requires SingleLineValues(ports, device)
    ensures forall i :: 0 <= i < |EncodedLines(ports, device)| ==> '\n' !in EncodedLines(ports, device)[i]
  {
    if |ports| > 0 {
      var p := ports[0];
      assert SingleLinePort(p);
      assert SingleLineValues(ports[1..], device) by {
        assert forall i :: 0 <= i < |ports| - 1 ==> ports[1..][i] == ports[i + 1];
      }
      EncodedLinesSingle(ports[1..], device);
      FieldSetSingleLine(PortFields(p));
      forall j | 0 <= j < |p.channels| ensures '\n' !in ChannelLine(p, device, j) {
        ChannelLineSingle(p, device, j);
      }
    }
  }

  lemma {:induction false} ChannelLineSingle(p: PortRecord, device: string, j: nat)
    requires '\n' !in device && SingleLinePort(p) && j < |p.channels|
    ensures '\n' !in ChannelLine(p, device, j)
  {
    assert SingleLineChannel(p.channels[j]);
    FieldSetSingleLine(ChannelFields(p.channels[j]));
    var tags := [PortTags(p, device), "channel=" + NatToString(j)];
    assert '\n' !in NatToString(j) by {
      var s := NatToString(j);
      forall m | 0 <= m < |s| ensures s[m] != '\n' { assert IsDigit(s[m]); }
    }
    JoinFree(tags, ",", '\n');
  }

  /** The payload reads back as its lines: no ports give the empty string;
      otherwise, when no value holds a line break, splitting the payload at its
      line breaks gives exactly the encoded lines, one per port and one per
      channel, with no empty line at the end. */
  lemma {:induction false} PayloadLines(ports: seq<PortRecord>, device: string)
    requires SingleLineValues(ports, device)
    ensures |ports| == 0 ==> Join(EncodedLines(ports, device), "\n") == ""
    ensures |ports| > 0 ==>
              Split(Join(EncodedLines(ports, device), "\n"), '\n') == EncodedLines(ports, device)
  {
    if |ports| > 0 {
      EncodedLinesSingle(ports, device);
      SplitJoin(EncodedLines(ports, device), '\n');
    }
  }

  /** A port `1:3` of device `sw01` with one channel. */
  lemma {:induction false} EncodeExample()
    ensures Join(EncodedLines([PortRecord("1:3", Some("35.0"), Some("3.3"), [Channel("1.0", "-2.0", "5.0")])], "sw01"), "\n")
            == "optics,device=sw01,port=1:3 temperature=35.0,voltage=3.3\n"
               + ("optics_channels,device=sw01,port=1:3,channel=0" + " tx-power=1.0,rx-power=-2.0,tx-current=5.0")
  {
    var p := PortRecord("1:3", Some("35.0"), Some("3.3"), [Channel("1.0", "-2.0", "5.0")]);
    var lines := EncodedLines([p], "sw01");
    assert [p][1..] == [];
    assert lines == [PortLine(p, "sw01"), ChannelLine(p, "sw01", 0)];
    ExamplePortLine(p);
    ExampleChannelLine(p);
    assert Join(lines, "\n") == lines[0] + "\n" + lines[1];
  }

  lemma {:induction false} ExamplePortLine(p: PortRecord)
    requires p == PortRecord("1:3", Some("35.0"), Some("3.3"), [Channel("1.0", "-2.0", "5.0")])
    ensures PortLine(p, "sw01") == "optics,device=sw01,port=1:3 temperature=35.0,voltage=3.3"
  {
    PortLineShape(p, "sw01");
    var s := "optics,device=" + "sw01";
    assert s == "optics,device=sw01";
    assert s + ",port=" == "optics,device=sw01,port=";
    assert s + ",port=" + "1:3" == "optics,device=sw01,port=1:3";
    assert s + ",port=" + "1:3" + " temperature=" == "optics,device=sw01,port=1:3 temperature=";
    assert s + ",port=" + "1:3" + " temperature=" + "35.0" == "optics,device=sw01,port=1:3 temperature=35.0";
    assert s + ",port=" + "1:3" + " temperature=" + "35.0" + ",voltage="
           == "optics,device=sw01,port=1:3 temperature=35.0,voltage=";
  }

  lemma {:induction false} ExampleChannelLine(p: PortRecord)
    requires p == PortRecord("1:3", Some("35.0"), Some("3.3"), [Channel("1.0", "-2.0", "5.0")])
    ensures ChannelLine(p, "sw01", 0)
            == "optics_channels,device=sw01,port=1:3,channel=0" + " tx-power=1.0,rx-power=-2.0,tx-current=5.0"
  {
    ChannelLineShape(p, "sw01", 0);
    assert NatToString(0) == "0";
    ExampleChannelHead();
    ExampleChannelFields();
    Regroup("optics_channels,device=" + "sw01" + ",port=" + "1:3" + ",channel=" + "0",
            " tx-power=", "1.0", ",rx-power=", "-2.0", ",tx-current=", "5.0");
  }

  lemma {:induction false} ExampleChannelHead()
    ensures "optics_channels,device=" + "sw01" + ",port=" + "1:3" + ",channel=" + "0"
            == "optics_channels,device=sw01,port=1:3,channel=0"
  {
    var s := "optics_channels,device=" + "sw01";
    assert s == "optics_channels,device=sw01";
    assert s + ",port=" + "1:3" == "optics_channels,device=sw01,port=1:3";
  }

  lemma {:induction false} ExampleChannelFields()
    ensures " tx-power=" + "1.0" + ",rx-power=" + "-2.0" + ",tx-current=" + "5.0"
            == " tx-power=1.0,rx-power=-2.0,tx-current=5.0"
  {
    assert " tx-power=" + "1.0" + ",rx-power=" == " tx-power=1.0,rx-power=";
    assert " tx-power=1.0,rx-power=" + "-2.0" + ",tx-current=" == " tx-power=1.0,rx-power=-2.0,tx-current=";
  }

  lemma {:induction false} Regroup(h: string, a: string, b: string, c: string, d: string, e: string, f: string)
    ensures h + a + b + c + d + e + f == h + (a + b + c + d + e + f)
  {
  }
}
