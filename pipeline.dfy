/** The script's main flow: read the ports, and only when the reader returned
    some, sanitize them and encode them as the line-protocol payload that is
    posted. The post itself and the command-line parsing are not modelled;
    the device name arrives as a parameter. */
module Pipeline {
  import opened Strings
  import opened Optics
  import opened Reader
  import opened Sanitizer
  import opened LineProtocol

  /** What one run ends with. */
  datatype Outcome =
    | Crashed(error: ReadError)   // the reader raised: nothing is sanitized or posted
    | NothingToSend               // the reader returned no ports: nothing is posted
    | Posted(payload: string)     // the payload handed to the post

  /** The outcome of a run on a fragment stream. Something is posted exactly
      when the reader succeeds with at least one port; the run crashes exactly
      when the reader does. */
  function RunOutcome(frags: seq<Fragment>, device: string): (o: Outcome)
    ensures o.Crashed? <==> Group(frags).Failure?
    ensures o.NothingToSend? <==> Group(frags) == Success([])
    ensures o.Posted? <==> Group(frags).Success? && |Group(frags).value| > 0
  {
    match Group(frags)
    case Failure(e) => Crashed(e)
    case Success(ports) =>
      if |ports| == 0 then NothingToSend
      else Posted(Join(EncodedLines(SanitizePorts(ports), device), "\n"))
  }

  /** One run: read, then, when there is data, fix the sentinels in place and encode. */
  method Run(frags: seq<Fragment>, device: string) returns (o: Outcome)
    ensures o == RunOutcome(frags, device)
  {
    var data := ReadPorts(frags);
    if data.Failure? {
      return Crashed(data.error);
    }
    var ports := data.value;
    if |ports| == 0 {
      return NothingToSend;
    }
    var arr := new PortRecord[|ports|](i requires 0 <= i < |ports| => ports[i]);
    assert arr[..] == ports;
    var fixedData := FixInfValues(arr);
    var lineData := CreateLineProtocol(fixedData[..], device);
    o := Posted(lineData);
  }

  /** A fragment whose texts hold no line break. */
  predicate SingleLineFragment(f: Fragment)
  {
    && '\n' !in f.port && '\n' !in f.temp && '\n' !in f.voltageAux1
    && '\n' !in f.txPower && '\n' !in f.rxPower && '\n' !in f.txBiasCurrent
  }

  /** Records read from line-free fragments hold no line break either. */
  lemma {:induction false} GroupSingleLine(frags: seq<Fragment>, device: string)
    requires '\n' !in device
    requires forall i :: 0 <= i < |frags| ==> SingleLineFragment(frags[i])
    requires Group(frags).Success?
    ensures SingleLineValues(Group(frags).value, device)
    decreases |frags|
  {
    if |frags| > 0 {
      if !IsValidOptic(frags[0]) {
        GroupAtSkip(frags);
        assert forall i :: 0 <= i < |frags| - 1 ==> frags[1..][i] == frags[i + 1];
        GroupSingleLine(frags[1..], device);
      } else {
        var w := Width(frags[0]);
        var rest := frags[w..];
        GroupAtPort(frags);
        assert forall i :: 0 <= i < |rest| ==> rest[i] == frags[i + w];
        GroupSingleLine(rest, device);
        PortSingleLine(frags[..w]);
        var p := PortOf(frags[..w]);
        var tail := Group(rest).value;
        assert Group(frags).value == [p] + tail;
        assert forall i :: 1 <= i < |tail| + 1 ==> ([p] + tail)[i] == tail[i - 1];
      }
    }
  }

  /** A record built from line-free fragments holds no line break. */
  lemma {:induction false} PortSingleLine(block: seq<Fragment>)
    requires |block| > 0 && |block| == Width(block[0])
    requires forall i :: 0 <= i < |block| ==> SingleLineFragment(block[i])
    ensures SingleLinePort(PortOf(block))
  {
    var p := PortOf(block);
    assert SingleLineFragment(block[0]);
    forall j | 0 <= j < |p.channels| ensures SingleLineChannel(p.channels[j]) {
      assert SingleLineFragment(block[j]);
    }
    if p.name != block[0].port {
      assert p.name == "1:" + block[0].port;
      assert forall k :: 2 <= k < |p.name| ==> p.name[k] == block[0].port[k - 2];
    }
  }

  /** Totals depend only on how many channels each port has. */
  lemma {:induction false} TotalChannelsSameShape(a: seq<PortRecord>, b: seq<PortRecord>)
    requires |a| == |b|
    requires forall i :: 0 <= i < |a| ==> |a[i].channels| == |b[i].channels|
    ensures TotalChannels(a) == TotalChannels(b)
  {
    if |a| > 0 {
      TotalChannelsSameShape(a[1..], b[1..]);
    }
  }

  /** Sanitizing puts no line break into a record: the floor values have none. */
  lemma {:induction false} SanitizeSingleLine(ports: seq<PortRecord>, device: string)
    requires SingleLineValues(ports, device)
    ensures SingleLineValues(SanitizePorts(ports), device)
  {
    var r := SanitizePorts(ports);
    forall i | 0 <= i < |r| ensures SingleLinePort(r[i]) {
      assert SingleLinePort(ports[i]);
      forall j | 0 <= j < |r[i].channels| ensures SingleLineChannel(r[i].channels[j]) {
        assert SingleLineChannel(ports[i].channels[j]);
      }
    }
  }

  /** The posted payload, read back line by line, is the encoding of the
      sanitized records: one line per port read and one per channel read. */
  lemma {:induction false} PostedLines(frags: seq<Fragment>, device: string)
    requires '\n' !in device
    requires forall i :: 0 <= i < |frags| ==> SingleLineFragment(frags[i])
    requires RunOutcome(frags, device).Posted?
    ensures Split(RunOutcome(frags, device).payload, '\n')
            == EncodedLines(SanitizePorts(Group(frags).value), device)
    ensures |Split(RunOutcome(frags, device).payload, '\n')|
            == |Group(frags).value| + TotalChannels(Group(frags).value)
  {
    var ports := Group(frags).value;
    GroupSingleLine(frags, device);
    SanitizeSingleLine(ports, device);
    PayloadLines(SanitizePorts(ports), device);
    TotalChannelsSameShape(SanitizePorts(ports), ports);
  }
}
