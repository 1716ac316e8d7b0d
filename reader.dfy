/** The transceiver data reader (`get_optics_data`, after the CLI call): the
    split of the raw reply into per-fragment documents, the validity test that
    decides whether a fragment starts a port, the normalisation of port names to
    `stack:port` form, and the walk that groups the flat fragment stream into
    port records, each port pulling its further channels off the same cursor. */
module Reader {
  import opened Strings
  import opened Optics

  const REPLY_BOUNDARY := "</reply><reply>"
  const REPLY_BOUNDARY_BROKEN := "</reply>\n<reply>"

  /** The reply's documents, one per line, after a line break is put between
      every `</reply><reply>`: no piece holds a line break, and the pieces put
      back together give the reply minus its line breaks. */
  function SplitReplies(reply: string): (pieces: seq<string>)
    ensures |pieces| >= 1
    ensures forall i :: 0 <= i < |pieces| ==> '\n' !in pieces[i]
    ensures Concat(pieces) == RemoveAll(reply, '\n')
  {
    var broken := Replace(reply, REPLY_BOUNDARY, REPLY_BOUNDARY_BROKEN);
    BoundaryDiffersByLineBreak();
    ReplaceOnlyInserts(reply, REPLY_BOUNDARY, REPLY_BOUNDARY_BROKEN, '\n');
    SplitPiecesFree(broken, '\n');
    JoinSplit(broken, '\n');
    RemoveAllJoin(Split(broken, '\n'), '\n');
    Split(broken, '\n')
  }

  lemma {:induction false} BoundaryDiffersByLineBreak()
    ensures RemoveAll(REPLY_BOUNDARY_BROKEN, '\n') == RemoveAll(REPLY_BOUNDARY, '\n')
  {
    assert REPLY_BOUNDARY_BROKEN == "</reply>" + "\n" + "<reply>";
    assert REPLY_BOUNDARY == "</reply>" + "<reply>";
    RemoveAllAppend("</reply>" + "\n", "<reply>", '\n');
    RemoveAllAppend("</reply>", "\n", '\n');
    RemoveAllAppend("</reply>", "<reply>", '\n');
  }

  const REPLY_OPEN := "<reply>"
  const REPLY_CLOSE := "</reply>"

  /** One XML document of the reply: `<reply>…</reply>` on one line, with no
      `</reply><reply>` inside it. */
  predicate IsReplyDocument(d: string)
  {
    && |d| >= |REPLY_BOUNDARY|
    && d[..|REPLY_OPEN|] == REPLY_OPEN
    && d[|d| - |REPLY_CLOSE|..] == REPLY_CLOSE
    && '\n' !in d
    && forall p :: 0 <= p < |d| ==> !MatchAt(d, REPLY_BOUNDARY, p)
  }

  /** The split cuts a reply of several documents, sent back to back, exactly
      at each `</reply><reply>`: it gives back the documents, in order. */
  lemma {:induction false} SplitRepliesDocuments(docs: seq<string>)
    requires |docs| > 0
    requires forall i :: 0 <= i < |docs| ==> IsReplyDocument(docs[i])
    ensures SplitReplies(Concat(docs)) == docs
  {
    ReplaceDocuments(docs);
    SplitJoin(docs, '\n');
  }

  /** Putting a line break into every boundary of back-to-back documents gives
      the documents joined by line breaks. */
  lemma {:induction false} ReplaceDocuments(docs: seq<string>)
    requires |docs| > 0
    requires forall i :: 0 <= i < |docs| ==> IsReplyDocument(docs[i])
    ensures Replace(Concat(docs), REPLY_BOUNDARY, REPLY_BOUNDARY_BROKEN) == Join(docs, "\n")
  {
    var d := docs[0];
    assert IsReplyDocument(d);
    if |docs| == 1 {
      assert Concat(docs) == d + "" == d;
      ReplaceOneDocument(d);
    } else {
      var tail := docs[1..];
      forall i | 0 <= i < |tail| ensures IsReplyDocument(tail[i]) {
        assert tail[i] == docs[i + 1];
      }
      ReplaceDocuments(tail);
      var v := DocumentsOpen(tail);
      assert Concat(docs) == d + (REPLY_OPEN + v);
      ReplaceDocumentThen(d, v);
    }
  }

  /** A single document holds no boundary, so the replacement leaves it alone. */
  lemma {:induction false} ReplaceOneDocument(d: string)
    requires IsReplyDocument(d)
    ensures Replace(d, REPLY_BOUNDARY, REPLY_BOUNDARY_BROKEN) == d
  {
    assert d + "" == d;
    ReplaceSkipsPrefix(d, "", REPLY_BOUNDARY, REPLY_BOUNDARY_BROKEN);
  }

  /** A document followed by another: a line break goes in between, and the
      scan resumes at the start of the second. */
  lemma {:induction false} ReplaceDocumentThen(d: string, v: string)
    requires IsReplyDocument(d)
    ensures Replace(d + (REPLY_OPEN + v), REPLY_BOUNDARY, REPLY_BOUNDARY_BROKEN)
            == d + "\n" + Replace(REPLY_OPEN + v, REPLY_BOUNDARY, REPLY_BOUNDARY_BROKEN)
  {
    var u := d[..|d| - |REPLY_CLOSE|];
    assert d == u + REPLY_CLOSE;
    assert REPLY_CLOSE + REPLY_OPEN == REPLY_BOUNDARY;
    assert d + (REPLY_OPEN + v) == u + (REPLY_BOUNDARY + v);
    BoundaryNotBefore(d, u, v);
    ReplaceSkipsPrefix(u, REPLY_BOUNDARY + v, REPLY_BOUNDARY, REPLY_BOUNDARY_BROKEN);
    ReplaceAtMatch(v, REPLY_BOUNDARY, REPLY_BOUNDARY_BROKEN);
    OpenNotBoundary(v);
    ReplaceSkipsPrefix(REPLY_OPEN, v, REPLY_BOUNDARY, REPLY_BOUNDARY_BROKEN);
    assert REPLY_BOUNDARY_BROKEN == REPLY_CLOSE + "\n" + REPLY_OPEN;
    var rv := Replace(v, REPLY_BOUNDARY, REPLY_BOUNDARY_BROKEN);
    assert u + (REPLY_CLOSE + "\n" + REPLY_OPEN + rv) == d + "\n" + (REPLY_OPEN + rv);
  }

  /** Back-to-back documents start with `<reply>`; `v` is what follows it. */
  lemma {:induction false} DocumentsOpen(docs: seq<string>) returns (v: string)
    requires |docs| > 0
    requires IsReplyDocument(docs[0])
    ensures Concat(docs) == REPLY_OPEN + v
  {
    var d := docs[0];
    assert d == REPLY_OPEN + d[|REPLY_OPEN|..];
    v := d[|REPLY_OPEN|..] + Concat(docs[1..]);
  }

  /** In a document `u + "</reply>"` followed by another one, no boundary
      starts inside `u`. */
  lemma {:induction false} BoundaryNotBefore(d: string, u: string, v: string)
    requires IsReplyDocument(d) && d == u + REPLY_CLOSE
    ensures forall p :: 0 <= p < |u| ==> !MatchAt(u + (REPLY_BOUNDARY + v), REPLY_BOUNDARY, p)
  {
    var s := u + (REPLY_BOUNDARY + v);
    assert s == d + (REPLY_OPEN + v);
    forall p | 0 <= p < |u| ensures !MatchAt(s, REPLY_BOUNDARY, p) {
      if p + |REPLY_BOUNDARY| <= |d| {
        assert !MatchAt(d, REPLY_BOUNDARY, p);
        assert s[p..p + |REPLY_BOUNDARY|] == d[p..p + |REPLY_BOUNDARY|];
      } else if p + |REPLY_BOUNDARY| <= |s| {
        var m := |d| - p;
        assert 9 <= m < 15;
        assert s[p..p + |REPLY_BOUNDARY|][m] == s[|d|] == '<';
        assert REPLY_BOUNDARY[m] != '<';
      }
    }
  }

  /** No boundary starts inside a leading `<reply>`. */
  lemma {:induction false} OpenNotBoundary(v: string)
    ensures forall p :: 0 <= p < |REPLY_OPEN| ==> !MatchAt(REPLY_OPEN + v, REPLY_BOUNDARY, p)
  {
    var s := REPLY_OPEN + v;
    forall p | 0 <= p < |REPLY_OPEN| ensures !MatchAt(s, REPLY_BOUNDARY, p) {
      if p + |REPLY_BOUNDARY| <= |s| {
        if p == 0 {
          assert s[p..p + |REPLY_BOUNDARY|][1] == 'r';
        } else {
          assert s[p..p + |REPLY_BOUNDARY|][0] == REPLY_OPEN[p] != '<';
        }
      }
    }
  }

  /** A fragment describes an installed, readable optic: it has children, no
      `portErrorString`, and `partNumberIsValid` is `"1"`. */
  predicate IsValidOptic(f: Fragment)
  {
    f.nonEmpty && !f.hasErrorString && f.partNumberIsValid == "1"
  }

  /** `digits ':' digits` */
  predicate DigitsColonDigits(s: string)
  {
    exists k | 0 <= k < |s| :: s[k] == ':' && IsDigits(s[..k]) && IsDigits(s[k + 1..])
  }

  /** `re.match('^\d+:\d+$', name)`; Python's `$` also matches just before a
      final line break, so `"1:3\n"` matches too. */
  predicate IsStackPortName(name: string)
  {
    || DigitsColonDigits(name)
    || (|name| > 0 && name[|name| - 1] == '\n' && DigitsColonDigits(name[..|name| - 1]))
  }

  /** The port name in `stack:port` form: a name already of that form is kept,
      any other gets the stack prefix `"1:"`; a bare port number thus becomes a
      `stack:port` name of stack 1. */
  function NormalizePortName(name: string): (r: string)
    ensures IsStackPortName(name) ==> r == name
    ensures !IsStackPortName(name) ==> r == "1:" + name
    ensures IsDigits(name) ==> r == "1:" + name && IsStackPortName(r)
  {
    assert IsDigits(name) ==> !IsStackPortName(name) && IsStackPortName("1:" + name) by {
      if IsDigits(name) {
        NormalizeDigitsNeverStacked(name);
        PrefixedDigitsStacked(name);
      }
    }
    if IsStackPortName(name) then name else "1:" + name
  }

  lemma {:induction false} PrefixedDigitsStacked(name: string)
    requires IsDigits(name)
    ensures IsStackPortName("1:" + name)
  {
    var r := "1:" + name;
    assert r[1] == ':' && r[..1] == "1" && r[2..] == name;
    assert IsDigits(r[..1]);
  }

  lemma {:induction false} NormalizeDigitsNeverStacked(name: string)
    requires IsDigits(name)
    ensures !IsStackPortName(name)
  {
    forall k | 0 <= k < |name| ensures name[k] != ':' {
      assert IsDigit(name[k]);
    }
    assert IsDigit(name[|name| - 1]);
  }

  /** The number of fragments a valid start fragment consumes: itself and
      `numChannels - 1` more, and just itself when `numChannels < 1`. */
  function Width(f: Fragment): (w: nat)
    ensures w >= 1
  {
    if f.numChannels >= 1 then f.numChannels else 1
  }

  /** The record built from one port's fragments: the start fragment and the
      channel fragments that follow it, which are read without checking them. */
  function PortOf(block: seq<Fragment>): (p: PortRecord)
    requires |block| > 0 && |block| == Width(block[0])
    ensures WellShaped(p)
    ensures p.name == NormalizePortName(block[0].port)
    ensures |p.channels| == 0 <==> block[0].numChannels < 1
    ensures |p.channels| > 0 ==> |p.channels| == |block|
    ensures forall j :: 0 <= j < |p.channels| ==> p.channels[j] == ChannelOf(block[j])
    ensures p.temperature == (if |p.channels| > 0 then Some(block[0].temp) else None)
    ensures p.voltage == (if |p.channels| > 0 then Some(block[0].voltageAux1) else None)
  {
    var start := block[0];
    var n := start.numChannels;
    PortRecord(
      NormalizePortName(start.port),
      if n >= 1 then Some(start.temp) else None,
      if n >= 1 then Some(start.voltageAux1) else None,
      if n >= 1 then seq(n, j requires 0 <= j < n => ChannelOf(block[j])) else [])
  }

  /** The fragments a record accounts for: one per channel, and one when it has none. */
  function Footprint(p: PortRecord): (n: nat)
    ensures n >= 1
  {
    if |p.channels| > 0 then |p.channels| else 1
  }

  function Consumed(ports: seq<PortRecord>): nat
  {
    if |ports| == 0 then 0 else Footprint(ports[0]) + Consumed(ports[1..])
  }

  /** `ports` followed by the records of `r`, or `r`'s failure. */
  function Prepend(ports: seq<PortRecord>, r: Result<seq<PortRecord>>): Result<seq<PortRecord>>
  {
    match r
    case Success(rest) => Success(ports + rest)
    case Failure(e) => Failure(e)
  }

  /** What the reader returns for a fragment stream: fragments reached by the
      walk that are not valid optics are skipped; a valid one starts a port and
      takes `numChannels - 1` further fragments as its channels; a stream that
      ends inside a port is a failure, with no partial result. */
  function Group(frags: seq<Fragment>): (r: Result<seq<PortRecord>>)
    ensures r.Success? ==> Consumed(r.value) <= |frags|
    ensures r.Success? ==> forall i :: 0 <= i < |r.value| ==> WellShaped(r.value[i])
    decreases |frags|
  {
    if |frags| == 0 then Success([])
    else if !IsValidOptic(frags[0]) then Group(frags[1..])
    else if |frags| < Width(frags[0]) then Failure(StreamExhausted)
    else
      var w := Width(frags[0]);
      var p := PortOf(frags[..w]);
      var rest := Group(frags[w..]);
      if rest.Success? then
        assert ([p] + rest.value)[1..] == rest.value;
        Success([p] + rest.value)
      else Failure(rest.error)
  }

  /** `Group` at a fragment that starts a port and has its channels in the stream. */
  lemma {:induction false} GroupAtPort(s: seq<Fragment>)
    requires |s| > 0 && IsValidOptic(s[0]) && |s| >= Width(s[0])
    ensures Group(s) == Prepend([PortOf(s[..Width(s[0])])], Group(s[Width(s[0])..]))
  {
  }

  /** `Group` at a fragment that does not start a port. */
  lemma {:induction false} GroupAtSkip(s: seq<Fragment>)
    requires |s| > 0 && !IsValidOptic(s[0])
    ensures Group(s) == Group(s[1..])
  {
  }

  /** Fragments that fail the validity test in front of a stream change
      nothing: the reader drops them, and a stream of such fragments alone
      gives no ports. */
  lemma {:induction false} SkipInvalidPrefix(junk: seq<Fragment>, s: seq<Fragment>)
    requires forall i :: 0 <= i < |junk| ==> !IsValidOptic(junk[i])
    ensures Group(junk + s) == Group(s)
    ensures Group(junk) == Success([])
    decreases |junk|
  {
    if |junk| > 0 {
      assert (junk + s)[0] == junk[0];
      assert (junk + s)[1..] == junk[1..] + s;
      SkipInvalidPrefix(junk[1..], s);
      SkipInvalidPrefix(junk[1..], []);
      assert junk[1..] + [] == junk[1..];
    } else {
      assert junk + s == s;
    }
  }

  lemma {:induction false} PrependNothing(r: Result<seq<PortRecord>>)
    ensures Prepend([], r) == r
  {
    if r.Success? {
      assert [] + r.value == r.value;
    }
  }

  lemma {:induction false} PrependAssociative(a: seq<PortRecord>, b: seq<PortRecord>, r: Result<seq<PortRecord>>)
    ensures Prepend(a, Prepend(b, r)) == Prepend(a + b, r)
  {
    if r.Success? {
      assert a + (b + r.value) == (a + b) + r.value;
    }
  }

  /** The fragment walk of `get_optics_data`: an index into the stream plays
      the iterator, and reading a port's channels advances the same index. */
  method ReadPorts(frags: seq<Fragment>) returns (r: Result<seq<PortRecord>>)
    ensures r == Group(frags)
  {
    var portsData: seq<PortRecord> := [];
    var i := 0;
    assert frags[i..] == frags;
    PrependNothing(Group(frags));
    while i < |frags|
      invariant 0 <= i <= |frags|
      invariant Group(frags) == Prepend(portsData, Group(frags[i..]))
    {
      var start := i;
      var port := frags[i];
      if IsValidOptic(port) {
        var data, next := ReadPort(frags, start);
        if data.None? {
          StreamEndsInsidePort(frags, start, portsData);
          return Failure(StreamExhausted);
        }
        i := next;
        PortStep(frags, start, i, portsData, data.value);
        portsData := portsData + [data.value];
      } else {
        i := i + 1;
        assert frags[start..][1..] == frags[i..];
        GroupAtSkip(frags[start..]);
      }
    }
    assert frags[i..] == [];
    assert portsData + [] == portsData;
    r := Success(portsData);
  }

  /** The body of the walk for a valid optic at `start`: the name, then the
      channel loop, which reads channel 0 from the start fragment and pulls
      each further channel from the stream; `None` when the stream ends
      before the last channel. On success, `next` is the index just past the
      port's fragments. */
  method ReadPort(frags: seq<Fragment>, start: nat) returns (data: Option<PortRecord>, next: nat)
    requires start < |frags|
    ensures data.None? <==> |frags| - start < Width(frags[start])
    ensures data.Some? ==> next == start + Width(frags[start]) <= |frags|
    ensures data.Some? ==> data.value == PortOf(frags[start..next])
  {
    var port := frags[start];
    var i := start + 1;
    var name := NormalizePortName(port.port);
    var channels: seq<Channel> := [];
    var temperature: Option<string> := None;
    var voltage: Option<string> := None;
    var numChannels := port.numChannels;
    var currChan := port;
    var chan := 0;
    while chan < numChannels
      invariant 0 <= chan && start < i <= |frags|
      invariant numChannels < 1 ==> chan == 0 && i == start + 1
      invariant numChannels >= 1 ==> chan <= numChannels
      invariant chan < numChannels ==> i == start + chan + 1 && currChan == frags[i - 1]
      invariant 1 <= chan == numChannels ==> i == start + numChannels
      invariant |channels| == chan
      invariant forall j :: 0 <= j < chan ==> channels[j] == ChannelOf(frags[start + j])
      invariant temperature == (if chan > 0 then Some(port.temp) else None)
      invariant voltage == (if chan > 0 then Some(port.voltageAux1) else None)
    {
      if chan == 0 {
        // temperature and voltage are only read from the top-level channel
        temperature := Some(currChan.temp);
        voltage := Some(currChan.voltageAux1);
      }
      channels := channels + [ChannelOf(currChan)];
      if chan + 1 != numChannels {
        if i == |frags| {
          // the iterator is exhausted inside a port
          return None, i;
        }
        currChan := frags[i];
        i := i + 1;
      }
      chan := chan + 1;
    }
    var block := frags[start..i];
    assert block[0] == port;
    assert forall j :: 0 <= j < |channels| ==> block[j] == frags[start + j];
    data := Some(PortRecord(name, temperature, voltage, channels));
    BlockRecord(block, data.value);
    next := i;
  }

  lemma {:induction false} StreamEndsInsidePort(frags: seq<Fragment>, start: nat, portsData: seq<PortRecord>)
    requires start < |frags| && IsValidOptic(frags[start])
    requires |frags| - start < Width(frags[start])
    requires Group(frags) == Prepend(portsData, Group(frags[start..]))
    ensures Group(frags) == Failure(StreamExhausted)
  {
    assert frags[start..][0] == frags[start];
  }

  lemma {:induction false} PortStep(frags: seq<Fragment>, start: nat, i: nat, portsData: seq<PortRecord>, data: PortRecord)
    requires start < |frags| && IsValidOptic(frags[start])
    requires i == start + Width(frags[start]) <= |frags|
    requires Group(frags) == Prepend(portsData, Group(frags[start..]))
    requires data == PortOf(frags[start..i])
    ensures Group(frags) == Prepend(portsData + [data], Group(frags[i..]))
  {
    var s := frags[start..];
    var w := Width(frags[start]);
    assert s[0] == frags[start];
    assert s[..w] == frags[start..i];
    assert s[w..] == frags[i..];
    GroupAtPort(s);
    PrependAssociative(portsData, [data], Group(frags[i..]));
  }

  lemma {:induction false} BlockRecord(block: seq<Fragment>, data: PortRecord)
    requires |block| > 0 && |block| == Width(block[0])
    requires data.name == NormalizePortName(block[0].port)
    requires |data.channels| == (if block[0].numChannels < 1 then 0 else block[0].numChannels)
    requires forall j :: 0 <= j < |data.channels| ==> data.channels[j] == ChannelOf(block[j])
    requires data.temperature == (if |data.channels| > 0 then Some(block[0].temp) else None)
    requires data.voltage == (if |data.channels| > 0 then Some(block[0].voltageAux1) else None)
    ensures PortOf(block) == data
  {
    var p := PortOf(block);
    assert p.channels == data.channels;
  }

  // ---------------------------------------------------------------------
  // The walk as two passes: cut the stream into segments, then build one
  // record per port segment.

  /** A piece of the fragment stream: a fragment the walk skips, or the
      contiguous fragments of one port. */
  datatype Segment = Skipped(fragment: Fragment) | Port(block: seq<Fragment>)

  predicate WellFormed(s: Segment)
  {
    match s
    case Skipped(f) => !IsValidOptic(f)
    case Port(b) => |b| > 0 && IsValidOptic(b[0]) && |b| == Width(b[0])
  }

  predicate AllWellFormed(segs: seq<Segment>)
  {
    |segs| == 0 || (WellFormed(segs[0]) && AllWellFormed(segs[1..]))
  }

  function Fragments(s: Segment): seq<Fragment>
  {
    match s
    case Skipped(f) => [f]
    case Port(b) => b
  }

  function Flatten(segs: seq<Segment>): seq<Fragment>
  {
    if |segs| == 0 then [] else Fragments(segs[0]) + Flatten(segs[1..])
  }

  /** The records a segment contributes: none for a skipped fragment, one for a port. */
  function Records(s: Segment): seq<PortRecord>
    requires WellFormed(s)
  {
    match s
    case Skipped(_) => []
    case Port(b) => [PortOf(b)]
  }

  function Materialize(segs: seq<Segment>): seq<PortRecord>
    requires AllWellFormed(segs)
  {
    if |segs| == 0 then [] else Records(segs[0]) + Materialize(segs[1..])
  }

  function SkippedCount(segs: seq<Segment>): nat
  {
    if |segs| == 0 then 0 else (if segs[0].Skipped? then 1 else 0) + SkippedCount(segs[1..])
  }

  /** A stream that ends inside a port: a valid start with fewer fragments
      than it consumes. */
  predicate Truncated(tail: seq<Fragment>)
  {
    |tail| > 0 && IsValidOptic(tail[0]) && |tail| < Width(tail[0])
  }

  /** Reading a stream cut into well-formed segments yields one record per port
      segment, in stream order, followed by what the rest of the stream yields. */
  lemma {:induction false} GroupFlatten(segs: seq<Segment>, tail: seq<Fragment>)
    requires AllWellFormed(segs)
    ensures Group(Flatten(segs) + tail) == Prepend(Materialize(segs), Group(tail))
  {
    if |segs| == 0 {
      assert Flatten(segs) + tail == tail;
      PrependNothing(Group(tail));
    } else {
      GroupFlatten(segs[1..], tail);
      var rest := Flatten(segs[1..]) + tail;
      assert Flatten(segs) + tail == Fragments(segs[0]) + rest;
      GroupSegment(segs[0], rest);
      PrependAssociative(Records(segs[0]), Materialize(segs[1..]), Group(tail));
    }
  }

  /** Reading past one well-formed segment. */
  lemma {:induction false} GroupSegment(seg: Segment, rest: seq<Fragment>)
    requires WellFormed(seg)
    ensures Group(Fragments(seg) + rest) == Prepend(Records(seg), Group(rest))
  {
    var s := Fragments(seg) + rest;
    match seg
    case Skipped(f) =>
      assert s[1..] == rest;
      GroupAtSkip(s);
      PrependNothing(Group(rest));
    case Port(b) =>
      assert s[..|b|] == b && s[|b|..] == rest && s[0] == b[0];
      GroupAtPort(s);
  }

  /** `frags` is the fragments of the well-formed `segs` followed by `tail`,
      which is empty or a truncated port. */
  predicate CutInto(frags: seq<Fragment>, segs: seq<Segment>, tail: seq<Fragment>)
  {
    AllWellFormed(segs) && frags == Flatten(segs) + tail && (tail == [] || Truncated(tail))
  }

  /** Every stream can be cut into well-formed segments, followed by nothing
      or by a truncated port. */
  lemma {:induction false} SegmentationExists(frags: seq<Fragment>)
    ensures exists segs, tail :: CutInto(frags, segs, tail)
    decreases |frags|
  {
    if |frags| == 0 {
      assert CutInto(frags, [], []);
    } else if IsValidOptic(frags[0]) && |frags| < Width(frags[0]) {
      var none: seq<Segment> := [];
      assert Flatten(none) + frags == frags;
      assert CutInto(frags, none, frags);
    } else {
      var seg := if IsValidOptic(frags[0]) then Port(frags[..Width(frags[0])]) else Skipped(frags[0]);
      var rest := frags[|Fragments(seg)|..];
      assert WellFormed(seg) && frags == Fragments(seg) + rest;
      SegmentationExists(rest);
      var segs, tail :| CutInto(rest, segs, tail);
      CutCons(frags, seg, rest, segs, tail);
    }
  }

  lemma {:induction false} CutCons(frags: seq<Fragment>, seg: Segment, rest: seq<Fragment>, segs: seq<Segment>, tail: seq<Fragment>)
    requires WellFormed(seg) && frags == Fragments(seg) + rest
    requires CutInto(rest, segs, tail)
    ensures CutInto(frags, [seg] + segs, tail)
  {
    var all := [seg] + segs;
    assert all[1..] == segs && all[0] == seg;
    assert Flatten(all) == Fragments(seg) + Flatten(segs);
  }

  /** The reader succeeds with `ports` exactly when the stream cuts into
      well-formed segments whose port segments build `ports`. */
  lemma {:induction false} GroupSucceedsIffSegmented(frags: seq<Fragment>, ports: seq<PortRecord>)
    ensures Group(frags) == Success(ports) <==>
            exists segs :: AllWellFormed(segs) && Flatten(segs) == frags && Materialize(segs) == ports
  {
    forall segs | AllWellFormed(segs) && Flatten(segs) == frags && Materialize(segs) == ports
      ensures Group(frags) == Success(ports)
    {
      GroupFlatten(segs, []);
      assert Flatten(segs) + [] == frags;
      assert Group([]) == Success([]);
      assert ports + [] == ports;
    }
    if Group(frags) == Success(ports) {
      SegmentationExists(frags);
      var segs, tail :| CutInto(frags, segs, tail);
      GroupFlatten(segs, tail);
      assert tail == [];
      assert Flatten(segs) == frags;
      assert Materialize(segs) + [] == Materialize(segs);
    }
  }

  /** The reader fails exactly when the stream ends inside a port. */
  lemma {:induction false} GroupFailsIffTruncated(frags: seq<Fragment>)
    ensures Group(frags).Failure? <==>
            exists segs, tail :: AllWellFormed(segs) && Truncated(tail) && frags == Flatten(segs) + tail
  {
    forall segs, tail | AllWellFormed(segs) && Truncated(tail) && frags == Flatten(segs) + tail
      ensures Group(frags).Failure?
    {
      GroupFlatten(segs, tail);
    }
    SegmentationExists(frags);
    var segs, tail :| CutInto(frags, segs, tail);
    GroupFlatten(segs, tail);
    assert Group([]) == Success([]);
  }

  /** Fragment accounting: every fragment of a segmented stream is skipped or
      belongs to exactly one record, which accounts for one fragment per channel
      (one if it has none). */
  lemma {:induction false} FragmentAccounting(segs: seq<Segment>)
    requires AllWellFormed(segs)
    ensures |Flatten(segs)| == SkippedCount(segs) + Consumed(Materialize(segs))
    ensures |Materialize(segs)| == |segs| - SkippedCount(segs)
  {
    if |segs| > 0 {
      FragmentAccounting(segs[1..]);
      var ports := Materialize(segs);
      if segs[0].Port? {
        assert ports[0] == PortOf(segs[0].block);
        assert ports[1..] == Materialize(segs[1..]);
      } else {
        assert ports == Materialize(segs[1..]);
      }
    }
  }

  /** Examples of the normalisation: `"3"` becomes `"1:3"`, `"2:5"` is kept. */
  lemma {:induction false} NormalizeExamples()
    ensures NormalizePortName("3") == "1:3"
    ensures NormalizePortName("2:5") == "2:5"
  {
    assert IsDigits("3");
    var s := "2:5";
    assert s[1] == ':' && s[..1] == "2" && s[2..] == "5";
    assert IsDigits(s[..1]) && IsDigits(s[2..]);
    assert DigitsColonDigits(s);
  }
}
