# Extreme optics to InfluxDB, modelled in Dafny

The script `extreme_optics_influxdb.py` runs on an Extreme Networks switch. It asks the
switch for the transceiver (optic) readings of every port and gets back a reply made of
one XML element per optic channel. It groups those fragments into one record per port,
with a `stack:port` name, a temperature, a voltage and one reading set per channel.
It then replaces the switch's "no reading" sentinel `-9999.000000` with floor values.
Finally it encodes the records as InfluxDB line protocol: one `optics` line per port and
one `optics_channels` line per channel. The script then posts that payload.

The model covers everything between the CLI call and the HTTP post. It has six modules:

- `Strings` (`strings.dfy`): the Python string operations the script relies on.
  These are `sep.join`, `str.split` on one character, `str.replace` and `str(n)`.
- `Optics` (`optics.dfy`): the data model. It holds the parsed fragment, the channel and
  port records, and the `METRICS` table.
- `Reader` (`reader.dfy`): `get_optics_data` after the CLI call. It splits the reply,
  tests fragment validity, normalises port names, and walks the fragment stream with an
  index playing the iterator. `Group` is the reference definition of what the walk
  returns. `ReadPorts` is the imperative walk, proved equal to it. `Group` is also
  characterised as a cut of the stream into skipped fragments and port blocks.
- `Sanitizer` (`sanitizer.dfy`): `fix_extreme_inf_values`. It works in place on an array
  of port records and returns that same array.
- `LineProtocol` (`line_protocol.dfy`): `create_lineprotocol_data`. It appends lines in
  nested loops and joins them with line breaks. `EncodedLines` is the reference list of
  lines.
- `Pipeline` (`pipeline.dfy`): the main block. It reads the ports. Only when that gives
  some ports does it sanitize them and encode them into the payload to post.

Choices the model makes explicit:

- **Field and channel order.** Python 2 dictionaries do not guarantee key order. The model
  fixes one canonical order. Port fields come as temperature then voltage. Channel fields
  come in `METRICS` declaration order: tx-power, rx-power, tx-current. Channels come in
  ascending index. The source does not promise this order.
- **Channel storage.** A port's `channels` dictionary has the keys `0 .. n-1`. The model
  stores it as a sequence, with channel `j` at index `j`.
- **Temperature and voltage.** These are optional. The source sets them only while
  reading channel 0, so a port with `numChannels < 1` has neither.
- **Running out of fragments.** `ports_parsed_iter.next()` (line 92) raises
  `StopIteration` when the stream ends inside a port. Nothing catches it, so the run
  crashes and returns no records. The model returns `Failure(StreamExhausted)` and keeps
  no partial result.
- **Python's `$`.** In `re.match('^\d+:\d+$', name)`, `$` also matches just before a
  final line break. So `"1:3\n"` counts as already normalised. `IsStackPortName` models
  this.
- **Ports without channels.** `range(0, n)` is empty when `n < 1`. Such a port still takes
  its start fragment and yields a record with no channels. Its line is
  `optics,device=D,port=NAME ` with an empty field set after the space
  (`PortLineShape`).

## Model

| member | source | states |
|---|---|---|
| Optics.ChannelOf | extreme_optics_influxdb.py:29-33 | A channel record has exactly one reading per `METRICS` entry, in `METRICS` order. The reading stored under each `METRICS` value is the text of the element named by its key (`txPower`, `rxPower`, `txBiasCurrent`). |
| Reader.SplitReplies | extreme_optics_influxdb.py:57 | Splitting the reply after inserting line breaks between `</reply><reply>` gives at least one piece. No piece contains a line break. Concatenating the pieces gives the reply with its line breaks removed, so nothing else is lost or added. |
| Reader.SplitRepliesDocuments | extreme_optics_influxdb.py:57 | A reply made of back-to-back `<reply>…</reply>` documents splits exactly into those documents, in order. This holds when no document contains a line break or the `</reply><reply>` boundary of its own. |
| Reader.GroupAtSkip | extreme_optics_influxdb.py:71 | A fragment that fails the validity test (`IsValidOptic`: not marked non-empty, carrying a port error string, or with `partNumberIsValid` other than `1`) is skipped, and the walk resumes at the next fragment. This is one step of the walk; over a whole stream, `SkipInvalidPrefix` and `GroupSucceedsIffSegmented` state that skipped fragments contribute nothing. |
| Reader.SkipInvalidPrefix | extreme_optics_influxdb.py:68-71 | Fragments that fail the validity test in front of a stream do not change what the reader returns. A stream made only of such fragments gives no ports. |
| Reader.GroupAtPort | extreme_optics_influxdb.py:71-94 | A fragment that passes the validity test, with enough fragments after it, starts one record built from the next `max(1, numChannels)` fragments. The reader then goes on after them. This is one step of the walk; over a whole stream, `GroupSucceedsIffSegmented` states that the records are exactly the port blocks in order. |
| Reader.NormalizePortName | extreme_optics_influxdb.py:74-76 | A name matching `^\d+:\d+$` (Python `$` semantics) is kept unchanged. Every other name gets the prefix `1:`. A bare port number becomes a valid `stack:port` name. |
| Reader.NormalizeExamples | extreme_optics_influxdb.py:74-76 | `"3"` becomes `"1:3"` and `"2:5"` is kept. |
| Reader.PortOf | extreme_optics_influxdb.py:72-92 | The record built from a start fragment and the fragments after it has the normalised name. It has no channels exactly when `numChannels < 1`; otherwise it has one channel per fragment of the block. Channel `j` is read from fragment `j`, without checking that fragment's validity. Temperature and voltage come from the start fragment and are present exactly when channel 0 exists. |
| Reader.Group | extreme_optics_influxdb.py:66-96 | On success, the records account for at most the fragments of the stream. Every record is well shaped: temperature and voltage are present exactly when it has channels. |
| Reader.ReadPorts | extreme_optics_influxdb.py:61-96 | The imperative walk, with an index as the shared iterator, returns exactly `Group(frags)`. This includes the failure when the stream ends inside a port. |
| Reader.ReadPort | extreme_optics_influxdb.py:72-92 | The channel loop for a valid start fragment fails exactly when fewer than `max(1, numChannels)` fragments remain. Otherwise it advances the cursor by exactly `max(1, numChannels)` and builds the record `PortOf` gives for those fragments. |
| Reader.GroupFlatten | extreme_optics_influxdb.py:68-94 | For a stream made of well-formed segments followed by a tail, the reader returns one record per port segment, in stream order, followed by what the tail gives. A skipped fragment (not a valid optic) contributes nothing. |
| Reader.SegmentationExists | extreme_optics_influxdb.py:68-94 | Every stream cuts into well-formed segments, followed by nothing or by a port that runs past the end of the stream. |
| Reader.GroupSucceedsIffSegmented | extreme_optics_influxdb.py:68-94 | The reader returns `ports` exactly when the stream cuts into skipped invalid fragments and port blocks of the right width whose records, in order, are `ports`. Channel fragments therefore never start a record of their own. |
| Reader.GroupFailsIffTruncated | extreme_optics_influxdb.py:91-92 | The reader fails exactly when the stream is well-formed segments followed by a valid start fragment with fewer fragments left than it needs. |
| Reader.FragmentAccounting | extreme_optics_influxdb.py:79-92 | For a segmented stream, every fragment is either skipped or belongs to exactly one record. A record accounts for one fragment per channel, or one if it has none. The record count is the segment count minus the skipped ones. |
| Sanitizer.FixChannel | extreme_optics_influxdb.py:105-108 | A sentinel rx-power becomes `-40.000000` and a sentinel tx-power becomes `0.00`. Other readings, and tx-current always, are unchanged. No sentinel remains. |
| Sanitizer.SanitizePorts | extreme_optics_influxdb.py:100-109 | The same number of ports, in the same order. Names, temperatures, voltages and channel counts are unchanged, and every channel is rewritten by `FixChannel`. No sentinel is left anywhere. |
| Sanitizer.SanitizeFixedPointIff | extreme_optics_influxdb.py:105-108 | Sanitizing leaves the ports unchanged exactly when no channel holds a sentinel. |
| Sanitizer.SanitizeIdempotent | extreme_optics_influxdb.py:105-108 | Sanitizing twice is the same as sanitizing once. |
| Sanitizer.FixInfValues | extreme_optics_influxdb.py:100-109 | Rewrites the array in place to `SanitizePorts` of its old contents, and returns the same array. |
| LineProtocol.EncodedLines | extreme_optics_influxdb.py:117-130 | One line per port plus one line per channel. |
| LineProtocol.EncodedLinesLayout | extreme_optics_influxdb.py:117-130 | Port `k`'s line stands after the lines of all earlier ports and their channels. Its channel lines follow it immediately, channel `j` at distance `j + 1`. |
| LineProtocol.EncodedLinesConcat | extreme_optics_influxdb.py:117-130 | Encoding a list of ports is encoding each part of it in turn, with nothing between parts. |
| LineProtocol.PortLineShape | extreme_optics_influxdb.py:118-121 | A port line is `optics,device=D,port=NAME temperature=T,voltage=V` when the port has channels. It is `optics,device=D,port=NAME ` when it has none. Values are inserted verbatim. |
| LineProtocol.ChannelLineShape | extreme_optics_influxdb.py:123-130 | Channel `j`'s line is `optics_channels,device=D,port=NAME,channel=j tx-power=..,rx-power=..,tx-current=..`, with the values verbatim. |
| LineProtocol.AppendPortLines | extreme_optics_influxdb.py:118-130 | One turn of the outer loop appends the port's line, then its channel lines in ascending index, to the lines so far. |
| LineProtocol.CreateLineProtocol | extreme_optics_influxdb.py:114-132 | The payload is the encoded lines joined by line breaks. |
| LineProtocol.PayloadLines | extreme_optics_influxdb.py:132 | No ports give the empty payload. Otherwise, when no value contains a line break, splitting the payload at line breaks gives back exactly the encoded lines, with no trailing empty line. |
| LineProtocol.EncodeExample | extreme_optics_influxdb.py:114-132 | Port `1:3` of device `sw01`, with one channel, encodes as its port line, a line break and its single channel line. |
| Strings.ParseNatToString | extreme_optics_influxdb.py:125 | The `channel=` tag value `str(j)` reads back as `j`. |
| Strings.JoinSplit | extreme_optics_influxdb.py:57 | Joining the pieces of a split with the separator gives back the string. |
| Strings.SplitJoin | extreme_optics_influxdb.py:132 | Splitting the line-break join of a non-empty list of line-free parts gives back the parts. |
| Pipeline.Run | extreme_optics_influxdb.py:194-199 | The main flow reads the ports, sanitizes them in place and encodes them. Its outcome is the crash, the empty result or the payload that `RunOutcome` defines. |
| Pipeline.RunOutcome | extreme_optics_influxdb.py:194-196 | The run crashes exactly when the reader fails. It posts nothing exactly when the reader returns no ports. It posts exactly when the reader returns at least one port. |
| Pipeline.GroupSingleLine | extreme_optics_influxdb.py:66-96 | Records read from line-free fragments contain no line break. |
| Pipeline.PostedLines | extreme_optics_influxdb.py:194-198 | For line-free fragments and device name, the posted payload splits into exactly the encoded lines of the sanitized records. There is one line per port read and one per channel read. |

## Left out

- The switch CLI call (`exsh.clicmd`, line 45) and all logging through it: foreign calls into the switch OS. The reply reaches `SplitReplies` as a parameter.
- XML parsing (`et.fromstring` and `findall`, lines 63-64 and the lookups at 71-90): a library this model cannot see. Each fragment arrives as a `Fragment` whose element texts are already extracted. A missing child element (`IndexError`), a `None` text, and a non-numeric `numChannels` (`ValueError` from `int`) are not modelled.
- The link from `SplitReplies` pieces to fragments is not modelled. Each piece is one XML document that the parser would turn into one fragment only when the documents hold no line break of their own (`SplitRepliesDocuments`). A line break inside a document cuts that document into two pieces at that point, and the parser (line 63) then reads each piece on its own; the model does not follow what the parser makes of such pieces.
- `post_influx_data` (lines 136-173): sockets, the virtual-router socket option, the `httplib` patch, HTTP/HTTPS and authentication. The model stops at the payload handed to it.
- The argument parsing in the main block (lines 182-191). The device name is a parameter of `Pipeline.Run`.
- `get_optics_data` returning `None` after a CLI failure is not modelled, because the CLI call is not modelled.
- Python 2 dictionary order: the model fixes one canonical order for port fields, channel fields and channels, as described above. The source itself does not fix an order.
- LineProtocol.EncodedLines: fixes one canonical field order instead of stating the fields as an unordered set of `key=value` pairs, because the source's order depends on Python 2 dictionary hashing.
