# jive5ab control proxy and VDIF test senders, in Dafny

This project models two parts of the sdp_vlbi repository and proves properties
of them.

The first part is the KATCP proxy for the jive5ab recorder. Two versions are
modelled: scripts/jive5ab_katcp_proxy.py and its older variant
archive/concept/aiokatcp_jive5ab.py. The proxy keeps five sensors:

- state;
- bytes written;
- network protocol;
- network port;
- last error.

It answers named requests by sending text commands to jive5ab's control
port. It parses the replies with regular expressions. After every
state-changing request except `set-disks` it polls three status queries.

The model has these pieces:

- The one I/O primitive, `jive_cmd`, is an oracle.
  - The outcome of the n-th call is `script(n)`: a reply text, or the text of
    the transport error it raised.
  - A ghost log records every command in order. `Written()` is the framing
    of each logged command, in order: what each call writes once its
    connection is open.
  - Its framing (`cmd.strip() + ";\n"`) is a pure function.
- Each regex becomes a deterministic matcher in `ReplyGrammar`. `re.search`
  becomes the least position where the matcher succeeds.
- Each request handler has two forms:
  - a specification function giving its `Effect` (new sensors, reply,
    commands sent);
  - a method of the `Jive5abServer` class, which updates the sensor fields and
    calls the channel as the source does. It is proved to have exactly that
    effect.

The second part is the three VDIF traffic senders:

- scripts/send_vdif_std_mtu_sync_seq.py;
- sim_send_vdif/send_vdif_std_mtu_sync_seq.py;
- sim_send_vdif/send.py.

Each has its own header bit layout, and each is modelled on its own terms. The
model covers:

- `build_vdif_header`: words computed, then packed big- or little-endian into
  a zeroed 32-byte array;
- `pack_2bit`;
- the `header_selfcheck` decoder of send.py;
- packet assembly;
- the frame, second and sequence counters of the send loops.

The properties proved are:

- round trips: header decode after build, `unpack(pack_2bit(q))`, `int(str(i))`,
  parse after a formatted reply;
- the order of device commands, and where a handler stops on a failure;
- what every failure reports and what every success polls;
- packet sizes and contents for every packet of a run.

Modules:

- `PyText`: `strip`, `lower`, `join`, `int()` and `str()` on `seq<char>`.
- `ReplyGrammar`: the reply patterns as matchers, and the leftmost search.
- `ReplyParsers`: the parsers.
- `JiveChannel`: the control channel.
- `ProxyCore`: what both proxies share.
- `Jive5abProxy` and `ConceptProxy`: one per proxy version.
- `Bytes`: big- and little-endian words over an array.
- `TwoBit`, `FrameClock`, `ScriptsVdif`, `SimVdif` and `SimSend`: the senders.

In these places the code behaves in ways that are easy to misread, and the
model follows the code:

- Only the first query of a poll clears the error sensor when it succeeds:
  `status?`, or `net2file?` in the older proxy. A successful `net_protocol?` or
  `net_port?` leaves a failure text from earlier in place.
- The older proxy writes the error sensor on invalid integer arguments to
  `set-protocol` and `set-port`. Its `except Exception` catches the
  `ValueError` too.
- `set-disks` does not poll after its command.
- The reply patterns require exactly one whitespace character on each side of
  the `:` after the code. Other whitespace does not match.
- Nothing serialises device access between the poll loop and the handlers. The
  model runs each handler and each poll as one uninterrupted step.

## Model

| member | source | states |
|---|---|---|
| JiveChannel.Frame | scripts/jive5ab_katcp_proxy.py:23 | the bytes written are the stripped command followed by exactly `;\n` |
| JiveChannel.FrameNormalises | scripts/jive5ab_katcp_proxy.py:23 | surrounding whitespace does not change what is sent, and re-framing a frame's command part gives the same frame |
| JiveChannel.ControlChannel.constructor | scripts/jive5ab_katcp_proxy.py:16-32 | a channel to `port` with an empty log and nothing written (`Written() == []`), whose n-th call yields `script(n)` |
| JiveChannel.Wire | scripts/jive5ab_katcp_proxy.py:23 | the lines written for a list of commands, once each connection is open: one framed line per command |
| JiveChannel.WireAt | scripts/jive5ab_katcp_proxy.py:23 | the i-th line written is the framing of the i-th command |
| JiveChannel.WireAppend | scripts/jive5ab_katcp_proxy.py:16-32 | the framings of two command lists in turn are the lines of the first and then those of the second |
| JiveChannel.CommandWrites | scripts/jive5ab_katcp_proxy.py:16-32 | one more command adds exactly its framing after those of the commands before it |
| JiveChannel.ControlChannel.Written | scripts/jive5ab_katcp_proxy.py:23 | the framing of each logged command, in order: what each call writes once its connection is open |
| JiveChannel.ControlChannel.Command | scripts/jive5ab_katcp_proxy.py:16-32 | one call of `jive_cmd`: the command is appended to the log, so by `CommandWrites` exactly `Frame(cmd)` (the stripped command and `;\n`), the text the call writes once connected, is appended to `Written()`; the outcome is the next scripted reply or transport error |
| PyText.LeadingSpaceSpec | scripts/jive5ab_katcp_proxy.py:53 | the leading run counted is all whitespace and is followed by a non-space character or the end |
| PyText.TrailingSpaceSpec | scripts/jive5ab_katcp_proxy.py:53 | the trailing run counted is all whitespace and is preceded by a non-space character or the start |
| PyText.StripSpec | scripts/jive5ab_katcp_proxy.py:53 | `strip()` is trimmed, and the input is whitespace + the result + whitespace |
| PyText.StripOf | scripts/jive5ab_katcp_proxy.py:53 | stripping whitespace + a trimmed text + whitespace gives back the text |
| PyText.StripKeepsTrimmed | scripts/jive5ab_katcp_proxy.py:53 | a trimmed text is its own strip |
| PyText.StripIdempotent | scripts/jive5ab_katcp_proxy.py:53 | stripping twice is stripping once |
| PyText.StripParts | scripts/jive5ab_katcp_proxy.py:53 | every text splits into whitespace, its strip and whitespace |
| PyText.StripPadding | scripts/jive5ab_katcp_proxy.py:23 | extra surrounding whitespace does not change the strip |
| PyText.Lower | scripts/jive5ab_katcp_proxy.py:132 | same length and no capital letter; each character is kept or is its capital's lower case |
| PyText.Join | scripts/jive5ab_katcp_proxy.py:175 | no parts join to the empty text; two or more start with the first part and the separator |
| PyText.Split | scripts/jive5ab_katcp_proxy.py:175 | `str.split(c)`, the inverse of `c.join`: at least one part, no part holds the separator, and joining the parts with it gives the text back (each part is then read back by `SplitJoin`) |
| PyText.IntToString | scripts/jive5ab_katcp_proxy.py:127 | `str(i)` of an integer is never empty |
| PyText.SplitJoin | scripts/jive5ab_katcp_proxy.py:175 | parts without `:` joined with `:` split back into the same parts |
| PyText.IndexOf | scripts/jive5ab_katcp_proxy.py:154-155 | the least position of the character, and none exactly when it does not occur |
| PyText.DigitValue | archive/concept/aiokatcp_jive5ab.py:29 | a digit's value is below ten and turns back into the same digit |
| PyText.NatToString | scripts/jive5ab_katcp_proxy.py:137 | `str(n)` is non-empty, all digits, and has a leading zero only for 0 |
| PyText.DigitsOfNat | scripts/jive5ab_katcp_proxy.py:137 | reading the digits of `str(n)` gives `n` |
| PyText.ParseInt | scripts/jive5ab_katcp_proxy.py:137 | `int(s)` succeeds exactly on an optional sign and ASCII digits, and its sign follows the text's |
| PyText.IntRoundTrip | scripts/jive5ab_katcp_proxy.py:137 | `int(str(i)) == i` for every integer |
| ReplyGrammar.RunEndSpec | scripts/jive5ab_katcp_proxy.py:38 | a greedy `\s+`, `\d+` or `\w+` takes the longest run of its class |
| ReplyGrammar.RunEndAt | scripts/jive5ab_katcp_proxy.py:38 | a run of the class ended by a character outside it is the run taken |
| ReplyGrammar.HeadAt | scripts/jive5ab_katcp_proxy.py:38 | where `<tag>\s+\d+\s:\s` matches, the tag is at that position and at least five characters follow it |
| ReplyGrammar.HeadMatches | scripts/jive5ab_katcp_proxy.py:38 | a reply head `<tag> <code> : ` after a preamble matches there and ends where the field text begins |
| ReplyGrammar.LazyEndSpec | scripts/jive5ab_katcp_proxy.py:52 | the lazy `(.+?)\s;` ends at the least possible stop, a stop being a `\s;` with no newline in the group; no stop means no match |
| ReplyGrammar.LazyEndAt | scripts/jive5ab_katcp_proxy.py:52 | a stop with none before it is where the lazy group ends |
| ReplyGrammar.MatchAt | scripts/jive5ab_katcp_proxy.py:38-52 | a match has one group per capture of the pattern and a non-empty first group |
| ReplyGrammar.WordThenCountGroups | scripts/jive5ab_katcp_proxy.py:38 | the groups of `(\w+)\s:\s(\d+)` are a word and a non-empty digit string |
| ReplyGrammar.IdentifierGroup | scripts/jive5ab_katcp_proxy.py:45 | the group of `([A-Za-z0-9_]+)` is a word |
| ReplyGrammar.TextGroup | scripts/jive5ab_katcp_proxy.py:52 | the group of `(.+?)\s;` holds no newline |
| ReplyGrammar.MatchAtSpec | scripts/jive5ab_katcp_proxy.py:38-52 | a match starts with the tag, and its groups belong to the classes the pattern names |
| ReplyGrammar.SearchFromSpec | scripts/jive5ab_katcp_proxy.py:38 | `re.search` finds the least matching position and its groups, and nothing exactly when no position matches |
| ReplyGrammar.NoTagNoMatch | scripts/jive5ab_katcp_proxy.py:38-39 | a reply that never contains the tag has no match |
| ReplyGrammar.SkipPreamble | scripts/jive5ab_katcp_proxy.py:38 | positions without `!` cannot start a match, so the search passes over them |
| ReplyGrammar.MatchWordThenCount | scripts/jive5ab_katcp_proxy.py:38 | `<head><word> : <digits><rest>` matches with exactly that word and digits when the rest does not start with a digit |
| ReplyGrammar.MatchIdentifier | scripts/jive5ab_katcp_proxy.py:45 | `<head><ident><rest>` matches with exactly that identifier when the rest does not start with a word character |
| ReplyGrammar.MatchTextBeforeSemicolon | scripts/jive5ab_katcp_proxy.py:52 | `<head><text> ;<rest>` matches with exactly that text when it holds no newline and no `;` |
| ReplyGrammar.SearchAfterPreamble | scripts/jive5ab_katcp_proxy.py:38 | after a preamble without `!`, the search returns the match at the preamble's end |
| ReplyGrammar.SearchAfterHead | scripts/jive5ab_katcp_proxy.py:38 | the search on a head after a preamble without `!` returns the match after the head |
| ReplyParsers.ParseStatusShape | scripts/jive5ab_katcp_proxy.py:35-39 | the state parsed from any text is a non-empty word or "unknown" |
| ReplyParsers.ParseProtocolShape | scripts/jive5ab_katcp_proxy.py:42-46 | the protocol parsed from any text is a non-empty identifier or "unknown" |
| ReplyParsers.ParsePortShape | scripts/jive5ab_katcp_proxy.py:49-53 | the port parsed from any text is trimmed and holds no newline, or is "unknown" |
| ReplyParsers.ParseNet2fileShape | archive/concept/aiokatcp_jive5ab.py:25-29 | the state parsed from any text is a non-empty word, or the result is ("unknown", 0) |
| ReplyParsers.StripNoNewline | scripts/jive5ab_katcp_proxy.py:53 | stripping adds no newline |
| ReplyParsers.ParseStatusReads | scripts/jive5ab_katcp_proxy.py:35-39 | a `!status? <code> : <word> : <digits>` reply, after any preamble without `!` and followed by anything but a digit, parses to exactly `<word>` |
| ReplyParsers.ParseProtocolReads | scripts/jive5ab_katcp_proxy.py:42-46 | a `!net_protocol? <code> : <ident>` reply parses to exactly `<ident>` |
| ReplyParsers.ParsePortReads | scripts/jive5ab_katcp_proxy.py:49-53 | a `!net_port? <code> : <text> ;` reply parses to `<text>` stripped |
| ReplyParsers.RecordStatusText | scripts/jive5ab_katcp_proxy.py:215-219 | without a `!record?` match, the reply text is the stripped raw reply |
| ReplyParsers.RecordStatusReads | scripts/jive5ab_katcp_proxy.py:215-218 | a `!record? <code> : <word> : <digits>` reply gives `"<word> <digits>B"` |
| ReplyParsers.ParseNet2fileReads | archive/concept/aiokatcp_jive5ab.py:25-29 | a `!net2file? <code> : <word> : <bytes>` reply parses to the pair (word, bytes) |
| ReplyParsers.ParseStatusFallback | scripts/jive5ab_katcp_proxy.py:39 | a text without `!status?` parses to "unknown" |
| ReplyParsers.ParseProtocolFallback | scripts/jive5ab_katcp_proxy.py:46 | a text without `!net_protocol?` parses to "unknown" |
| ReplyParsers.ParsePortFallback | scripts/jive5ab_katcp_proxy.py:53 | a text without `!net_port?` parses to "unknown" |
| ReplyParsers.ParseNet2fileFallback | archive/concept/aiokatcp_jive5ab.py:27-28 | a text without `!net2file?` parses to ("unknown", 0) |
| ProxyCore.StatusLineFields | scripts/jive5ab_katcp_proxy.py:125-128 | the status line splits at spaces back into state, `<bytes>B`, protocol and port when those hold no space |
| ProxyCore.IntToStringHasNoSpace | scripts/jive5ab_katcp_proxy.py:127 | the byte-count field of the status line holds no space |
| ProxyCore.Sequence | scripts/jive5ab_katcp_proxy.py:245-254 | commands in one `try` send a non-empty prefix of the list, or all of it |
| ProxyCore.SequenceEffect | scripts/jive5ab_katcp_proxy.py:245-254 | commands in one `try` send a prefix; they succeed without changing a sensor exactly when every call is answered; otherwise they stop at the first transport error, whose text becomes the reply and the error sensor |
| ProxyCore.SequenceOne | scripts/jive5ab_katcp_proxy.py:142-149 | one command in a `try`, spelled out for both outcomes |
| ProxyCore.SequenceThree | scripts/jive5ab_katcp_proxy.py:246-248 | three commands in a `try` stop after the first that fails |
| ProxyCore.ThenPollLast | scripts/jive5ab_katcp_proxy.py:143-145 | after a poll that follows successful commands, the reply is empty, the poll queries come last and the sensors are the polled ones |
| ProxyCore.LastFailureSnoc | scripts/jive5ab_katcp_proxy.py:102-121 | a later failing query replaces the earlier failure text |
| ProxyCore.LastFailureOfThree | scripts/jive5ab_katcp_proxy.py:102-121 | the failure reported after three queries is `"<query>: <err>"` of the last one that failed |
| ProxyCore.ChooseProtocolRefuses | scripts/jive5ab_katcp_proxy.py:132-134 | a protocol is refused exactly when its lower case is neither udp nor udps |
| ProxyCore.ChooseProtocolUdp | scripts/jive5ab_katcp_proxy.py:138-139 | for udp the buffer and thread arguments are ignored and the command is `net_protocol = udp` |
| ProxyCore.ChooseProtocolUdps | scripts/jive5ab_katcp_proxy.py:135-141 | for udps a command is built exactly when all three arguments are integers; otherwise the error is the `ValueError` text of the first bad one |
| ProxyCore.DefaultsAreCanonical | scripts/jive5ab_katcp_proxy.py:130 | the default arguments read as 33554432 and 4 and print back unchanged |
| ProxyCore.UdpsDefaults | scripts/jive5ab_katcp_proxy.py:130-137 | the default udps arguments give `net_protocol = udps : 33554432 : 33554432 : 4` |
| ProxyCore.ChooseProtocolDefaults | scripts/jive5ab_katcp_proxy.py:130-137 | `?set-protocol udps` with no more arguments sends the default command |
| ProxyCore.ChooseProtocolCanonical | scripts/jive5ab_katcp_proxy.py:136-137 | integers given in canonical form appear in the command unchanged |
| ProxyCore.PortError | scripts/jive5ab_katcp_proxy.py:153-160 | a rejected destination is rejected with the `ValueError` text of a non-integer |
| ProxyCore.PortErrorGroup | scripts/jive5ab_katcp_proxy.py:154-156 | `host@port` is accepted exactly when the text after the first `@` is an integer; otherwise the error names that text |
| ProxyCore.PortErrorPlain | scripts/jive5ab_katcp_proxy.py:157-158 | a destination without `@` is accepted exactly when it is an integer |
| ProxyCore.StartCaptureDirect | scripts/jive5ab_katcp_proxy.py:229-235 | an accepted first open is followed by `on` alone, with no connect; it succeeds exactly when `on` is answered |
| ProxyCore.StartCaptureFallback | scripts/jive5ab_katcp_proxy.py:229-235 | a refused open followed by an accepted re-open sends open, connect, open, on, and succeeds exactly when `on` is answered |
| ProxyCore.StartCaptureOpenFailed | scripts/jive5ab_katcp_proxy.py:230-234 | a refused re-open fails with "open failed" after open, connect, open, changes no sensor and sends no `on` |
| ProxyCore.StartCaptureFailures | scripts/jive5ab_katcp_proxy.py:228-241 | a failure is "open failed" with the sensors unchanged, or a transport error on the last command sent, also written to the error sensor; a success ends with `on` |
| Jive5abProxy.PollFields | scripts/jive5ab_katcp_proxy.py:102-121 | after a poll each sensor comes from its own query's reply, or is unchanged when that query failed; the byte count never changes |
| Jive5abProxy.PollError | scripts/jive5ab_katcp_proxy.py:102-121 | after a poll the error sensor is `"<query>: <err>"` of the last failing query, or empty when none failed |
| Jive5abProxy.CommandThenPoll | scripts/jive5ab_katcp_proxy.py:142-149 | one command and then a poll: a transport error is reported and nothing is polled; otherwise the three queries follow and the reply is ok |
| Jive5abProxy.SetProtocolRefused | scripts/jive5ab_katcp_proxy.py:132-134 | an unknown protocol fails with the usage text, sends nothing and changes no sensor |
| Jive5abProxy.SetProtocolBadNumber | scripts/jive5ab_katcp_proxy.py:135-141 | a non-integer udps argument fails with its `ValueError` text, before any command, with no sensor changed |
| Jive5abProxy.SetProtocolSends | scripts/jive5ab_katcp_proxy.py:142-149 | a valid request sends its one command and then polls, or reports the transport error |
| Jive5abProxy.SetPortSends | scripts/jive5ab_katcp_proxy.py:151-168 | an invalid destination fails with "invalid port", sends nothing and leaves the error sensor alone; a valid one is sent verbatim as `net_port = <destination>`, then polled |
| Jive5abProxy.SetDisksSends | scripts/jive5ab_katcp_proxy.py:170-182 | no paths fail without device contact; otherwise `set_disks = ` + the paths joined by `:` is sent and no poll follows |
| Jive5abProxy.RecordStartSends | scripts/jive5ab_katcp_proxy.py:184-196 | an empty scan name fails without device contact; otherwise `record = on:<scan>` is sent, then polled |
| Jive5abProxy.RecordStatusReplies | scripts/jive5ab_katcp_proxy.py:209-218 | a `!record?` reply gives ok `"<state> <bytes>B"`, sending only `record?` and changing no sensor |
| Jive5abProxy.Net2fileStopOrder | scripts/jive5ab_katcp_proxy.py:243-254 | off, flush, close are sent in order and the first transport failure stops them; the request succeeds exactly when all three are answered, and then it polls |
| Jive5abProxy.SetProtocolReported | scripts/jive5ab_katcp_proxy.py:130-149 | every failure of `set-protocol` is reported as its kind requires, and every success polls last |
| Jive5abProxy.SetPortReported | scripts/jive5ab_katcp_proxy.py:151-168 | the same for `set-port` |
| Jive5abProxy.RecordStartReported | scripts/jive5ab_katcp_proxy.py:184-196 | the same for `record-start` |
| Jive5abProxy.RecordStopReported | scripts/jive5ab_katcp_proxy.py:198-207 | the same for `record-stop` |
| Jive5abProxy.Net2fileStartReported | scripts/jive5ab_katcp_proxy.py:226-241 | the same for `net2file-start`, whose failure may also be "open failed" with no sensor changed |
| Jive5abProxy.Net2fileStopReported | scripts/jive5ab_katcp_proxy.py:243-254 | the same for `net2file-stop` |
| Jive5abProxy.FailuresReported | scripts/jive5ab_katcp_proxy.py:125-254 | every failing request was refused before any device contact, or failed to open, or failed on a transport error that is also the text of the error sensor |
| Jive5abProxy.SuccessPolls | scripts/jive5ab_katcp_proxy.py:142-254 | every succeeding request except `status`, `set-disks` and `record-status` replies with an empty message and has polled last |
| Jive5abProxy.AndPollLast | scripts/jive5ab_katcp_proxy.py:142-149 | commands followed by a poll succeed only with the three poll queries last and the sensors the poll gives |
| Jive5abProxy.SwitchOnThenPollEffect | scripts/jive5ab_katcp_proxy.py:235-237 | `on` and then a poll, spelled out for both outcomes of `on` |
| Jive5abProxy.Jive5abServer.constructor | scripts/jive5ab_katcp_proxy.py:63-71 | the sensors start as "unknown", 0, "unknown", "unknown", "" and the channel's log is empty |
| Jive5abProxy.Jive5abServer.Report | scripts/jive5ab_katcp_proxy.py:146-149 | an `except` clause writes the error text to the error sensor and fails with it |
| Jive5abProxy.Jive5abServer.QueryStatus | scripts/jive5ab_katcp_proxy.py:103-109 | one `status?` call, with the state or error update of its step |
| Jive5abProxy.Jive5abServer.QueryProtocol | scripts/jive5ab_katcp_proxy.py:110-115 | one `net_protocol?` call, with the protocol or error update of its step |
| Jive5abProxy.Jive5abServer.QueryPort | scripts/jive5ab_katcp_proxy.py:116-121 | one `net_port?` call, with the port or error update of its step |
| Jive5abProxy.Jive5abServer.PollOnce | scripts/jive5ab_katcp_proxy.py:102-121 | `_poll_once` logs the three queries in order and leaves the sensors the poll specification gives |
| Jive5abProxy.Jive5abServer.Status | scripts/jive5ab_katcp_proxy.py:125-128 | the status line of the current sensors, without device contact |
| Jive5abProxy.Jive5abServer.SetProtocol | scripts/jive5ab_katcp_proxy.py:130-149 | the new sensors, reply and logged commands are those of the `set-protocol` specification |
| Jive5abProxy.Jive5abServer.SetPort | scripts/jive5ab_katcp_proxy.py:151-168 | the same for `set-port` |
| Jive5abProxy.Jive5abServer.SetDisks | scripts/jive5ab_katcp_proxy.py:170-182 | the same for `set-disks` |
| Jive5abProxy.Jive5abServer.RecordStart | scripts/jive5ab_katcp_proxy.py:184-196 | the same for `record-start` |
| Jive5abProxy.Jive5abServer.RecordStop | scripts/jive5ab_katcp_proxy.py:198-207 | the same for `record-stop` |
| Jive5abProxy.Jive5abServer.RecordStatus | scripts/jive5ab_katcp_proxy.py:209-223 | the same for `record-status` |
| Jive5abProxy.Jive5abServer.Net2fileStart | scripts/jive5ab_katcp_proxy.py:226-241 | the same for `net2file-start` |
| Jive5abProxy.Jive5abServer.SwitchOnThenPoll | scripts/jive5ab_katcp_proxy.py:235-237 | `net2file = on` and then a poll, or the transport error of `on` reported |
| Jive5abProxy.Jive5abServer.Net2fileStop | scripts/jive5ab_katcp_proxy.py:243-254 | the same as `SetProtocol`, for `net2file-stop` |
| ConceptProxy.PollFields | archive/concept/aiokatcp_jive5ab.py:81-97 | state and byte count come from one `net2file?` reply together, or both stay; protocol and port each come from their own reply or stay |
| ConceptProxy.PollError | archive/concept/aiokatcp_jive5ab.py:81-97 | after a poll the error sensor is `"<query>: <err>"` of the last failing query, or empty when none failed |
| ConceptProxy.CommandThenPoll | archive/concept/aiokatcp_jive5ab.py:144-146 | one command and then a poll: a transport error is reported and nothing is polled; otherwise the three queries follow and the reply is ok |
| ConceptProxy.SetProtocolRefused | archive/concept/aiokatcp_jive5ab.py:136-138 | an unknown protocol fails with the usage text, sends nothing and leaves the error sensor alone |
| ConceptProxy.SetProtocolBadNumber | archive/concept/aiokatcp_jive5ab.py:139-149 | a non-integer udps argument fails with its `ValueError` text before any command, and that text is written to the error sensor |
| ConceptProxy.SetProtocolSends | archive/concept/aiokatcp_jive5ab.py:139-149 | a valid request sends its one command and then polls, or reports the transport error |
| ConceptProxy.SetPortSends | archive/concept/aiokatcp_jive5ab.py:151-164 | an invalid destination fails with the `ValueError` text, written to the error sensor, and sends nothing; a valid one is sent verbatim, then polled |
| ConceptProxy.StartSucceeds | archive/concept/aiokatcp_jive5ab.py:106-117 | a successful `start` sent `on` and then the three poll queries, and has the polled sensors |
| ConceptProxy.StartFails | archive/concept/aiokatcp_jive5ab.py:108-120 | a failed `start` did not poll: it failed to open with no sensor changed, or failed on a transport error that is also the error sensor's text |
| ConceptProxy.AndPollLast | archive/concept/aiokatcp_jive5ab.py:115-117 | commands followed by a poll succeed only with the three poll queries last and the sensors the poll gives |
| ConceptProxy.StopOrder | archive/concept/aiokatcp_jive5ab.py:122-132 | off, flush, close are sent in order and the first transport failure stops them; `stop` succeeds exactly when all three are answered, and then it polls |
| ConceptProxy.SwitchOnThenPollEffect | archive/concept/aiokatcp_jive5ab.py:115-117 | `on` and then a poll, spelled out for both outcomes of `on` |
| ConceptProxy.Jive5abServer.constructor | archive/concept/aiokatcp_jive5ab.py:46-61 | the sensors start as "unknown", 0, "unknown", "unknown", "" and the channel's log is empty |
| ConceptProxy.Jive5abServer.Report | archive/concept/aiokatcp_jive5ab.py:118-120 | an `except` clause writes the error text to the error sensor and fails with it |
| ConceptProxy.Jive5abServer.QueryNet2file | archive/concept/aiokatcp_jive5ab.py:82-89 | one `net2file?` call, with the state, bytes and error update of its step |
| ConceptProxy.Jive5abServer.QueryProtocol | archive/concept/aiokatcp_jive5ab.py:90-93 | one `net_protocol?` call, with the protocol or error update of its step |
| ConceptProxy.Jive5abServer.QueryPort | archive/concept/aiokatcp_jive5ab.py:94-97 | one `net_port?` call, with the port or error update of its step |
| ConceptProxy.Jive5abServer.PollOnce | archive/concept/aiokatcp_jive5ab.py:81-97 | `_poll_once` logs the three queries in order and leaves the sensors the poll specification gives |
| ConceptProxy.Jive5abServer.Status | archive/concept/aiokatcp_jive5ab.py:101-104 | the status line of the current sensors, without device contact |
| ConceptProxy.Jive5abServer.Start | archive/concept/aiokatcp_jive5ab.py:106-120 | the new sensors, reply and logged commands are those of the `start` specification |
| ConceptProxy.Jive5abServer.SwitchOnThenPoll | archive/concept/aiokatcp_jive5ab.py:115-117 | `net2file = on` and then a poll, or the transport error of `on` reported |
| ConceptProxy.Jive5abServer.Stop | archive/concept/aiokatcp_jive5ab.py:122-132 | the same as `Start`, for `stop` |
| ConceptProxy.Jive5abServer.SetProtocol | archive/concept/aiokatcp_jive5ab.py:134-149 | the same as `Start`, for `set-protocol` |
| ConceptProxy.Jive5abServer.SetPort | archive/concept/aiokatcp_jive5ab.py:151-164 | the same as `Start`, for `set-port` |
| Bytes.DigitsRoundTrip | scripts/send_vdif_std_mtu_sync_seq.py:51 | a value below 256^k written as k bytes, big- or little-endian, reads back as itself |
| Bytes.NumberRoundTrip | sim_send_vdif/send.py:54-57 | bytes read as a number and written back are the same bytes |
| Bytes.BE32RoundTrip | scripts/send_vdif_std_mtu_sync_seq.py:51 | `">I"` packing and reading are inverse both ways |
| Bytes.LE32RoundTrip | sim_send_vdif/send.py:34 | `"<I"` packing and reading are inverse both ways |
| Bytes.WordsRoundTrip | scripts/send_vdif_std_mtu_sync_seq.py:51 | words packed back to back, either byte order, read back as the same words |
| Bytes.FromLEWordAt | sim_send_vdif/send.py:54-57 | `unpack_from("<I", hdr, 4i)` reads word i |
| Bytes.LEWordAt | sim_send_vdif/send.py:34-47 | bytes 4i..4i+3 of little-endian words are word i |
| Bytes.LE32Digits | sim_send_vdif/send.py:65 | a little-endian word's value is its bytes weighted low byte first |
| Bytes.Quad64RoundTrip | scripts/send_vdif_std_mtu_sync_seq.py:122 | `">Q"` and `"<Q"` packing of a sequence number reads back as itself |
| Bytes.BE32 | scripts/send_vdif_std_mtu_sync_seq.py:51 | `">I"` packing of a 32-bit word gives four bytes |
| Bytes.LE32 | sim_send_vdif/send.py:34 | `"<I"` packing of a 32-bit word gives four bytes |
| Bytes.BEWords | scripts/send_vdif_std_mtu_sync_seq.py:51 | `">IIII"` packing gives four bytes per word |
| Bytes.BE64 | scripts/send_vdif_std_mtu_sync_seq.py:122 | `">Q"` packing of a sequence number gives eight bytes |
| Bytes.LE64 | sim_send_vdif/send.py:90 | `"<Q"` packing of a sequence number gives eight bytes |
| Bytes.Write | scripts/send_vdif_std_mtu_sync_seq.py:50-51 | writing bytes into the header array at an offset replaces exactly those positions |
| Bytes.PackBE32 | sim_send_vdif/send_vdif_std_mtu_sync_seq.py:31-35 | `pack_into(">I", h, off, w)` replaces exactly bytes off..off+3 with the big-endian word |
| Bytes.PackLE32 | sim_send_vdif/send.py:34 | `pack_into("<I", h, off, w)` replaces exactly bytes off..off+3 with the little-endian word |
| Bytes.BEPackNext | sim_send_vdif/send_vdif_std_mtu_sync_seq.py:31-35 | packing the next word into a zeroed tail extends the big-endian words written so far |
| Bytes.LEPackNext | sim_send_vdif/send.py:34-47 | packing the next word into a zeroed tail extends the little-endian words written so far |
| TwoBit.Padded | scripts/send_vdif_std_mtu_sync_seq.py:59-60 | the padded samples are a multiple of four long and fewer than four longer than the input |
| TwoBit.PaddedAt | scripts/send_vdif_std_mtu_sync_seq.py:59-60 | the padded samples are the input followed by zeros |
| TwoBit.PackRowsAt | scripts/send_vdif_std_mtu_sync_seq.py:61-62 | byte k is row k of the reshaped samples, combined top bits first |
| TwoBit.Pack2Bit | scripts/send_vdif_std_mtu_sync_seq.py:58-63 | `pack_2bit` of n samples is ceil(n/4) bytes |
| TwoBit.Pack2BitAt | scripts/send_vdif_std_mtu_sync_seq.py:58-63 | byte k is `q[4k]<<6 \| q[4k+1]<<4 \| q[4k+2]<<2 \| q[4k+3]`, reading past the end as zero |
| TwoBit.Unpack2Bit | sim_send_vdif/send_vdif_std_mtu_sync_seq.py:42-47 | unpacking gives four samples per byte |
| TwoBit.FieldsOfFour | scripts/send_vdif_std_mtu_sync_seq.py:62 | four samples below 4 can be read back from their byte, which is 64a + 16b + 4c + d |
| TwoBit.UnpackTwoBit | sim_send_vdif/send_vdif_std_mtu_sync_seq.py:42-47 | unpacked samples are all below 4 |
| TwoBit.FieldOfRow | scripts/send_vdif_std_mtu_sync_seq.py:62 | field j of a packed row is sample j of the row |
| TwoBit.UnpackPackAt | scripts/send_vdif_std_mtu_sync_seq.py:58-63 | each unpacked sample of a packing of samples below 4 is the sample at that position, or padding |
| TwoBit.UnpackPack | scripts/send_vdif_std_mtu_sync_seq.py:58-63 | unpacking `pack_2bit(q)` for samples below 4 gives `q` followed by the zero padding |
| TwoBit.Recombine | sim_send_vdif/send_vdif_std_mtu_sync_seq.py:46 | a byte is recombined from its four fields |
| TwoBit.PackUnpackAt | sim_send_vdif/send_vdif_std_mtu_sync_seq.py:42-47 | each byte of repacking unpacked bytes is the original byte |
| TwoBit.PackUnpack | sim_send_vdif/send_vdif_std_mtu_sync_seq.py:42-47 | repacking unpacked bytes gives back the bytes |
| TwoBit.PackLength | scripts/send_vdif_std_mtu_sync_seq.py:79 | 4m samples pack into exactly m bytes with no padding |
| FrameClock.RunShift | scripts/send_vdif_std_mtu_sync_seq.py:129-132 | k ticks after the first tick are k + 1 ticks |
| FrameClock.TickInRange | scripts/send_vdif_std_mtu_sync_seq.py:129-132 | with fps >= 1 a tick keeps the frame in [0, fps), and the second advances exactly when the frame was the last of its second |
| FrameClock.RunSeqno | scripts/send_vdif_std_mtu_sync_seq.py:121-123 | after k packets the sequence number has grown by k in sequence mode and by 0 otherwise |
| FrameClock.RunClosedForm | scripts/send_vdif_std_mtu_sync_seq.py:129-132 | after k packets the frame is (frame + k) mod fps and the second has grown by (frame + k) div fps |
| FrameClock.WrapStep | scripts/send_vdif_std_mtu_sync_seq.py:129-132 | one more frame moves the remainder and the quotient by fps the way the counter wraps |
| FrameClock.TicksAgree | sim_send_vdif/send.py:94-98 | for a frame inside [0, fps), send.py's `>=` wrap agrees with the `==` wrap of the other senders |
| FrameClock.RunsAgree | sim_send_vdif/send.py:94-98 | runs from a frame inside [0, fps) agree between the two wraps, and the frame stays in range |
| FrameClock.RunAtLeastSeqno | sim_send_vdif/send.py:94 | send.py's sequence number grows by one per packet |
| FrameClock.NonPositiveRate | sim_send_vdif/send.py:96-98 | with fps <= 0 each packet starts a new second at frame 0 |
| FrameClock.SecondsMonotone | sim_send_vdif/send.py:94-98 | the second never decreases along a run |
| ScriptsVdif.Word0Fields | scripts/send_vdif_std_mtu_sync_seq.py:36-38 | word 0 has invalid bit 0, legacy bit 1 and seconds mod 2^30 below them |
| ScriptsVdif.Word1Fields | scripts/send_vdif_std_mtu_sync_seq.py:41 | word 1 has frame mod 2^24 in bits 31..8, reference epoch mod 64 in bits 7..2 and zero bits 1..0 |
| ScriptsVdif.Word2Fields | scripts/send_vdif_std_mtu_sync_seq.py:44 | word 2 has frame length div 8 in bits 31..8, log2 channels 0 in bits 7..3 and version 1 in bits 2..0 |
| ScriptsVdif.Word3Fields | scripts/send_vdif_std_mtu_sync_seq.py:47-48 | word 3 has station 0x4141 in bits 31..16, thread 0 in bits 15..6, bits per sample minus one in bits 5..1 and zero bit 0 |
| ScriptsVdif.Header | scripts/send_vdif_std_mtu_sync_seq.py:50-52 | the header is 32 bytes |
| ScriptsVdif.BuildHeader | scripts/send_vdif_std_mtu_sync_seq.py:22-52 | `pack_into(">IIII")` on a zeroed 32-byte array gives the four big-endian words and sixteen zero bytes |
| ScriptsVdif.HeaderFields | scripts/send_vdif_std_mtu_sync_seq.py:32-52 | decoding a built header gives every field at its place, masked as written, with the unused bits and bytes 16..31 zero |
| ScriptsVdif.HeaderRecovers | scripts/send_vdif_std_mtu_sync_seq.py:32-52 | seconds, epoch and frame in range decode back exactly, and the frame length to its multiple of 8 |
| ScriptsVdif.ByteValues | scripts/send_vdif_std_mtu_sync_seq.py:63 | `tobytes()` keeps the length |
| ScriptsVdif.Sizing | scripts/send_vdif_std_mtu_sync_seq.py:77-80 | the frame is a multiple of 8 bytes, the packet is 1472 bytes in both modes, and a frame's samples pack into exactly the payload |
| ScriptsVdif.PacketContents | scripts/send_vdif_std_mtu_sync_seq.py:112-132 | packet k is 1472 bytes; in sequence mode it starts with k; its header decodes to frame k mod fps of second secs0 + k div fps; its payload is the packed samples, which unpack to exactly the frame's samples |
| ScriptsVdif.FramePayload | scripts/send_vdif_std_mtu_sync_seq.py:77-80 | a frame of 2-bit samples packs into a payload that unpacks to exactly those samples: a frame needs no padding |
| ScriptsVdif.Sent | scripts/send_vdif_std_mtu_sync_seq.py:112-127 | n iterations send n packets |
| ScriptsVdif.SentPackets | scripts/send_vdif_std_mtu_sync_seq.py:112-127 | the k-th packet sent is packet k, however many follow |
| ScriptsVdif.Advance | scripts/send_vdif_std_mtu_sync_seq.py:121-132 | the end of one iteration is one clock tick: the frame wraps at fps into the next second, and the sequence number moves only in sequence mode |
| ScriptsVdif.MakePacket | scripts/send_vdif_std_mtu_sync_seq.py:117-125 | the packet of one iteration: optional sequence number, header, packed payload |
| ScriptsVdif.Send | scripts/send_vdif_std_mtu_sync_seq.py:107-132 | the `for` loop sends exactly the first n packets of the run |
| SimVdif.Word0Fields | sim_send_vdif/send_vdif_std_mtu_sync_seq.py:25 | word 0 is seconds mod 2^30 with bits 31..30 clear |
| SimVdif.Word1Fields | sim_send_vdif/send_vdif_std_mtu_sync_seq.py:26 | word 1 has frame mod 2^24 in bits 31..8, log2 channels in bits 7..3 and bits per sample minus one in bits 2..0 |
| SimVdif.Word2Fields | sim_send_vdif/send_vdif_std_mtu_sync_seq.py:27 | word 2 has 'A' in bits 31..24 and in bits 23..16, the version in bits 15..8 and the epoch mod 64 in bits 7..0 |
| SimVdif.Word3Fields | sim_send_vdif/send_vdif_std_mtu_sync_seq.py:28 | word 3 is (frame length div 8) mod 2^24 shifted left by 8 |
| SimVdif.Header | sim_send_vdif/send_vdif_std_mtu_sync_seq.py:30-36 | the header is 32 bytes |
| SimVdif.BuildHeader | sim_send_vdif/send_vdif_std_mtu_sync_seq.py:22-36 | five `pack_into(">I")` calls on a zeroed array give the five big-endian words and twelve zero bytes |
| SimVdif.HeaderFields | sim_send_vdif/send_vdif_std_mtu_sync_seq.py:22-36 | decoding a built header gives every field at its place, with thread mod 1024 in word 4 and bytes 20..31 zero |
| SimVdif.HeaderRecovers | sim_send_vdif/send_vdif_std_mtu_sync_seq.py:22-36 | seconds, epoch and frame in range decode back exactly, and the frame length to its multiple of 8 |
| SimVdif.PacketContents | sim_send_vdif/send_vdif_std_mtu_sync_seq.py:96-116 | packet k is 1472 bytes; in sequence mode it starts with k; its header decodes to frame k mod fps of second secs0 + k div fps; its payload is the packed samples, which unpack to exactly the frame's samples when these are 2-bit values |
| SimVdif.Sent | sim_send_vdif/send_vdif_std_mtu_sync_seq.py:96-111 | n iterations send n packets |
| SimVdif.SentPackets | sim_send_vdif/send_vdif_std_mtu_sync_seq.py:96-111 | the k-th packet sent is packet k, however many follow |
| SimVdif.MakePacket | sim_send_vdif/send_vdif_std_mtu_sync_seq.py:101-109 | the packet of one iteration: optional sequence number, this file's header, packed payload |
| SimVdif.Send | sim_send_vdif/send_vdif_std_mtu_sync_seq.py:91-116 | the `for` loop sends exactly the first n packets of the run |
| SimSend.Word1Fields | sim_send_vdif/send.py:37 | word 1 has frame mod 2^24 in bits 23..0, the reference epoch in bits 29..24 and invalid bit 31 clear |
| SimSend.Word2Fields | sim_send_vdif/send.py:41-42 | word 2 has FRAME_SIZE div 8 in bits 23..0 and the version in bits 29..24 |
| SimSend.Header | sim_send_vdif/send.py:31 | the header is 32 bytes |
| SimSend.BuildHeader | sim_send_vdif/send.py:22-50 | a second below 2^32 gives the four little-endian words and sixteen zero bytes; any other second raises `struct.error` |
| SimSend.SelfcheckOfHeader | sim_send_vdif/send.py:52-64 | the check of a built header passes and reads back the second, frame mod 2^24, REF_EPOCH, invalid 0, FRAME_SIZE div 8, VERSION and THREAD_ID |
| SimSend.HeaderLengthBytes | sim_send_vdif/send.py:65 | bytes 8..11 of every header are 08 04 00 01 |
| SimSend.SelfcheckAccepts | sim_send_vdif/send.py:58-64 | the check passes exactly when bytes 8..11 carry length 1032 and version 1, and a wrong length raises "frame length field incorrect" |
| SimSend.SelfcheckMode | sim_send_vdif/send.py:71-74 | `--selfcheck` checks the header of frame 0 of the current second and passes, or raises `struct.error` for a second beyond 32 bits |
| SimSend.SeqPrefix | sim_send_vdif/send.py:90 | the sequence prefix is 8 bytes |
| SimSend.PacketAt | sim_send_vdif/send.py:82-91 | every packet is 8 + 8256 bytes |
| SimSend.PacketContents | sim_send_vdif/send.py:81-98 | packet k starts with k big-endian, its header passes the check and carries the k-th tick's second and frame, and its payload is zero; with fps >= 1 the frame is k mod fps and the second is second0 + k div fps |
| SimSend.Sent | sim_send_vdif/send.py:81-98 | n iterations send n packets |
| SimSend.SentPackets | sim_send_vdif/send.py:81-98 | the k-th packet sent is packet k, however many follow |
| SimSend.Advance | sim_send_vdif/send.py:94-98 | the end of one iteration: sequence number and frame advance, and a frame at or past fps resets to 0 in the next second |
| SimSend.RunSender | sim_send_vdif/send.py:67-101 | the loop sends exactly the first packets of the run; it stops early only when the next header's second no longer fits in 32 bits, which raises |

## Left out

- Sockets. `open_connection`, `drain`, the single 4096-byte read, `close` and
  the connect and read timeouts are replaced by the scripted outcome of each
  call.
- ASCII encoding and decoding. The reply is the decoded text, and an encoding
  failure of a non-ASCII command is not modelled, because it happens in a
  foreign library. Character classes are the ASCII part of Python's ones, which
  is exact on decoded replies.
- JiveChannel.ControlChannel.Written: lists the framing of every logged
  command, including a call whose `open_connection` failed. Such a call writes
  nothing and raises, and the scripted outcome does not tell a failed connect
  from a failure after the write.
- JiveChannel.Frame: `Strip` removes ASCII whitespace only. Python's `strip()`
  also removes Unicode whitespace such as U+00A0 around a command before it is
  encoded; the model keeps that character in the frame.
- asyncio and aiokatcp. `start`, `stop`, task creation and cancellation, the
  `while True` / `sleep(120.0)` poll loop, request dispatch and the KATCP wire
  format are left out: they are concurrency and foreign code. The model has one
  poll as a method and treats sensors as plain fields.
- Concurrency between the poll loop and the handlers. Each handler and each
  poll is modelled as one uninterrupted step.
- Exceptions other than transport errors and `ValueError`, such as those from
  aiokatcp. This matters for the older proxy's `except Exception`: it alone is
  not modelled.
- PyText.ParseInt: models `int()` as an optional sign followed by ASCII digits.
  Python also accepts surrounding whitespace, `_` between digits and non-ASCII
  digits. Conversely, CPython since the 3.11 line (and the 3.7.14, 3.8.14,
  3.9.14 and 3.10.7 security releases) rejects a literal of more than 4300
  digits with a `ValueError`. The limit is settable at run time
  (`sys.set_int_max_str_digits`, `PYTHONINTMAXSTRDIGITS`), so the model
  accepts every length. With the default limit such an argument is refused
  by the source where the model sends the command:
  - a udps buffer or thread argument of `set-protocol`;
  - the port of `set-port`.
  In the older proxy, that refusal also sets the error sensor.
- PyText.IntError: Python quotes the text with `repr`; the model uses plain
  single quotes, which agree except for texts holding quotes or backslashes.
- Logging calls and `print` output. This includes the hex dump and field lines
  of `header_selfcheck`, and its return value, `None`. Only its two assertions
  are modelled.
- argparse, `_amain` and `main`.
- setup.py: it holds packaging metadata only.
- The float parts of the senders:
  - `quantize_2bit_unsigned`, which uses numpy percentiles;
  - sine and noise synthesis and the phase update;
  - `vdif_ref_epoch_info`, which uses dates and float division;
  - deadline pacing and `sleep`.
  These become parameters: the start second, the reference epoch and the
  quantised samples of frame k, `samples(k)`.
- The wait for the next whole second, which depends on the clock.
- UDP `sendto` and `setsockopt`: the senders return the packets instead.
- ScriptsVdif.Send: does not model the `ZeroDivisionError` that
  `1.0 / fps` raises for fps = 0 before the loop. Nor does it model the frame
  count of `int(duration * fps)`, which is float arithmetic; the count is a
  parameter.
- SimVdif.Send: the same as ScriptsVdif.Send.
- ScriptsVdif.Send: requires at most 2^64 packets, because `struct.pack(">Q")`
  would raise there in sequence mode.
- SimVdif.Send: the same as ScriptsVdif.Send.
- SimSend.RunSender: `while True` is cut off after `maxPackets` iterations, and
  at most 2^64 packets are modelled. Other exits of the loop are modelled: the
  `struct.error` of a second beyond 32 bits.
