/** What the two versions of the jive5ab proxy share: the five sensors, the
    reply a request handler gives, and the pure parts of the handlers
    (argument validation, command construction and the sequences of device
    commands). Each handler is described by the `Effect` it has: the new
    sensors, its reply, and the commands it sends. */
module ProxyCore {
  import opened PyText
  import opened JiveChannel

  /** The sensors `jive5ab-state`, `-bytes`, `-protocol`, `-port` and `-error`. */
  datatype Sensors = Sensors(state: string, bytes: int, proto: string, nport: string, error: string)

  /** The values the sensors are created with. */
  const Initial := Sensors("unknown", 0, "unknown", "unknown", "")

  /** The reply of a request: `("ok", message)` or `("fail", message)`. */
  datatype Outcome = Ok(message: string) | Fail(message: string)

  /** The new sensors, the reply, and the commands sent, in order. */
  datatype Effect = Effect(sensors: Sensors, outcome: Outcome, sent: seq<string>)

  /** The reply of `?status`: `"<state> <bytes>B <protocol> <port>"`. */
  function StatusLine(s: Sensors): string {
    s.state + " " + IntToString(s.bytes) + "B " + s.proto + " " + s.nport
  }

  /** The status line splits back into its four fields when the text fields
      hold no space. */
  lemma {:induction false} StatusLineFields(s: Sensors)
    requires ' ' !in s.state && ' ' !in s.proto && ' ' !in s.nport
    ensures Split(StatusLine(s), ' ') == [s.state, IntToString(s.bytes) + "B", s.proto, s.nport]
  {
    var parts := [s.state, IntToString(s.bytes) + "B", s.proto, s.nport];
    IntToStringHasNoSpace(s.bytes);
    assert Join([' '], parts[2..]) == s.proto + " " + s.nport;
    assert Join([' '], parts[1..]) == IntToString(s.bytes) + "B " + s.proto + " " + s.nport;
    assert Join([' '], parts) == StatusLine(s);
    SplitJoin(parts, ' ');
  }

  lemma {:induction false} IntToStringHasNoSpace(i: int)
    ensures ' ' !in IntToString(i) + "B"
  {
    var d := NatToString(if i < 0 then -i else i);
    assert forall k :: 0 <= k < |d| ==> d[k] != ' ';
  }

  /** `await jive_cmd(c)` for each command in turn inside one `try`: the first
      transport error ends the sequence, sets the error sensor to its text and
      becomes the reply `("fail", str(err))`. */
  function Sequence(s: Sensors, script: nat -> Response, n: nat, cmds: seq<string>): (e: Effect)
    ensures 0 < |e.sent| <= |cmds| || e.sent == cmds
    decreases |cmds|
  {
    if cmds == [] then Effect(s, Ok(""), [])
    else match script(n)
      case TransportError(m) => Effect(s.(error := m), Fail(m), [cmds[0]])
      case Reply(_) =>
        var e := Sequence(s, script, n + 1, cmds[1..]);
        Effect(e.sensors, e.outcome, [cmds[0]] + e.sent)
  }

  /** The commands sent are a prefix of the sequence; it succeeds, changing
      nothing, exactly when every call gets a reply, and otherwise stops at the
      first transport error, whose text is the reply and the error sensor. */
  lemma {:induction false} SequenceEffect(s: Sensors, script: nat -> Response, n: nat, cmds: seq<string>)
    ensures var e := Sequence(s, script, n, cmds);
      e.sent == cmds[..|e.sent|] &&
      (e.outcome.Ok? <==> forall j :: n <= j < n + |cmds| ==> script(j).Reply?) &&
      (e.outcome.Ok? ==> e == Effect(s, Ok(""), cmds)) &&
      (e.outcome.Fail? ==>
        |e.sent| > 0 &&
        (forall j :: n <= j < n + |e.sent| - 1 ==> script(j).Reply?) &&
        script(n + |e.sent| - 1) == TransportError(e.outcome.message) &&
        e.sensors == s.(error := e.outcome.message))
    decreases |cmds|
  {
    if cmds != [] && script(n).Reply? {
      SequenceEffect(s, script, n + 1, cmds[1..]);
      var e' := Sequence(s, script, n + 1, cmds[1..]);
      var e := Sequence(s, script, n, cmds);
      assert e == Effect(e'.sensors, e'.outcome, [cmds[0]] + e'.sent);
      assert cmds[..|e.sent|] == [cmds[0]] + cmds[1..][..|e'.sent|];
      if e'.outcome.Fail? {
        var j := n + 1 + |e'.sent| - 1;
        assert n <= j < n + |cmds| && !script(j).Reply?;
      }
    }
  }

  /** A one-command sequence, spelled out. */
  lemma {:induction false} SequenceOne(s: Sensors, script: nat -> Response, n: nat, c: string)
    ensures Sequence(s, script, n, [c]) ==
      if script(n).Reply? then Effect(s, Ok(""), [c])
      else Effect(s.(error := script(n).message), Fail(script(n).message), [c])
  {
    assert [c][1..] == [];
  }

  /** A three-command sequence, spelled out. */
  lemma {:induction false} SequenceThree(s: Sensors, script: nat -> Response, n: nat, c0: string, c1: string, c2: string)
    ensures Sequence(s, script, n, [c0, c1, c2]) ==
      if script(n).TransportError? then Effect(s.(error := script(n).message), Fail(script(n).message), [c0])
      else if script(n + 1).TransportError? then Effect(s.(error := script(n + 1).message), Fail(script(n + 1).message), [c0, c1])
      else if script(n + 2).TransportError? then Effect(s.(error := script(n + 2).message), Fail(script(n + 2).message), [c0, c1, c2])
      else Effect(s, Ok(""), [c0, c1, c2])
  {
    assert [c0, c1, c2][1..] == [c1, c2];
    assert [c1, c2][1..] == [c2];
    SequenceOne(s, script, n + 2, c2);
    assert [c1] + [c2] == [c1, c2];
    assert [c0] + [c1] == [c0, c1];
    assert [c0] + [c1, c2] == [c0, c1, c2];
  }

  /** After a successful handler that polls, the poll's queries are the
      last ones sent and its sensors are those reported. */
  lemma {:induction false} ThenPollLast(e: Effect, polled: Sensors, polls: seq<string>, p: Effect)
    requires p == if e.outcome.Ok? then Effect(polled, Ok(""), e.sent + polls) else e
    ensures p.outcome.Ok? ==> (e.outcome.Ok? && p.outcome.message == "" && |p.sent| - |polls| == |e.sent| &&
        p.sent[|p.sent| - |polls|..] == polls && p.sensors == polled)
  {
    if e.outcome.Ok? {
      assert (e.sent + polls)[|e.sent|..] == polls;
    }
  }

  /** The queries both proxies poll besides their own state query. */
  const ProtocolQuery := "net_protocol?"
  const PortQuery := "net_port?"

  /** The error sensor after a failed query: `"<query>: <transport error>"`. */
  function QueryFailure(query: string, m: string): string {
    query + ": " + m
  }

  /** `"<cmd>: <err>"` for the last of the calls `n ..` that raised, if any. */
  function LastFailure(cmds: seq<string>, script: nat -> Response, n: nat): Option<string>
    decreases |cmds|
  {
    if cmds == [] then None
    else match script(n + |cmds| - 1)
      case TransportError(m) => Some(QueryFailure(cmds[|cmds| - 1], m))
      case Reply(_) => LastFailure(cmds[..|cmds| - 1], script, n)
  }

  /** One more call at the end: it is the last failure if it failed. */
  lemma {:induction false} LastFailureSnoc(cmds: seq<string>, c: string, script: nat -> Response, n: nat)
    ensures LastFailure(cmds + [c], script, n) ==
      if script(n + |cmds|).TransportError? then Some(QueryFailure(c, script(n + |cmds|).message))
      else LastFailure(cmds, script, n)
  {
    assert (cmds + [c])[..|cmds|] == cmds;
  }

  /** `LastFailure` of three calls, spelled out. */
  lemma {:induction false} LastFailureOfThree(c0: string, c1: string, c2: string, script: nat -> Response, n: nat)
    ensures LastFailure([c0, c1, c2], script, n) ==
      if script(n + 2).TransportError? then Some(QueryFailure(c2, script(n + 2).message))
      else if script(n + 1).TransportError? then Some(QueryFailure(c1, script(n + 1).message))
      else if script(n).TransportError? then Some(QueryFailure(c0, script(n).message))
      else None
  {
    LastFailureSnoc([], c0, script, n);
    LastFailureSnoc([c0], c1, script, n);
    LastFailureSnoc([c0, c1], c2, script, n);
    assert [] + [c0] == [c0];
    assert [c0] + [c1] == [c0, c1];
    assert [c0, c1] + [c2] == [c0, c1, c2];
  }

  // ---------------------------------------------------------------- set-protocol

  const DefaultBuffer := "33554432"
  const DefaultThreads := "4"
  const ProtocolUsage := "protocol must be udp or udps"

  /** The outcome of validating the arguments of `?set-protocol`. */
  datatype ProtocolChoice = BadProtocol | BadNumber(message: string) | ProtocolCommand(cmd: string)

  /** `int(x)` of the arguments in the order the f-string evaluates them: the
      first that is not an integer gives its `ValueError` text. */
  function UdpsCommand(rcv: string, snd: string, threads: string): ProtocolChoice {
    match (ParseInt(rcv), ParseInt(snd), ParseInt(threads))
    case (None, _, _) => BadNumber(IntError(rcv))
    case (Some(_), None, _) => BadNumber(IntError(snd))
    case (Some(_), Some(_), None) => BadNumber(IntError(threads))
    case (Some(r), Some(b), Some(t)) =>
      ProtocolCommand("net_protocol = udps : " + IntToString(r) + " : " + IntToString(b) + " : " + IntToString(t))
  }

  /** Validation and command text of `?set-protocol proto rcv snd threads`. */
  function ChooseProtocol(proto: string, rcv: string, snd: string, threads: string): ProtocolChoice {
    var p := Lower(proto);
    if p != "udp" && p != "udps" then BadProtocol
    else if p == "udps" then UdpsCommand(rcv, snd, threads)
    else ProtocolCommand("net_protocol = udp")
  }

  /** A protocol other than udp or udps, in any case, is refused. */
  lemma {:induction false} ChooseProtocolRefuses(proto: string, rcv: string, snd: string, threads: string)
    ensures ChooseProtocol(proto, rcv, snd, threads) == BadProtocol <==> Lower(proto) != "udp" && Lower(proto) != "udps"
  {
  }

  /** For udp the buffer and thread arguments play no part. */
  lemma {:induction false} ChooseProtocolUdp(proto: string, rcv: string, snd: string, threads: string, rcv': string, snd': string, threads': string)
    requires Lower(proto) == "udp"
    ensures ChooseProtocol(proto, rcv, snd, threads) == ChooseProtocol(proto, rcv', snd', threads') == ProtocolCommand("net_protocol = udp")
  {
  }

  /** For udps a command is built exactly when all three arguments are
      integers, and it carries their canonical decimal text. */
  lemma {:induction false} ChooseProtocolUdps(proto: string, rcv: string, snd: string, threads: string)
    requires Lower(proto) == "udps"
    ensures ChooseProtocol(proto, rcv, snd, threads).ProtocolCommand? <==> IsIntLiteral(rcv) && IsIntLiteral(snd) && IsIntLiteral(threads)
    ensures !IsIntLiteral(rcv) ==> ChooseProtocol(proto, rcv, snd, threads) == BadNumber(IntError(rcv))
    ensures IsIntLiteral(rcv) && !IsIntLiteral(snd) ==> ChooseProtocol(proto, rcv, snd, threads) == BadNumber(IntError(snd))
    ensures IsIntLiteral(rcv) && IsIntLiteral(snd) && !IsIntLiteral(threads) ==> ChooseProtocol(proto, rcv, snd, threads) == BadNumber(IntError(threads))
  {
  }

  /** The default arguments are integers in canonical form. */
  lemma {:induction false} DefaultsAreCanonical()
    ensures IntToString(33554432) == DefaultBuffer && ParseInt(DefaultBuffer) == Some(33554432)
    ensures IntToString(4) == DefaultThreads && ParseInt(DefaultThreads) == Some(4)
  {
    assert NatToString(3) == "3";
    assert NatToString(33) == "33";
    assert NatToString(335) == "335";
    assert NatToString(3355) == "3355";
    assert NatToString(33554) == "33554";
    assert NatToString(335544) == "335544";
    assert NatToString(3355443) == "3355443";
    assert NatToString(33554432) == "33554432";
    IntRoundTrip(33554432);
    IntRoundTrip(4);
  }

  /** The command built from the defaults. */
  const DefaultUdpsCommand := "net_protocol = udps : " + DefaultBuffer + " : " + DefaultBuffer + " : " + DefaultThreads

  lemma {:induction false} UdpsDefaults()
    ensures UdpsCommand(DefaultBuffer, DefaultBuffer, DefaultThreads) == ProtocolCommand(DefaultUdpsCommand)
  {
    DefaultsAreCanonical();
  }

  /** The default arguments give the command for 32 MiB buffers and 4
      threads, their text carried over verbatim. */
  lemma {:induction false} ChooseProtocolDefaults(proto: string)
    requires Lower(proto) == "udps"
    ensures ChooseProtocol(proto, DefaultBuffer, DefaultBuffer, DefaultThreads) == ProtocolCommand(DefaultUdpsCommand)
  {
    assert ChooseProtocol(proto, DefaultBuffer, DefaultBuffer, DefaultThreads) == UdpsCommand(DefaultBuffer, DefaultBuffer, DefaultThreads);
    UdpsDefaults();
  }

  /** Integer arguments in canonical form appear verbatim in the command. */
  lemma {:induction false} ChooseProtocolCanonical(proto: string, rcv: int, snd: int, threads: int)
    requires Lower(proto) == "udps"
    ensures ChooseProtocol(proto, IntToString(rcv), IntToString(snd), IntToString(threads)) ==
      ProtocolCommand("net_protocol = udps : " + IntToString(rcv) + " : " + IntToString(snd) + " : " + IntToString(threads))
  {
    IntRoundTrip(rcv);
    IntRoundTrip(snd);
    IntRoundTrip(threads);
  }

  // ---------------------------------------------------------------- set-port

  /** The `ValueError` text of checking `?set-port destination`, or `None` when
      it is valid: with an `@`, the text after the first `@` must be an
      integer, else the whole destination must be. */
  function PortError(dest: string): (r: Option<string>)
    ensures r.Some? ==> exists t :: r == Some(IntError(t)) && !IsIntLiteral(t)
  {
    var port := match IndexOf(dest, '@') case Some(i) => dest[i + 1..] case None => dest;
    if IsIntLiteral(port) then None else Some(IntError(port))
  }

  /** `host@port` is valid exactly when `port` is an integer. */
  lemma {:induction false} PortErrorGroup(host: string, port: string)
    requires '@' !in host
    ensures PortError(host + "@" + port).None? <==> IsIntLiteral(port)
    ensures PortError(host + "@" + port).Some? ==> PortError(host + "@" + port) == Some(IntError(port))
  {
    var d := host + "@" + port;
    assert d[|host|] == '@';
    assert d[..|host|] == host;
    assert IndexOf(d, '@') == Some(|host|);
    assert d[|host| + 1..] == port;
  }

  /** Without `@` the destination is valid exactly when it is an integer. */
  lemma {:induction false} PortErrorPlain(dest: string)
    requires '@' !in dest
    ensures PortError(dest).None? <==> IsIntLiteral(dest)
  {
  }

  // ---------------------------------------------------------------- net2file start

  const OpenOk := "!net2file = 0"

  function OpenCommand(path: string): string {
    "net2file = open : " + path + ", w"
  }

  /** `net2file = on`, call `k`, after the commands `prefix`. */
  function SwitchOn(s: Sensors, script: nat -> Response, k: nat, prefix: seq<string>): Effect {
    match script(k)
    case TransportError(m) => Effect(s.(error := m), Fail(m), prefix + ["net2file = on"])
    case Reply(_) => Effect(s, Ok(""), prefix + ["net2file = on"])
  }

  /** The pre-poll part of `net2file-start` (`start` in the older proxy): open
      the file; when the reply is not `!net2file = 0`, connect and open once
      more, failing with "open failed" when that reply is not `!net2file = 0`
      either; then switch recording on. */
  function StartCapture(s: Sensors, script: nat -> Response, n: nat, path: string): (e: Effect) {
    var open := OpenCommand(path);
    match script(n)
    case TransportError(m) => Effect(s.(error := m), Fail(m), [open])
    case Reply(r) =>
      if StartsWith(r, OpenOk) then SwitchOn(s, script, n + 1, [open])
      else match script(n + 1)
        case TransportError(m) => Effect(s.(error := m), Fail(m), [open, "net2file = connect"])
        case Reply(_) =>
          match script(n + 2)
          case TransportError(m) => Effect(s.(error := m), Fail(m), [open, "net2file = connect", open])
          case Reply(r2) =>
            if StartsWith(r2, OpenOk) then SwitchOn(s, script, n + 3, [open, "net2file = connect", open])
            else Effect(s, Fail("open failed"), [open, "net2file = connect", open])
  }

  /** An accepted first open goes straight to `on`. */
  lemma {:induction false} StartCaptureDirect(s: Sensors, script: nat -> Response, n: nat, path: string)
    requires script(n).Reply? && StartsWith(script(n).text, OpenOk)
    ensures var e := StartCapture(s, script, n, path);
      e.outcome.Ok? <==> script(n + 1).Reply?
    ensures var e := StartCapture(s, script, n, path);
      e.sent == [OpenCommand(path), "net2file = on"] && "net2file = connect" !in e.sent
    ensures var e := StartCapture(s, script, n, path);
      e.outcome.Ok? ==> e.sensors == s
  {
  }

  /** A refused first open is followed by connect and a second open; once that
      is accepted, by `on`. */
  lemma {:induction false} StartCaptureFallback(s: Sensors, script: nat -> Response, n: nat, path: string)
    requires script(n).Reply? && !StartsWith(script(n).text, OpenOk)
    requires script(n + 1).Reply? && script(n + 2).Reply? && StartsWith(script(n + 2).text, OpenOk)
    ensures var e := StartCapture(s, script, n, path);
      e.sent == [OpenCommand(path), "net2file = connect", OpenCommand(path), "net2file = on"]
    ensures var e := StartCapture(s, script, n, path);
      e.outcome.Ok? <==> script(n + 3).Reply?
  {
  }

  /** Two refused opens end the request with "open failed": no `on` is sent
      and no sensor changes. */
  lemma {:induction false} StartCaptureOpenFailed(s: Sensors, script: nat -> Response, n: nat, path: string)
    requires script(n).Reply? && !StartsWith(script(n).text, OpenOk)
    requires script(n + 1).Reply? && script(n + 2).Reply? && !StartsWith(script(n + 2).text, OpenOk)
    ensures StartCapture(s, script, n, path) ==
      Effect(s, Fail("open failed"), [OpenCommand(path), "net2file = connect", OpenCommand(path)])
  {
  }

  /** Whatever the device answers, a transport error sets the error sensor to
      its text and is the reply; every other failure is "open failed". */
  lemma {:induction false} StartCaptureFailures(s: Sensors, script: nat -> Response, n: nat, path: string)
    ensures var e := StartCapture(s, script, n, path);
      e.outcome.Fail? ==>
        (e.outcome.message == "open failed" && e.sensors == s) ||
        (e.sensors == s.(error := e.outcome.message) &&
         script(n + |e.sent| - 1) == TransportError(e.outcome.message))
    ensures var e := StartCapture(s, script, n, path);
      e.outcome.Ok? ==> e.sensors == s && e.outcome.message == "" && e.sent[|e.sent| - 1] == "net2file = on"
  {
  }
}
