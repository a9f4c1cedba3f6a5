/** The KATCP proxy for jive5ab (`Jive5abServer` in
    scripts/jive5ab_katcp_proxy.py). Each request handler is specified by a
    function giving its `Effect` from the sensors before it, the device's
    scripted answers and the number of calls made so far; the class
    implements the handlers over its sensor fields and the control channel,
    statement by statement as the source does, and is proved to have exactly
    that effect. */
module Jive5abProxy {
  import opened PyText
  import opened JiveChannel
  import opened ReplyGrammar
  import opened ReplyParsers
  import opened ProxyCore

  const StatusQuery := "status?"
  const PollCommands: seq<string> := [StatusQuery, ProtocolQuery, PortQuery]
  const DefaultOutput := "/mnt/disk0/testscan/testscan.vdif"

  /** The `status?` step of `_poll_once`: a success sets the state and clears
      the error, a failure sets the error to `"status?: <err>"`. */
  function StatusStep(s: Sensors, r: Response): Sensors {
    match r
    case Reply(t) => s.(state := ParseStatus(t), error := "")
    case TransportError(m) => s.(error := QueryFailure(StatusQuery, m))
  }

  function ProtocolStep(s: Sensors, r: Response): Sensors {
    match r
    case Reply(t) => s.(proto := ParseProtocol(t))
    case TransportError(m) => s.(error := QueryFailure(ProtocolQuery, m))
  }

  function PortStep(s: Sensors, r: Response): Sensors {
    match r
    case Reply(t) => s.(nport := ParsePort(t))
    case TransportError(m) => s.(error := QueryFailure(PortQuery, m))
  }

  /** `_poll_once`: the three queries, each in its own `try`, whatever the
      earlier ones gave. */
  function PollOnceEffect(s: Sensors, script: nat -> Response, n: nat): Sensors {
    PortStep(ProtocolStep(StatusStep(s, script(n)), script(n + 1)), script(n + 2))
  }

  /** Each sensor is set from its own reply when that call succeeds and is
      left alone when it fails; the byte count is never touched. */
  lemma {:induction false} PollFields(s: Sensors, script: nat -> Response, n: nat)
    ensures var p := PollOnceEffect(s, script, n);
      p.state == (if script(n).Reply? then ParseStatus(script(n).text) else s.state) &&
      p.proto == (if script(n + 1).Reply? then ParseProtocol(script(n + 1).text) else s.proto) &&
      p.nport == (if script(n + 2).Reply? then ParsePort(script(n + 2).text) else s.nport) &&
      p.bytes == s.bytes
  {
  }

  /** After a poll the error sensor names the last failing query, or is empty
      when none failed. */
  lemma {:induction false} PollError(s: Sensors, script: nat -> Response, n: nat)
    ensures PollOnceEffect(s, script, n).error ==
      if LastFailure(PollCommands, script, n).None? then "" else LastFailure(PollCommands, script, n).value
  {
    LastFailureOfThree(StatusQuery, ProtocolQuery, PortQuery, script, n);
  }

  /** A handler's device commands followed by a poll when they all succeed. */
  function AndPoll(e: Effect, script: nat -> Response, n: nat): Effect {
    if e.outcome.Ok? then Effect(PollOnceEffect(e.sensors, script, n + |e.sent|), Ok(""), e.sent + PollCommands)
    else e
  }

  /** One device command followed by a poll: a transport error is reported and
      nothing is polled, else the poll runs and the reply is ok. */
  lemma {:induction false} CommandThenPoll(s: Sensors, script: nat -> Response, n: nat, cmd: string)
    ensures AndPoll(Sequence(s, script, n, [cmd]), script, n) ==
      if script(n).Reply? then Effect(PollOnceEffect(s, script, n + 1), Ok(""), [cmd] + PollCommands)
      else Effect(s.(error := script(n).message), Fail(script(n).message), [cmd])
  {
    SequenceOne(s, script, n, cmd);
  }

  // ---------------------------------------------------------------- the handlers

  function SetProtocolEffect(s: Sensors, script: nat -> Response, n: nat, proto: string, rcv: string, snd: string, threads: string): Effect {
    match ChooseProtocol(proto, rcv, snd, threads)
    case BadProtocol => Effect(s, Fail(ProtocolUsage), [])
    case BadNumber(m) => Effect(s, Fail(m), [])
    case ProtocolCommand(c) => AndPoll(Sequence(s, script, n, [c]), script, n)
  }

  function SetPortEffect(s: Sensors, script: nat -> Response, n: nat, dest: string): Effect {
    if PortError(dest).Some? then Effect(s, Fail("invalid port"), [])
    else AndPoll(Sequence(s, script, n, ["net_port = " + dest]), script, n)
  }

  function SetDisksEffect(s: Sensors, script: nat -> Response, n: nat, paths: seq<string>): Effect {
    if |paths| == 0 then Effect(s, Fail("provide at least one disk path"), [])
    else Sequence(s, script, n, ["set_disks = " + Join(":", paths)])
  }

  function RecordStartEffect(s: Sensors, script: nat -> Response, n: nat, scan: string): Effect {
    if scan == "" then Effect(s, Fail("scan_name required"), [])
    else AndPoll(Sequence(s, script, n, ["record = on:" + scan]), script, n)
  }

  function RecordStopEffect(s: Sensors, script: nat -> Response, n: nat): Effect {
    AndPoll(Sequence(s, script, n, ["record = off"]), script, n)
  }

  function RecordStatusEffect(s: Sensors, script: nat -> Response, n: nat): Effect {
    match script(n)
    case Reply(r) => Effect(s, Ok(RecordStatusText(r)), ["record?"])
    case TransportError(m) => Effect(s.(error := m), Fail(m), ["record?"])
  }

  function Net2fileStartEffect(s: Sensors, script: nat -> Response, n: nat, path: string): Effect {
    AndPoll(StartCapture(s, script, n, path), script, n)
  }

  const StopCommands: seq<string> := ["net2file = off", "net2file = flush", "net2file = close"]

  function Net2fileStopEffect(s: Sensors, script: nat -> Response, n: nat): Effect {
    AndPoll(Sequence(s, script, n, StopCommands), script, n)
  }

  /** The requests of the proxy, with their arguments. */
  datatype Request =
    | Status
    | SetProtocol(proto: string, rcv: string, snd: string, threads: string)
    | SetPort(destination: string)
    | SetDisks(paths: seq<string>)
    | RecordStart(scanName: string)
    | RecordStop
    | RecordStatus
    | Net2fileStart(outputPath: string)
    | Net2fileStop

  function Handle(req: Request, s: Sensors, script: nat -> Response, n: nat): Effect {
    match req
    case Status => Effect(s, Ok(StatusLine(s)), [])
    case SetProtocol(p, r, b, t) => SetProtocolEffect(s, script, n, p, r, b, t)
    case SetPort(d) => SetPortEffect(s, script, n, d)
    case SetDisks(ps) => SetDisksEffect(s, script, n, ps)
    case RecordStart(scan) => RecordStartEffect(s, script, n, scan)
    case RecordStop => RecordStopEffect(s, script, n)
    case RecordStatus => RecordStatusEffect(s, script, n)
    case Net2fileStart(path) => Net2fileStartEffect(s, script, n, path)
    case Net2fileStop => Net2fileStopEffect(s, script, n)
  }

  // ---------------------------------------------------------------- properties of the handlers

  /** A refused protocol is answered without contacting the device. */
  lemma {:induction false} SetProtocolRefused(s: Sensors, script: nat -> Response, n: nat, proto: string, rcv: string, snd: string, threads: string)
    requires Lower(proto) != "udp" && Lower(proto) != "udps"
    ensures SetProtocolEffect(s, script, n, proto, rcv, snd, threads) == Effect(s, Fail(ProtocolUsage), [])
  {
    ChooseProtocolRefuses(proto, rcv, snd, threads);
  }

  /** For udps, a buffer or thread count that is not an integer is answered
      with the `ValueError` text, without contacting the device and without
      touching the error sensor. */
  lemma {:induction false} SetProtocolBadNumber(s: Sensors, script: nat -> Response, n: nat, proto: string, rcv: string, snd: string, threads: string)
    requires Lower(proto) == "udps"
    requires !(IsIntLiteral(rcv) && IsIntLiteral(snd) && IsIntLiteral(threads))
    ensures var e := SetProtocolEffect(s, script, n, proto, rcv, snd, threads);
      e.sent == [] && e.sensors == s && e.outcome.Fail? &&
      (e.outcome.message == IntError(rcv) || e.outcome.message == IntError(snd) || e.outcome.message == IntError(threads))
  {
    ChooseProtocolUdps(proto, rcv, snd, threads);
  }

  /** A valid `?set-protocol` sends its command, then polls when it went through. */
  lemma {:induction false} SetProtocolSends(s: Sensors, script: nat -> Response, n: nat, proto: string, rcv: string, snd: string, threads: string)
    requires ChooseProtocol(proto, rcv, snd, threads).ProtocolCommand?
    ensures var c := ChooseProtocol(proto, rcv, snd, threads).cmd;
      SetProtocolEffect(s, script, n, proto, rcv, snd, threads) ==
        if script(n).Reply? then Effect(PollOnceEffect(s, script, n + 1), Ok(""), [c] + PollCommands)
        else Effect(s.(error := script(n).message), Fail(script(n).message), [c])
  {
    CommandThenPoll(s, script, n, ChooseProtocol(proto, rcv, snd, threads).cmd);
  }

  /** An invalid destination is answered with "invalid port" without contacting
      the device; a valid one is sent verbatim. */
  lemma {:induction false} SetPortSends(s: Sensors, script: nat -> Response, n: nat, dest: string)
    ensures PortError(dest).Some? ==> SetPortEffect(s, script, n, dest) == Effect(s, Fail("invalid port"), [])
    ensures PortError(dest).None? ==> (SetPortEffect(s, script, n, dest) ==
      if script(n).Reply? then Effect(PollOnceEffect(s, script, n + 1), Ok(""), ["net_port = " + dest] + PollCommands)
      else Effect(s.(error := script(n).message), Fail(script(n).message), ["net_port = " + dest]))
  {
    CommandThenPoll(s, script, n, "net_port = " + dest);
  }

  /** `?set-disks` sends the paths joined by `:` and does not poll. */
  lemma {:induction false} SetDisksSends(s: Sensors, script: nat -> Response, n: nat, paths: seq<string>)
    ensures |paths| == 0 ==> SetDisksEffect(s, script, n, paths) == Effect(s, Fail("provide at least one disk path"), [])
    ensures |paths| > 0 ==> (SetDisksEffect(s, script, n, paths) ==
      if script(n).Reply? then Effect(s, Ok(""), ["set_disks = " + Join(":", paths)])
      else Effect(s.(error := script(n).message), Fail(script(n).message), ["set_disks = " + Join(":", paths)]))
  {
    SequenceOne(s, script, n, "set_disks = " + Join(":", paths));
  }

  /** `?record-start` needs a scan name and sends `record = on:<scan>`. */
  lemma {:induction false} RecordStartSends(s: Sensors, script: nat -> Response, n: nat, scan: string)
    ensures scan == "" ==> RecordStartEffect(s, script, n, scan) == Effect(s, Fail("scan_name required"), [])
    ensures scan != "" ==> (RecordStartEffect(s, script, n, scan) ==
      if script(n).Reply? then Effect(PollOnceEffect(s, script, n + 1), Ok(""), ["record = on:" + scan] + PollCommands)
      else Effect(s.(error := script(n).message), Fail(script(n).message), ["record = on:" + scan]))
  {
    CommandThenPoll(s, script, n, "record = on:" + scan);
  }

  /** `?record-status` summarises a `record?` reply and changes no sensor unless
      the call fails. */
  lemma {:induction false} RecordStatusReplies(s: Sensors, script: nat -> Response, n: nat, pre: string, code: nat, word: string, count: string)
    requires script(n) == Reply(Head(pre, "!record?", code) + word + " : " + count + " ;")
    requires '!' !in pre && |word| > 0 && AllWord(word) && |count| > 0 && AllDigits(count)
    ensures RecordStatusEffect(s, script, n) == Effect(s, Ok(word + " " + count + "B"), ["record?"])
  {
    RecordStatusReads(pre, code, word, count, " ;");
  }

  /** `?net2file-stop` sends off, flush and close in that order, stopping at the
      first failure, and polls only when all three went through. */
  lemma {:induction false} Net2fileStopOrder(s: Sensors, script: nat -> Response, n: nat)
    ensures var e := Net2fileStopEffect(s, script, n);
      e.outcome.Ok? <==> script(n).Reply? && script(n + 1).Reply? && script(n + 2).Reply?
    ensures var e := Net2fileStopEffect(s, script, n);
      e.outcome.Ok? ==> e.sent == StopCommands + PollCommands && e.sensors == PollOnceEffect(s, script, n + 3)
    ensures var e := Net2fileStopEffect(s, script, n);
      e.outcome.Fail? ==> (0 < |e.sent| <= 3 && e.sent == StopCommands[..|e.sent|] &&
        script(n + |e.sent| - 1) == TransportError(e.outcome.message) && e.sensors == s.(error := e.outcome.message))
  {
    SequenceThree(s, script, n, StopCommands[0], StopCommands[1], StopCommands[2]);
    assert StopCommands == [StopCommands[0], StopCommands[1], StopCommands[2]];
  }

  /** A failure is a refusal before any device contact, an "open failed"
      (where `openFails` allows it) with no sensor changed, or a transport
      error, which is then also the text of the error sensor. */
  predicate FailureReported(e: Effect, s: Sensors, script: nat -> Response, n: nat, openFails: bool) {
    e.outcome.Fail? ==>
      (e.sent == [] && e.sensors == s) ||
      (openFails && e.outcome.message == "open failed" && e.sensors == s) ||
      (|e.sent| > 0 && script(n + |e.sent| - 1) == TransportError(e.outcome.message) &&
       e.sensors == s.(error := e.outcome.message))
  }

  /** A success replies with an empty message and has polled the device last. */
  predicate PolledLast(e: Effect, s: Sensors, script: nat -> Response, n: nat) {
    e.outcome.Ok? ==> (e.outcome.message == "" && |e.sent| >= 3 && e.sent[|e.sent| - 3..] == PollCommands &&
      e.sensors == PollOnceEffect(s, script, n + |e.sent| - 3))
  }

  /** `?set-protocol` reports its failures and polls after a success. */
  lemma {:induction false} SetProtocolReported(s: Sensors, script: nat -> Response, n: nat, proto: string, rcv: string, snd: string, threads: string)
    ensures var e := SetProtocolEffect(s, script, n, proto, rcv, snd, threads);
      FailureReported(e, s, script, n, false) && PolledLast(e, s, script, n)
  {
    match ChooseProtocol(proto, rcv, snd, threads) {
      case ProtocolCommand(c) =>
        SequenceOne(s, script, n, c);
        AndPollLast(Sequence(s, script, n, [c]), script, n);
      case _ =>
    }
  }

  lemma {:induction false} SetPortReported(s: Sensors, script: nat -> Response, n: nat, dest: string)
    ensures var e := SetPortEffect(s, script, n, dest);
      FailureReported(e, s, script, n, false) && PolledLast(e, s, script, n)
  {
    SequenceOne(s, script, n, "net_port = " + dest);
    AndPollLast(Sequence(s, script, n, ["net_port = " + dest]), script, n);
  }

  lemma {:induction false} RecordStartReported(s: Sensors, script: nat -> Response, n: nat, scan: string)
    ensures var e := RecordStartEffect(s, script, n, scan);
      FailureReported(e, s, script, n, false) && PolledLast(e, s, script, n)
  {
    SequenceOne(s, script, n, "record = on:" + scan);
    AndPollLast(Sequence(s, script, n, ["record = on:" + scan]), script, n);
  }

  lemma {:induction false} RecordStopReported(s: Sensors, script: nat -> Response, n: nat)
    ensures var e := RecordStopEffect(s, script, n);
      FailureReported(e, s, script, n, false) && PolledLast(e, s, script, n)
  {
    SequenceOne(s, script, n, "record = off");
    AndPollLast(Sequence(s, script, n, ["record = off"]), script, n);
  }

  lemma {:induction false} Net2fileStartReported(s: Sensors, script: nat -> Response, n: nat, path: string)
    ensures var e := Net2fileStartEffect(s, script, n, path);
      FailureReported(e, s, script, n, true) && PolledLast(e, s, script, n)
  {
    StartCaptureFailures(s, script, n, path);
    AndPollLast(StartCapture(s, script, n, path), script, n);
  }

  lemma {:induction false} Net2fileStopReported(s: Sensors, script: nat -> Response, n: nat)
    ensures var e := Net2fileStopEffect(s, script, n);
      FailureReported(e, s, script, n, false) && PolledLast(e, s, script, n)
  {
    SequenceEffect(s, script, n, StopCommands);
    AndPollLast(Sequence(s, script, n, StopCommands), script, n);
  }

  /** Every failure of every request is either a refusal before any device
      contact, an "open failed" of `?net2file-start` after two refused opens,
      or a transport error, which is then also the text of the error sensor. */
  lemma {:induction false} FailuresReported(req: Request, s: Sensors, script: nat -> Response, n: nat)
    ensures FailureReported(Handle(req, s, script, n), s, script, n, req.Net2fileStart?)
  {
    match req {
      case Status =>
      case SetProtocol(p, r, b, t) => SetProtocolReported(s, script, n, p, r, b, t);
      case SetPort(d) => SetPortReported(s, script, n, d);
      case SetDisks(ps) => SetDisksSends(s, script, n, ps);
      case RecordStart(scan) => RecordStartReported(s, script, n, scan);
      case RecordStop => RecordStopReported(s, script, n);
      case RecordStatus =>
      case Net2fileStart(path) => Net2fileStartReported(s, script, n, path);
      case Net2fileStop => Net2fileStopReported(s, script, n);
    }
  }

  /** Every request that succeeds and contacted the device has polled it last,
      except `?set-disks` and `?record-status`, which do not poll. */
  lemma {:induction false} SuccessPolls(req: Request, s: Sensors, script: nat -> Response, n: nat)
    requires !req.SetDisks? && !req.RecordStatus? && !req.Status?
    ensures PolledLast(Handle(req, s, script, n), s, script, n)
  {
    match req {
      case SetProtocol(p, r, b, t) => SetProtocolReported(s, script, n, p, r, b, t);
      case SetPort(d) => SetPortReported(s, script, n, d);
      case RecordStart(scan) => RecordStartReported(s, script, n, scan);
      case RecordStop => RecordStopReported(s, script, n);
      case Net2fileStart(path) => Net2fileStartReported(s, script, n, path);
      case Net2fileStop => Net2fileStopReported(s, script, n);
    }
  }

  /** What a handler that polls after its commands reports on success. */
  lemma {:induction false} AndPollLast(e: Effect, script: nat -> Response, n: nat)
    ensures var p := AndPoll(e, script, n);
      p.outcome.Ok? ==> (p.outcome.message == "" && |p.sent| >= 3 && p.sent[|p.sent| - 3..] == PollCommands &&
        p.sensors == PollOnceEffect(e.sensors, script, n + |p.sent| - 3))
  {
    var p := AndPoll(e, script, n);
    ThenPollLast(e, PollOnceEffect(e.sensors, script, n + |e.sent|), PollCommands, p);
    if p.outcome.Ok? {
      assert |PollCommands| == 3 && |p.sent| - 3 == |e.sent|;
    }
  }

  /** Switching capture on after `prefix`, then polling when that went
      through, spelled out. */
  lemma {:induction false} SwitchOnThenPollEffect(s: Sensors, script: nat -> Response, n: nat, prefix: seq<string>)
    ensures var k := n + |prefix|;
      AndPoll(SwitchOn(s, script, k, prefix), script, n) ==
        if script(k).TransportError? then Effect(s.(error := script(k).message), Fail(script(k).message), prefix + ["net2file = on"])
        else Effect(PollOnceEffect(s, script, k + 1), Ok(""), prefix + ["net2file = on"] + PollCommands)
  {
  }

  // ---------------------------------------------------------------- the server

  class Jive5abServer {
    var state: string
    var bytes: int
    var proto: string
    var nport: string
    var error: string
    const jive: ControlChannel

    function Readings(): Sensors
      reads this
    {
      Sensors(state, bytes, proto, nport, error)
    }

    /** The server with its sensors at their initial values and a fresh
        control channel to `jivePort`. */
    constructor (jivePort: int, script: nat -> Response)
      ensures jive.Valid() && Readings() == Initial
      ensures fresh(jive) && jive.port == jivePort && jive.script == script && jive.log == []
    {
      state := "unknown";
      bytes := 0;
      proto := "unknown";
      nport := "unknown";
      error := "";
      jive := new ControlChannel(jivePort, script);
    }

    /** The `except` clause of the handlers: record the error and fail with it. */
    method Report(err: string) returns (o: Outcome)
      modifies this
      ensures Readings() == old(Readings()).(error := err) && o == Fail(err)
    {
      error := err;
      o := Fail(err);
    }

    /** The `status?` query of `_poll_once`, in its own `try`. */
    method QueryStatus()
      requires jive.Valid()
      modifies this, jive
      ensures jive.Valid() && jive.sent == old(jive.sent) + 1 && jive.log == old(jive.log) + [StatusQuery]
      ensures Readings() == StatusStep(old(Readings()), jive.script(old(jive.sent)))
    {
      var r := jive.Command(StatusQuery);
      if r.Reply? {
        state := ParseStatus(r.text);
        error := "";
      } else {
        error := QueryFailure(StatusQuery, r.message);
      }
    }

    /** The `net_protocol?` query. */
    method QueryProtocol()
      requires jive.Valid()
      modifies this, jive
      ensures jive.Valid() && jive.sent == old(jive.sent) + 1 && jive.log == old(jive.log) + [ProtocolQuery]
      ensures Readings() == ProtocolStep(old(Readings()), jive.script(old(jive.sent)))
    {
      var r := jive.Command(ProtocolQuery);
      if r.Reply? {
        proto := ParseProtocol(r.text);
      } else {
        error := QueryFailure(ProtocolQuery, r.message);
      }
    }

    /** The `net_port?` query. */
    method QueryPort()
      requires jive.Valid()
      modifies this, jive
      ensures jive.Valid() && jive.sent == old(jive.sent) + 1 && jive.log == old(jive.log) + [PortQuery]
      ensures Readings() == PortStep(old(Readings()), jive.script(old(jive.sent)))
    {
      var r := jive.Command(PortQuery);
      if r.Reply? {
        nport := ParsePort(r.text);
      } else {
        error := QueryFailure(PortQuery, r.message);
      }
    }

    /** `_poll_once`: the three queries in turn. */
    method PollOnce()
      requires jive.Valid()
      modifies this, jive
      ensures jive.Valid()
      ensures jive.log == old(jive.log) + PollCommands
      ensures Readings() == PollOnceEffect(old(Readings()), jive.script, old(jive.sent))
    {
      ghost var l := jive.log;
      QueryStatus();
      QueryProtocol();
      QueryPort();
      AppendThree(l, StatusQuery, ProtocolQuery, PortQuery);
    }

    method Status() returns (o: Outcome)
      ensures o == Ok(StatusLine(Readings()))
    {
      o := Ok(state + " " + IntToString(bytes) + "B " + proto + " " + nport);
    }

    method SetProtocol(proto: string, rcv: string := DefaultBuffer, snd: string := DefaultBuffer, threads: string := DefaultThreads)
      returns (o: Outcome)
      requires jive.Valid()
      modifies this, jive
      ensures jive.Valid()
      ensures var e := SetProtocolEffect(old(Readings()), jive.script, old(jive.sent), proto, rcv, snd, threads);
        Readings() == e.sensors && o == e.outcome && jive.log == old(jive.log) + e.sent
    {
      ghost var s, n := Readings(), jive.sent;
      match ChooseProtocol(proto, rcv, snd, threads) {
        case BadProtocol => return Fail(ProtocolUsage);
        case BadNumber(m) => return Fail(m);
        case ProtocolCommand(cmd) =>
          SetProtocolSends(s, jive.script, n, proto, rcv, snd, threads);
          var r := jive.Command(cmd);
          if r.TransportError? {
            o := Report(r.message);
            return;
          }
          PollOnce();
          return Ok("");
      }
    }

    method SetPort(destination: string) returns (o: Outcome)
      requires jive.Valid()
      modifies this, jive
      ensures jive.Valid()
      ensures var e := SetPortEffect(old(Readings()), jive.script, old(jive.sent), destination);
        Readings() == e.sensors && o == e.outcome && jive.log == old(jive.log) + e.sent
    {
      ghost var s, n := Readings(), jive.sent;
      SetPortSends(s, jive.script, n, destination);
      if PortError(destination).Some? {
        return Fail("invalid port");
      }
      var r := jive.Command("net_port = " + destination);
      if r.TransportError? {
        o := Report(r.message);
        return;
      }
      PollOnce();
      return Ok("");
    }

    method SetDisks(paths: seq<string>) returns (o: Outcome)
      requires jive.Valid()
      modifies this, jive
      ensures jive.Valid()
      ensures var e := SetDisksEffect(old(Readings()), jive.script, old(jive.sent), paths);
        Readings() == e.sensors && o == e.outcome && jive.log == old(jive.log) + e.sent
    {
      ghost var s, n := Readings(), jive.sent;
      SetDisksSends(s, jive.script, n, paths);
      if |paths| == 0 {
        return Fail("provide at least one disk path");
      }
      var r := jive.Command("set_disks = " + Join(":", paths));
      if r.TransportError? {
        o := Report(r.message);
        return;
      }
      return Ok("");
    }

    method RecordStart(scanName: string) returns (o: Outcome)
      requires jive.Valid()
      modifies this, jive
      ensures jive.Valid()
      ensures var e := RecordStartEffect(old(Readings()), jive.script, old(jive.sent), scanName);
        Readings() == e.sensors && o == e.outcome && jive.log == old(jive.log) + e.sent
    {
      ghost var s, n := Readings(), jive.sent;
      RecordStartSends(s, jive.script, n, scanName);
      if scanName == "" {
        return Fail("scan_name required");
      }
      var r := jive.Command("record = on:" + scanName);
      if r.TransportError? {
        o := Report(r.message);
        return;
      }
      PollOnce();
      return Ok("");
    }

    method RecordStop() returns (o: Outcome)
      requires jive.Valid()
      modifies this, jive
      ensures jive.Valid()
      ensures var e := RecordStopEffect(old(Readings()), jive.script, old(jive.sent));
        Readings() == e.sensors && o == e.outcome && jive.log == old(jive.log) + e.sent
    {
      ghost var s, n := Readings(), jive.sent;
      CommandThenPoll(s, jive.script, n, "record = off");
      var r := jive.Command("record = off");
      if r.TransportError? {
        o := Report(r.message);
        return;
      }
      PollOnce();
      return Ok("");
    }

    method RecordStatus() returns (o: Outcome)
      requires jive.Valid()
      modifies this, jive
      ensures jive.Valid()
      ensures var e := RecordStatusEffect(old(Readings()), jive.script, old(jive.sent));
        Readings() == e.sensors && o == e.outcome && jive.log == old(jive.log) + e.sent
    {
      var r := jive.Command("record?");
      if r.TransportError? {
        o := Report(r.message);
        return;
      }
      return Ok(RecordStatusText(r.text));
    }

    method Net2fileStart(outputPath: string := DefaultOutput) returns (o: Outcome)
      requires jive.Valid()
      modifies this, jive
      ensures jive.Valid()
      ensures var e := Net2fileStartEffect(old(Readings()), jive.script, old(jive.sent), outputPath);
        Readings() == e.sensors && o == e.outcome && jive.log == old(jive.log) + e.sent
    {
      ghost var s, n, l := Readings(), jive.sent, jive.log;
      var open := OpenCommand(outputPath);
      var r := jive.Command(open);
      if r.TransportError? {
        o := Report(r.message);
        return;
      }
      ghost var prefix := [open];
      if !StartsWith(r.text, OpenOk) {
        var c := jive.Command("net2file = connect");
        if c.TransportError? {
          o := Report(c.message);
          return;
        }
        var r2 := jive.Command(open);
        if r2.TransportError? {
          o := Report(r2.message);
          assert jive.log == l + [open, "net2file = connect", open];
          return;
        }
        assert jive.log == l + [open, "net2file = connect", open];
        if !StartsWith(r2.text, OpenOk) {
          return Fail("open failed");
        }
        prefix := [open, "net2file = connect", open];
      }
      assert StartCapture(s, jive.script, n, outputPath) == SwitchOn(s, jive.script, n + |prefix|, prefix);
      SwitchOnThenPollEffect(s, jive.script, n, prefix);
      assert jive.log == l + prefix && jive.sent == n + |prefix|;
      o := SwitchOnThenPoll();
      AppendAssoc(l, prefix, ["net2file = on"]);
      AppendAssoc(l, prefix + ["net2file = on"], PollCommands);
    }

    /** `net2file = on` and then, when it went through, `_poll_once`; a
        transport error is reported. */
    method SwitchOnThenPoll() returns (o: Outcome)
      requires jive.Valid()
      modifies this, jive
      ensures jive.Valid()
      ensures var k := old(jive.sent);
        if jive.script(k).TransportError? then
          Readings() == old(Readings()).(error := jive.script(k).message) && o == Fail(jive.script(k).message) &&
          jive.log == old(jive.log) + ["net2file = on"]
        else
          Readings() == PollOnceEffect(old(Readings()), jive.script, k + 1) && o == Ok("") &&
          jive.log == old(jive.log) + ["net2file = on"] + PollCommands
    {
      var on := jive.Command("net2file = on");
      if on.TransportError? {
        o := Report(on.message);
        return;
      }
      PollOnce();
      return Ok("");
    }

    method Net2fileStop() returns (o: Outcome)
      requires jive.Valid()
      modifies this, jive
      ensures jive.Valid()
      ensures var e := Net2fileStopEffect(old(Readings()), jive.script, old(jive.sent));
        Readings() == e.sensors && o == e.outcome && jive.log == old(jive.log) + e.sent
    {
      ghost var s, n := Readings(), jive.sent;
      Net2fileStopOrder(s, jive.script, n);
      var r := jive.Command("net2file = off");
      if r.TransportError? {
        o := Report(r.message);
        return;
      }
      r := jive.Command("net2file = flush");
      if r.TransportError? {
        o := Report(r.message);
        return;
      }
      r := jive.Command("net2file = close");
      if r.TransportError? {
        o := Report(r.message);
        return;
      }
      PollOnce();
      return Ok("");
    }
  }
}
