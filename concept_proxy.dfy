/** The older KATCP proxy for jive5ab (`Jive5abServer` in
    archive/concept/aiokatcp_jive5ab.py). It polls `net2file?` instead of
    `status?`, catches every exception, and reports invalid integer arguments
    through the error sensor as well as in the reply. */
module ConceptProxy {
  import opened PyText
  import opened JiveChannel
  import opened ReplyParsers
  import opened ProxyCore

  const Net2fileQuery := "net2file?"
  const PollCommands: seq<string> := [Net2fileQuery, ProtocolQuery, PortQuery]
  const DefaultOutput := "/data/testscan/testscan.vdif"
  const StopCommands: seq<string> := ["net2file = off", "net2file = flush", "net2file = close"]

  /** The `net2file?` step of `_poll_once`: a success sets state and byte count
      together and clears the error. */
  function Net2fileStep(s: Sensors, r: Response): Sensors {
    match r
    case Reply(t) => s.(state := ParseNet2file(t).0, bytes := ParseNet2file(t).1, error := "")
    case TransportError(m) => s.(error := QueryFailure(Net2fileQuery, m))
  }

  function ProtocolStep(s: Sensors, r: Response): Sensors {
    match r
    case Reply(t) => s.(proto := ParseProtocol(t))
    case TransportError(m) => s.(error := QueryFailure(ProtocolQuery, m))
  }

  function PortStep(s: Sensors, r: Response): Sensors {
    match r
    case Reply(t) => s.(nport := ParsePort(t))
    case TransportError(m) => s.(error := QueryFailure(PortQuery, m))
  }

  /** `_poll_once`: the three queries, each in its own `try`. */
  function PollOnceEffect(s: Sensors, script: nat -> Response, n: nat): Sensors {
    PortStep(ProtocolStep(Net2fileStep(s, script(n)), script(n + 1)), script(n + 2))
  }

  /** State and byte count come from one `net2file?` reply or both stay; each
      other sensor is set from its own reply or stays. */
  lemma {:induction false} PollFields(s: Sensors, script: nat -> Response, n: nat)
    ensures var p := PollOnceEffect(s, script, n);
      (p.state, p.bytes) == (if script(n).Reply? then ParseNet2file(script(n).text) else (s.state, s.bytes)) &&
      p.proto == (if script(n + 1).Reply? then ParseProtocol(script(n + 1).text) else s.proto) &&
      p.nport == (if script(n + 2).Reply? then ParsePort(script(n + 2).text) else s.nport)
  {
  }

  /** After a poll the error sensor names the last failing query, or is empty
      when none failed. */
  lemma {:induction false} PollError(s: Sensors, script: nat -> Response, n: nat)
    ensures PollOnceEffect(s, script, n).error ==
      if LastFailure(PollCommands, script, n).None? then "" else LastFailure(PollCommands, script, n).value
  {
    LastFailureOfThree(Net2fileQuery, ProtocolQuery, PortQuery, script, n);
  }

  function AndPoll(e: Effect, script: nat -> Response, n: nat): Effect {
    if e.outcome.Ok? then Effect(PollOnceEffect(e.sensors, script, n + |e.sent|), Ok(""), e.sent + PollCommands)
    else e
  }

  // ---------------------------------------------------------------- the handlers

  function StartEffect(s: Sensors, script: nat -> Response, n: nat, path: string): Effect {
    AndPoll(StartCapture(s, script, n, path), script, n)
  }

  function StopEffect(s: Sensors, script: nat -> Response, n: nat): Effect {
    AndPoll(Sequence(s, script, n, StopCommands), script, n)
  }

  function SetProtocolEffect(s: Sensors, script: nat -> Response, n: nat, proto: string, rcv: string, snd: string, threads: string): Effect {
    match ChooseProtocol(proto, rcv, snd, threads)
    case BadProtocol => Effect(s, Fail(ProtocolUsage), [])
    case BadNumber(m) => Effect(s.(error := m), Fail(m), [])
    case ProtocolCommand(c) => AndPoll(Sequence(s, script, n, [c]), script, n)
  }

  function SetPortEffect(s: Sensors, script: nat -> Response, n: nat, dest: string): Effect {
    match PortError(dest)
    case Some(m) => Effect(s.(error := m), Fail(m), [])
    case None => AndPoll(Sequence(s, script, n, ["net_port = " + dest]), script, n)
  }

  /** One device command followed by a poll. */
  lemma {:induction false} CommandThenPoll(s: Sensors, script: nat -> Response, n: nat, cmd: string)
    ensures AndPoll(Sequence(s, script, n, [cmd]), script, n) ==
      if script(n).Reply? then Effect(PollOnceEffect(s, script, n + 1), Ok(""), [cmd] + PollCommands)
      else Effect(s.(error := script(n).message), Fail(script(n).message), [cmd])
  {
    SequenceOne(s, script, n, cmd);
  }

  // ---------------------------------------------------------------- properties of the handlers

  /** A refused protocol is answered without device contact and without
      touching the error sensor. */
  lemma {:induction false} SetProtocolRefused(s: Sensors, script: nat -> Response, n: nat, proto: string, rcv: string, snd: string, threads: string)
    requires Lower(proto) != "udp" && Lower(proto) != "udps"
    ensures SetProtocolEffect(s, script, n, proto, rcv, snd, threads) == Effect(s, Fail(ProtocolUsage), [])
  {
    ChooseProtocolRefuses(proto, rcv, snd, threads);
  }

  /** For udps, an argument that is not an integer is reported in the error
      sensor and the reply, with no command sent. */
  lemma {:induction false} SetProtocolBadNumber(s: Sensors, script: nat -> Response, n: nat, proto: string, rcv: string, snd: string, threads: string)
    requires Lower(proto) == "udps"
    requires !(IsIntLiteral(rcv) && IsIntLiteral(snd) && IsIntLiteral(threads))
    ensures var e := SetProtocolEffect(s, script, n, proto, rcv, snd, threads);
      e.sent == [] && e.outcome.Fail? && e.sensors == s.(error := e.outcome.message) &&
      (e.outcome.message == IntError(rcv) || e.outcome.message == IntError(snd) || e.outcome.message == IntError(threads))
  {
    ChooseProtocolUdps(proto, rcv, snd, threads);
  }

  /** A valid `?set-protocol` sends its command, then polls when it went through. */
  lemma {:induction false} SetProtocolSends(s: Sensors, script: nat -> Response, n: nat, proto: string, rcv: string, snd: string, threads: string)
    requires ChooseProtocol(proto, rcv, snd, threads).ProtocolCommand?
    ensures var c := ChooseProtocol(proto, rcv, snd, threads).cmd;
      SetProtocolEffect(s, script, n, proto, rcv, snd, threads) ==
        if script(n).Reply? then Effect(PollOnceEffect(s, script, n + 1), Ok(""), [c] + PollCommands)
        else Effect(s.(error := script(n).message), Fail(script(n).message), [c])
  {
    CommandThenPoll(s, script, n, ChooseProtocol(proto, rcv, snd, threads).cmd);
  }

  /** An invalid destination puts the `ValueError` text in the error sensor and
      the reply and sends nothing; a valid one is sent verbatim. */
  lemma {:induction false} SetPortSends(s: Sensors, script: nat -> Response, n: nat, dest: string)
    ensures PortError(dest).Some? ==> (SetPortEffect(s, script, n, dest) ==
      Effect(s.(error := PortError(dest).value), Fail(PortError(dest).value), []))
    ensures PortError(dest).None? ==> (SetPortEffect(s, script, n, dest) ==
      if script(n).Reply? then Effect(PollOnceEffect(s, script, n + 1), Ok(""), ["net_port = " + dest] + PollCommands)
      else Effect(s.(error := script(n).message), Fail(script(n).message), ["net_port = " + dest]))
  {
    CommandThenPoll(s, script, n, "net_port = " + dest);
  }

  /** A `?start` that succeeds has switched capture on and then polled. */
  lemma {:induction false} StartSucceeds(s: Sensors, script: nat -> Response, n: nat, path: string)
    ensures var e := StartEffect(s, script, n, path);
      e.outcome.Ok? ==> (|e.sent| >= 4 && e.sent[|e.sent| - 4] == "net2file = on" &&
        e.sent[|e.sent| - 3..] == PollCommands && e.sensors == PollOnceEffect(s, script, n + |e.sent| - 3))
  {
    var c := StartCapture(s, script, n, path);
    StartCaptureFailures(s, script, n, path);
    if c.outcome.Ok? {
      var e := AndPoll(c, script, n);
      assert |PollCommands| == 3 && e.sent == c.sent + PollCommands && |e.sent| - 3 == |c.sent|;
      assert e.sent[|e.sent| - 4] == c.sent[|c.sent| - 1];
      assert e.sent[|e.sent| - 3..] == PollCommands;
    }
  }

  /** A `?start` that fails has not polled: the failure is "open failed" with no
      sensor changed, or a transport error, which is then also the text of the
      error sensor. */
  lemma {:induction false} StartFails(s: Sensors, script: nat -> Response, n: nat, path: string)
    ensures var e := StartEffect(s, script, n, path);
      e.outcome.Fail? ==> (e == StartCapture(s, script, n, path) &&
        ((e.outcome.message == "open failed" && e.sensors == s) ||
         (e.sensors == s.(error := e.outcome.message) && script(n + |e.sent| - 1) == TransportError(e.outcome.message))))
  {
    StartCaptureFailures(s, script, n, path);
  }

  /** What a handler that polls after its commands reports on success. */
  lemma {:induction false} AndPollLast(e: Effect, script: nat -> Response, n: nat)
    ensures var p := AndPoll(e, script, n);
      p.outcome.Ok? ==> (p.outcome.message == "" && |p.sent| >= 3 && p.sent[|p.sent| - 3..] == PollCommands &&
        p.sensors == PollOnceEffect(e.sensors, script, n + |p.sent| - 3))
  {
    var p := AndPoll(e, script, n);
    ThenPollLast(e, PollOnceEffect(e.sensors, script, n + |e.sent|), PollCommands, p);
    if p.outcome.Ok? {
      assert |PollCommands| == 3 && |p.sent| - 3 == |e.sent|;
    }
  }

  /** `?stop` sends off, flush and close in order, stopping at the first
      failure, and polls when all three went through. */
  lemma {:induction false} StopOrder(s: Sensors, script: nat -> Response, n: nat)
    ensures var e := StopEffect(s, script, n);
      e.outcome.Ok? <==> script(n).Reply? && script(n + 1).Reply? && script(n + 2).Reply?
    ensures var e := StopEffect(s, script, n);
      e.outcome.Ok? ==> e.sent == StopCommands + PollCommands && e.sensors == PollOnceEffect(s, script, n + 3)
    ensures var e := StopEffect(s, script, n);
      e.outcome.Fail? ==> (0 < |e.sent| <= 3 && e.sent == StopCommands[..|e.sent|] &&
        script(n + |e.sent| - 1) == TransportError(e.outcome.message) && e.sensors == s.(error := e.outcome.message))
  {
    SequenceThree(s, script, n, StopCommands[0], StopCommands[1], StopCommands[2]);
    assert StopCommands == [StopCommands[0], StopCommands[1], StopCommands[2]];
  }

  /** Switching capture on after `prefix`, then polling when that went
      through, spelled out. */
  lemma {:induction false} SwitchOnThenPollEffect(s: Sensors, script: nat -> Response, n: nat, prefix: seq<string>)
    ensures var k := n + |prefix|;
      AndPoll(SwitchOn(s, script, k, prefix), script, n) ==
        if script(k).TransportError? then Effect(s.(error := script(k).message), Fail(script(k).message), prefix + ["net2file = on"])
        else Effect(PollOnceEffect(s, script, k + 1), Ok(""), prefix + ["net2file = on"] + PollCommands)
  {
  }

  // ---------------------------------------------------------------- the server

  class Jive5abServer {
    var state: string
    var bytes: int
    var proto: string
    var nport: string
    var error: string
    const jive: ControlChannel

    function Readings(): Sensors
      reads this
    {
      Sensors(state, bytes, proto, nport, error)
    }

    constructor (jivePort: int, script: nat -> Response)
      ensures jive.Valid() && Readings() == Initial
      ensures fresh(jive) && jive.port == jivePort && jive.script == script && jive.log == []
    {
      state := "unknown";
      bytes := 0;
      proto := "unknown";
      nport := "unknown";
      error := "";
      jive := new ControlChannel(jivePort, script);
    }

    /** The `except Exception as e` clause: record `str(e)` and fail with it. */
    method Report(err: string) returns (o: Outcome)
      modifies this
      ensures Readings() == old(Readings()).(error := err) && o == Fail(err)
    {
      error := err;
      o := Fail(err);
    }

    /** The `net2file?` query of `_poll_once`, in its own `try`. */
    method QueryNet2file()
      requires jive.Valid()
      modifies this, jive
      ensures jive.Valid() && jive.sent == old(jive.sent) + 1 && jive.log == old(jive.log) + [Net2fileQuery]
      ensures Readings() == Net2fileStep(old(Readings()), jive.script(old(jive.sent)))
    {
      var r := jive.Command(Net2fileQuery);
      if r.Reply? {
        var (st, b) := ParseNet2file(r.text);
        state := st;
        bytes := b;
        error := "";
      } else {
        error := QueryFailure(Net2fileQuery, r.message);
      }
    }

    /** The `net_protocol?` query. */
    method QueryProtocol()
      requires jive.Valid()
      modifies this, jive
      ensures jive.Valid() && jive.sent == old(jive.sent) + 1 && jive.log == old(jive.log) + [ProtocolQuery]
      ensures Readings() == ProtocolStep(old(Readings()), jive.script(old(jive.sent)))
    {
      var r := jive.Command(ProtocolQuery);
      if r.Reply? {
        proto := ParseProtocol(r.text);
      } else {
        error := QueryFailure(ProtocolQuery, r.message);
      }
    }

    /** The `net_port?` query. */
    method QueryPort()
      requires jive.Valid()
      modifies this, jive
      ensures jive.Valid() && jive.sent == old(jive.sent) + 1 && jive.log == old(jive.log) + [PortQuery]
      ensures Readings() == PortStep(old(Readings()), jive.script(old(jive.sent)))
    {
      var r := jive.Command(PortQuery);
      if r.Reply? {
        nport := ParsePort(r.text);
      } else {
        error := QueryFailure(PortQuery, r.message);
      }
    }

    /** `_poll_once`: the three queries in turn. */
    method PollOnce()
      requires jive.Valid()
      modifies this, jive
      ensures jive.Valid()
      ensures jive.log == old(jive.log) + PollCommands
      ensures Readings() == PollOnceEffect(old(Readings()), jive.script, old(jive.sent))
    {
      ghost var l := jive.log;
      QueryNet2file();
      QueryProtocol();
      QueryPort();
      AppendThree(l, Net2fileQuery, ProtocolQuery, PortQuery);
    }

    method Status() returns (o: Outcome)
      ensures o == Ok(StatusLine(Readings()))
    {
      o := Ok(state + " " + IntToString(bytes) + "B " + proto + " " + nport);
    }

    method Start(outputPath: string := DefaultOutput) returns (o: Outcome)
      requires jive.Valid()
      modifies this, jive
      ensures jive.Valid()
      ensures var e := StartEffect(old(Readings()), jive.script, old(jive.sent), outputPath);
        Readings() == e.sensors && o == e.outcome && jive.log == old(jive.log) + e.sent
    {
      ghost var s, n, l := Readings(), jive.sent, jive.log;
      var open := OpenCommand(outputPath);
      var r := jive.Command(open);
      if r.TransportError? {
        o := Report(r.message);
        return;
      }
      ghost var prefix := [open];
      if !StartsWith(r.text, OpenOk) {
        var c := jive.Command("net2file = connect");
        if c.TransportError? {
          o := Report(c.message);
          return;
        }
        var r2 := jive.Command(open);
        if r2.TransportError? {
          o := Report(r2.message);
          assert jive.log == l + [open, "net2file = connect", open];
          return;
        }
        assert jive.log == l + [open, "net2file = connect", open];
        if !StartsWith(r2.text, OpenOk) {
          return Fail("open failed");
        }
        prefix := [open, "net2file = connect", open];
      }
      assert StartCapture(s, jive.script, n, outputPath) == SwitchOn(s, jive.script, n + |prefix|, prefix);
      SwitchOnThenPollEffect(s, jive.script, n, prefix);
      assert jive.log == l + prefix && jive.sent == n + |prefix|;
      o := SwitchOnThenPoll();
      AppendAssoc(l, prefix, ["net2file = on"]);
      AppendAssoc(l, prefix + ["net2file = on"], PollCommands);
    }

    /** `net2file = on` and then, when it went through, `_poll_once`; a
        transport error is reported. */
    method SwitchOnThenPoll() returns (o: Outcome)
      requires jive.Valid()
      modifies this, jive
      ensures jive.Valid()
      ensures var k := old(jive.sent);
        if jive.script(k).TransportError? then
          Readings() == old(Readings()).(error := jive.script(k).message) && o == Fail(jive.script(k).message) &&
          jive.log == old(jive.log) + ["net2file = on"]
        else
          Readings() == PollOnceEffect(old(Readings()), jive.script, k + 1) && o == Ok("") &&
          jive.log == old(jive.log) + ["net2file = on"] + PollCommands
    {
      var on := jive.Command("net2file = on");
      if on.TransportError? {
        o := Report(on.message);
        return;
      }
      PollOnce();
      return Ok("");
    }

    method Stop() returns (o: Outcome)
      requires jive.Valid()
      modifies this, jive
      ensures jive.Valid()
      ensures var e := StopEffect(old(Readings()), jive.script, old(jive.sent));
        Readings() == e.sensors && o == e.outcome && jive.log == old(jive.log) + e.sent
    {
      ghost var s, n := Readings(), jive.sent;
      StopOrder(s, jive.script, n);
      var r := jive.Command("net2file = off");
      if r.TransportError? {
        o := Report(r.message);
        return;
      }
      r := jive.Command("net2file = flush");
      if r.TransportError? {
        o := Report(r.message);
        return;
      }
      r := jive.Command("net2file = close");
      if r.TransportError? {
        o := Report(r.message);
        return;
      }
      PollOnce();
      return Ok("");
    }

    method SetProtocol(proto: string, rcv: string := DefaultBuffer, snd: string := DefaultBuffer, threads: string := DefaultThreads)
      returns (o: Outcome)
      requires jive.Valid()
      modifies this, jive
      ensures jive.Valid()
      ensures var e := SetProtocolEffect(old(Readings()), jive.script, old(jive.sent), proto, rcv, snd, threads);
        Readings() == e.sensors && o == e.outcome && jive.log == old(jive.log) + e.sent
    {
      ghost var s, n := Readings(), jive.sent;
      match ChooseProtocol(proto, rcv, snd, threads) {
        case BadProtocol => return Fail(ProtocolUsage);
        case BadNumber(m) =>
          o := Report(m);
          return;
        case ProtocolCommand(cmd) =>
          SetProtocolSends(s, jive.script, n, proto, rcv, snd, threads);
          var r := jive.Command(cmd);
          if r.TransportError? {
            o := Report(r.message);
            return;
          }
          PollOnce();
          return Ok("");
      }
    }

    method SetPort(destination: string) returns (o: Outcome)
      requires jive.Valid()
      modifies this, jive
      ensures jive.Valid()
      ensures var e := SetPortEffect(old(Readings()), jive.script, old(jive.sent), destination);
        Readings() == e.sensors && o == e.outcome && jive.log == old(jive.log) + e.sent
    {
      ghost var s, n := Readings(), jive.sent;
      SetPortSends(s, jive.script, n, destination);
      var invalid := PortError(destination);
      if invalid.Some? {
        o := Report(invalid.value);
        return;
      }
      var r := jive.Command("net_port = " + destination);
      if r.TransportError? {
        o := Report(r.message);
        return;
      }
      PollOnce();
      return Ok("");
    }
  }
}
