/** The one I/O primitive of the proxy, `jive_cmd`: send one command to the
    jive5ab control port and return its reply. The socket is an oracle: the
    outcome of the n-th call is `script(n)`, fixed in advance, so every
    handler becomes a function of the sensors, the script and the number of
    calls made so far. */
module JiveChannel {
  import opened PyText

  /** What one call of `jive_cmd` yields: the decoded reply text, or the
      `asyncio.TimeoutError` / `OSError` it raises, as its `str()`. */
  datatype Response = Reply(text: string) | TransportError(message: string)

  /** The text written to the socket for `cmd`: surrounding whitespace removed,
      then the jive5ab terminator `;` and a newline. */
  function Frame(cmd: string): (f: string)
    ensures |f| >= 2 && f[|f| - 2..] == ";\n"
    ensures f[..|f| - 2] == Strip(cmd)
  {
    Strip(cmd) + ";\n"
  }

  /** Framing ignores surrounding whitespace, and framing the command part of
      a frame again gives the same frame. */
  lemma {:induction false} FrameNormalises(cmd: string, pad1: string, pad2: string)
    requires AllSpace(pad1) && AllSpace(pad2)
    ensures Frame(pad1 + cmd + pad2) == Frame(cmd)
    ensures var f := Frame(cmd); Frame(f[..|f| - 2]) == f
  {
    StripPadding(pad1, cmd, pad2);
    StripIdempotent(cmd);
  }

  /** The texts written to the socket for the commands `cmds`, one frame per
      call, in order. */
  function Wire(cmds: seq<string>): (w: seq<string>)
    ensures |w| == |cmds|
  {
    if |cmds| == 0 then [] else Wire(cmds[..|cmds| - 1]) + [Frame(cmds[|cmds| - 1])]
  }

  /** Text i on the wire is the framing of command i. */
  lemma {:induction false} WireAt(cmds: seq<string>, i: nat)
    requires i < |cmds|
    ensures Wire(cmds)[i] == Frame(cmds[i])
    decreases |cmds|
  {
    if i < |cmds| - 1 {
      WireAt(cmds[..|cmds| - 1], i);
    }
  }

  /** Two command lists sent one after the other write their two wires one
      after the other. */
  lemma {:induction false} WireAppend(a: seq<string>, b: seq<string>)
    ensures Wire(a + b) == Wire(a) + Wire(b)
    decreases |b|
  {
    if |b| > 0 {
      var b' := b[..|b| - 1];
      assert (a + b)[..|a + b| - 1] == a + b';
      assert (a + b)[|a + b| - 1] == b[|b| - 1];
      WireAppend(a, b');
    } else {
      assert a + b == a;
    }
  }

  /** One more call writes exactly the framing of its command: after
      `Command(cmd)`, whose log is the old log and `cmd`, `Written()` is the old
      `Written()` and `Frame(cmd)`. */
  lemma {:induction false} CommandWrites(log: seq<string>, cmd: string)
    ensures Wire(log + [cmd]) == Wire(log) + [Frame(cmd)]
  {
    assert (log + [cmd])[..|log|] == log;
  }

  /** The control channel to one jive5ab instance. `sent` counts the calls made
      and `log` records the command of each call, in order. `Written()` is the
      framing of each logged command, what each call writes once its
      connection is open: `CommandWrites` shows that one call adds exactly
      `Frame(cmd)` to it. */
  class ControlChannel {
    const port: int
    const script: nat -> Response
    var sent: nat
    ghost var log: seq<string>

    ghost predicate Valid()
      reads this
    {
      sent == |log|
    }

    /** The framing of each call so far, one text per call: what it writes
        once its connection is open. */
    ghost function Written(): (w: seq<string>)
      reads this
      ensures |w| == |log|
    {
      Wire(log)
    }

    constructor (port: int, script: nat -> Response)
      ensures Valid() && this.port == port && this.script == script
      ensures log == [] && Written() == [] && sent == 0
    {
      this.port := port;
      this.script := script;
      sent := 0;
      log := [];
    }

    /** `jive_cmd(port, cmd)`: opens a connection, writes `Frame(cmd)` on it and
        answers with the next scripted outcome. */
    method Command(cmd: string) returns (r: Response)
      requires Valid()
      modifies this
      ensures Valid()
      ensures sent == old(sent) + 1 && log == old(log) + [cmd]
      ensures r == script(old(sent))
    {
      r := script(sent);
      sent := sent + 1;
      log := log + [cmd];
    }
  }
}
