/** The VDIF sender in sim_send_vdif/send.py: a 32-byte header of four
    little-endian words, a zero payload, an 8-byte sequence number in front of
    every frame, a decoder that checks two header fields, and the `while True`
    loop of `run_sender`. */
module SimSend {
  import opened Bytes
  import opened FrameClock
  import PyText

  const FrameSize: nat := 8256
  const HeaderSize: nat := 32
  const PayloadSize: nat := FrameSize - HeaderSize
  const FramesPerSec := 2
  const RefEpoch := 0
  const ThreadId := 0
  const Version := 1
  /** The sequence number is written big-endian. */
  const UdpsBE := true

  /** The message of the `struct.error` that `pack_into("<I")`, `pack(">Q")`
      and `unpack_from` raise on a value out of range or a short buffer. */
  const StructError := "struct.error"
  const FrameLengthIncorrect := "frame length field incorrect"
  const VersionIncorrect := "version incorrect"

  // ---------------------------------------------------------------- header words

  /** Frame number in bits 23..0, reference epoch in bits 29..24, the invalid
      bit 31 clear. */
  function Word1(frame: int): word {
    frame % 0x100_0000 + (RefEpoch % 0x40) * 0x100_0000
  }

  /** Frame length in 8-byte units in bits 23..0, version in bits 29..24. */
  function Word2(): word {
    (FrameSize / 8) % 0x100_0000 + (Version % 0x40) * 0x100_0000
  }

  /** Thread in bits 9..0. */
  function Word3(): word {
    ThreadId % 0x400
  }

  function HeaderWords(second: word, frame: int): seq<word> {
    [second, Word1(frame), Word2(), Word3()]
  }

  /** `build_vdif_header` for a second that fits in 32 bits: the four words
      little-endian, then sixteen zero bytes. */
  function Header(second: word, frame: int): (h: seq<byte>)
    ensures |h| == HeaderSize
  {
    LEWords(HeaderWords(second, frame)) + Zeros(16)
  }

  /** `build_vdif_header`: four `pack_into("<I")` calls on a zeroed
      `bytearray(32)`; the first raises `struct.error` when `second` does not
      fit in 32 unsigned bits. */
  method BuildHeader(second: int, frame: int) returns (h: PyText.Option<seq<byte>>)
    ensures 0 <= second < 0x1_0000_0000 ==> h == PyText.Some(Header(second, frame))
    ensures !(0 <= second < 0x1_0000_0000) ==> h == PyText.None
  {
    var buf := new byte[HeaderSize](_ => 0);
    if !(0 <= second < 0x1_0000_0000) {
      return PyText.None;
    }
    var w1, w2, w3 := Word1(frame), Word2(), Word3();
    assert buf[..] == LEWords([]) + Zeros(32);
    LEPackNext(buf, 0, [], second);
    assert [] + [second] == [second];
    LEPackNext(buf, 4, [second], w1);
    assert [second] + [w1] == [second, w1];
    LEPackNext(buf, 8, [second, w1], w2);
    assert [second, w1] + [w2] == [second, w1, w2];
    LEPackNext(buf, 12, [second, w1, w2], w3);
    assert [second, w1, w2] + [w3] == HeaderWords(second, frame);
    h := PyText.Some(buf[..]);
  }

  // ---------------------------------------------------------------- header_selfcheck

  /** The fields `header_selfcheck` prints. */
  datatype Shown = Shown(sec: word, frame: int, refEpoch: int, invalid: int, flen8: int, version: int, thread: int)

  /** The check returns normally with what it printed, or raises. */
  datatype Checked = Passed(shown: Shown) | Raised(error: string)

  /** `header_selfcheck`: read the first four little-endian words, extract
      the fields, then assert the frame length and the version. */
  function HeaderSelfcheck(hdr: seq<byte>): (r: Checked)
  {
    if |hdr| < 16 then Raised(StructError)
    else
      var ws := FromLEWords(hdr[..16]);
      var sec, w1, w2, w3 := ws[0], ws[1], ws[2], ws[3];
      var flen8, ver := w2 % 0x100_0000, (w2 / 0x100_0000) % 0x40;
      if flen8 * 8 != FrameSize then Raised(FrameLengthIncorrect)
      else if ver != Version then Raised(VersionIncorrect)
      else Passed(Shown(sec, w1 % 0x100_0000, (w1 / 0x100_0000) % 0x40, (w1 / 0x8000_0000) % 2, flen8, ver, w3 % 0x400))
  }

  lemma {:induction false} Word1Fields(frame: int)
    ensures var w := Word1(frame);
      w % 0x100_0000 == frame % 0x100_0000 && (w / 0x100_0000) % 0x40 == RefEpoch && (w / 0x8000_0000) % 2 == 0
  {
  }

  lemma {:induction false} Word2Fields()
    ensures Word2() % 0x100_0000 == FrameSize / 8 && (Word2() / 0x100_0000) % 0x40 == Version
  {
  }

  /** A built header passes the check, and the check reads back the second,
      the frame number reduced to 24 bits, the constants written and a clear
      invalid bit. */
  lemma {:induction false} SelfcheckOfHeader(second: word, frame: int)
    ensures HeaderSelfcheck(Header(second, frame)) ==
      Passed(Shown(second, frame % 0x100_0000, RefEpoch, 0, FrameSize / 8, Version, ThreadId))
  {
    var ws := HeaderWords(second, frame);
    var h := Header(second, frame);
    assert h[..16] == LEWords(ws);
    WordsRoundTrip(ws);
    Word1Fields(frame);
    Word2Fields();
  }

  /** Bytes 8..11 of a built header are 08 04 00 01. */
  lemma {:induction false} HeaderLengthBytes(second: word, frame: int)
    ensures Header(second, frame)[8..12] == [8, 4, 0, 1]
  {
    var ws := HeaderWords(second, frame);
    LEWordAt(ws, 2);
    assert Header(second, frame)[8..12] == LEWords(ws)[8..12];
    assert Word2() == 0x0100_0408;
    assert LE32(0x0100_0408) == [8, 4, 0, 1];
  }

  /** The check passes exactly when bytes 8..10 are 08 04 00 and byte 11
      holds version 1 in its low six bits; when bytes 8..10 are wrong it is
      the frame length assertion that fails. */
  lemma {:induction false} SelfcheckAccepts(hdr: seq<byte>)
    requires |hdr| >= 16
    ensures HeaderSelfcheck(hdr).Passed? <==> hdr[8] == 8 && hdr[9] == 4 && hdr[10] == 0 && hdr[11] % 0x40 == 1
    ensures !(hdr[8] == 8 && hdr[9] == 4 && hdr[10] == 0) ==> HeaderSelfcheck(hdr) == Raised(FrameLengthIncorrect)
  {
    var b := hdr[..16];
    FromLEWordAt(b, 2);
    assert b[8..12] == hdr[8..12];
    var w2 := FromLEWords(b)[2];
    LE32Digits(hdr[8..12]);
    var low := hdr[8] as int + 0x100 * hdr[9] as int + 0x1_0000 * hdr[10] as int;
    DivModUnique(w2, 0x100_0000, hdr[11] as int, low);
    DivModUnique(low, 0x100, hdr[9] as int + 0x100 * hdr[10] as int, hdr[8] as int);
    if low == FrameSize / 8 {
      DivModUnique(hdr[9] as int + 0x100 * hdr[10] as int, 0x100, hdr[10] as int, hdr[9] as int);
    }
  }

  /** The `--selfcheck` mode: the header of frame 0 of the current second,
      then the check. */
  method SelfcheckMode(now: int) returns (r: Checked)
    ensures 0 <= now < 0x1_0000_0000 ==> r == Passed(Shown(now, 0, RefEpoch, 0, FrameSize / 8, Version, ThreadId))
    ensures !(0 <= now < 0x1_0000_0000) ==> r == Raised(StructError)
  {
    var hdr := BuildHeader(now, 0);
    if hdr.None? {
      r := Raised(StructError);
    } else {
      r := HeaderSelfcheck(hdr.value);
      SelfcheckOfHeader(now, 0);
    }
  }

  // ---------------------------------------------------------------- packets

  /** `struct.pack(">Q" if UDPS_BE else "<Q", seq)`. */
  function SeqPrefix(seqno: quad): (p: seq<byte>)
    ensures |p| == 8
  {
    if UdpsBE then BE64(seqno) else LE64(seqno)
  }

  function Start(second0: int): Clock {
    Clock(0, second0, 0)
  }

  /** Packet `k` of a run that starts at frame 0 of `second0`: its sequence
      number, its header and a zero payload. The run must not yet have passed
      the last second that fits in 32 bits. */
  function PacketAt(second0: int, fps: int, k: nat): (p: seq<byte>)
    requires k < 0x1_0000_0000_0000_0000 && 0 <= second0
    requires RunAtLeast(Start(second0), fps, k).second < 0x1_0000_0000
    ensures |p| == SeqPrefixBytes + FrameSize
  {
    RunAtLeastSeqno(Start(second0), fps, k);
    SecondsMonotone(Start(second0), fps, 0, k);
    var c := RunAtLeast(Start(second0), fps, k);
    SeqPrefix(c.seqno) + (Header(c.second, c.frame) + Zeros(PayloadSize))
  }

  const SeqPrefixBytes: nat := 8

  /** Packet `k` starts with `k`, big-endian, and its header, which passes
      the check, carries the frame and second of the `k`-th tick; for a rate
      of at least one frame per second those are `k mod fps` and
      `second0 + k div fps`. */
  lemma {:induction false} PacketContents(second0: int, fps: int, k: nat)
    requires k < 0x1_0000_0000_0000_0000 && 0 <= second0
    requires RunAtLeast(Start(second0), fps, k).second < 0x1_0000_0000
    ensures var p := PacketAt(second0, fps, k);
      var c := RunAtLeast(Start(second0), fps, k);
      FromBE64(p[..8]) == k &&
      HeaderSelfcheck(p[8..8 + HeaderSize]) == Passed(Shown(c.second, c.frame % 0x100_0000, RefEpoch, 0, FrameSize / 8, Version, ThreadId)) &&
      p[8 + HeaderSize..] == Zeros(PayloadSize) &&
      (fps >= 1 ==> c.frame == k % fps && c.second == second0 + k / fps)
  {
    var c0 := Start(second0);
    var c := RunAtLeast(c0, fps, k);
    RunAtLeastSeqno(c0, fps, k);
    SecondsMonotone(c0, fps, 0, k);
    var h := Header(c.second, c.frame);
    var p := PacketAt(second0, fps, k);
    assert p == BE64(k) + (h + Zeros(PayloadSize));
    assert p[..8] == BE64(k) && p[8..8 + HeaderSize] == h && p[8 + HeaderSize..] == Zeros(PayloadSize);
    Quad64RoundTrip(k);
    SelfcheckOfHeader(c.second, c.frame);
    if fps >= 1 {
      RunsAgree(c0, fps, k);
      RunClosedForm(c0, fps, true, k);
    }
  }

  // ---------------------------------------------------------------- run_sender

  /** The first `n` packets can all be built: the start second is not
      negative and packet `n - 1` is still within 32-bit seconds. */
  predicate Sendable(second0: int, fps: int, n: nat) {
    n == 0 || (0 <= second0 && RunAtLeast(Start(second0), fps, n - 1).second < 0x1_0000_0000)
  }

  /** The first `n` packets of a run. */
  function Sent(second0: int, fps: int, n: nat): (ps: seq<seq<byte>>)
    requires n <= 0x1_0000_0000_0000_0000 && Sendable(second0, fps, n)
    ensures |ps| == n
  {
    if n == 0 then []
    else if n == 1 then Sent(second0, fps, 0) + [PacketAt(second0, fps, 0)]
    else
      SecondsMonotone(Start(second0), fps, n - 2, n - 1);
      Sent(second0, fps, n - 1) + [PacketAt(second0, fps, n - 1)]
  }

  /** Entry `k` of the first `n` packets is packet `k`. */
  lemma {:induction false} SentPackets(second0: int, fps: int, n: nat, k: nat)
    requires k < n <= 0x1_0000_0000_0000_0000 && Sendable(second0, fps, n)
    ensures 0 <= second0 && RunAtLeast(Start(second0), fps, k).second < 0x1_0000_0000
    ensures Sent(second0, fps, n)[k] == PacketAt(second0, fps, k)
    decreases n
  {
    SecondsMonotone(Start(second0), fps, k, n - 1);
    if k < n - 1 {
      SecondsMonotone(Start(second0), fps, n - 2, n - 1);
      SentPackets(second0, fps, n - 1, k);
    }
  }

  /** The counter updates at the end of an iteration. */
  method Advance(seqno: int, frame: int, second: int, fps: int) returns (seqno': int, frame': int, second': int)
    ensures Clock(frame', second', seqno') == TickAtLeast(Clock(frame, second, seqno), fps)
  {
    seqno', frame', second' := seqno + 1, frame + 1, second;
    if frame' >= fps {
      frame', second' := 0, second + 1;
    }
  }

  /** `run_sender` with the counters starting at frame 0 of `second0`, cut
      off after `maxPackets` iterations. It stops early, with `raised`, when
      the header of the next packet cannot be built because its second no
      longer fits in 32 bits. With `debug` every frame 0 header goes through
      the check, whose assertions then hold. */
  method RunSender(fps: int, second0: int, debug: bool, maxPackets: nat) returns (sent: seq<seq<byte>>, raised: bool)
    requires maxPackets <= 0x1_0000_0000_0000_0000
    ensures |sent| <= maxPackets && Sendable(second0, fps, |sent|)
    ensures sent == Sent(second0, fps, |sent|)
    ensures raised <==> |sent| < maxPackets
    ensures raised ==> !(0 <= RunAtLeast(Start(second0), fps, |sent|).second < 0x1_0000_0000)
  {
    var seqno, second, frame := 0, second0, 0;
    sent, raised := [], false;
    while |sent| < maxPackets && !raised
      invariant |sent| <= maxPackets
      invariant Clock(frame, second, seqno) == RunAtLeast(Start(second0), fps, |sent|)
      invariant Sendable(second0, fps, |sent|) && sent == Sent(second0, fps, |sent|)
      invariant raised ==> |sent| < maxPackets && !(0 <= second < 0x1_0000_0000)
      decreases maxPackets - |sent|, if raised then 0 else 1
    {
      var hdr := BuildHeader(second, frame);
      if hdr.None? {
        raised := true;
      } else {
        if debug && frame == 0 {
          var check := HeaderSelfcheck(hdr.value);
          SelfcheckOfHeader(second, frame);
          assert check.Passed?;
        }
        var payload := Zeros(PayloadSize);
        var vdifFrame := hdr.value + payload;
        RunAtLeastSeqno(Start(second0), fps, |sent|);
        var seqHdr := SeqPrefix(seqno);
        var pkt := seqHdr + vdifFrame;
        sent := sent + [pkt];
        seqno, frame, second := Advance(seqno, frame, second, fps);
      }
    }
  }
}
