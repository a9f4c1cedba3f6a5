/** The VDIF sender in scripts/send_vdif_std_mtu_sync_seq.py: a legacy
    32-byte header of four big-endian words, 2-bit samples, an optional 8-byte
    big-endian sequence number in front of each frame, and the counters of
    its send loop. */
module ScriptsVdif {
  import opened Bytes
  import opened TwoBit
  import opened FrameClock

  const HeaderBytes: nat := 32
  const Version := 1
  const BitsPerSample := 2
  /** `int(math.log2(CHANNELS))` with one channel. */
  const Log2Channels := 0
  const StationId := "AA"
  const ThreadId := 0
  const Legacy := 1
  const Invalid := 0
  /** `(ord(STATION_ID[0]) << 8) | ord(STATION_ID[1])`. */
  const Station := StationId[0] as int * 0x100 + StationId[1] as int

  // ---------------------------------------------------------------- header words

  /** Invalid flag in bit 31, legacy flag in bit 30, seconds in bits 29..0. */
  function Word0(secs: int): word {
    (Invalid % 2) * 0x8000_0000 + (Legacy % 2) * 0x4000_0000 + secs % 0x4000_0000
  }

  /** Frame number in bits 31..8, reference epoch in bits 7..2. */
  function Word1(frame: int, refEpoch: int): word {
    (frame % 0x100_0000) * 0x100 + (refEpoch % 0x40) * 4
  }

  /** Frame length in 8-byte units in bits 31..8, log2 of the channel count in
      bits 7..3, version in bits 2..0. */
  function Word2(frameLen: int): word {
    ((frameLen / 8) % 0x100_0000) * 0x100 + (Log2Channels % 0x20) * 8 + Version % 8
  }

  /** Station in bits 31..16, thread in bits 15..6, bits per sample minus one
      in bits 5..1. */
  function Word3(): word {
    (Station % 0x1_0000) * 0x1_0000 + (ThreadId % 0x400) * 0x40 + ((BitsPerSample - 1) % 0x20) * 2
  }

  function HeaderWords(secs: int, refEpoch: int, frame: int, frameLen: int): seq<word> {
    [Word0(secs), Word1(frame, refEpoch), Word2(frameLen), Word3()]
  }

  /** `build_vdif_header`: the four words big-endian, then sixteen zero bytes. */
  function Header(secs: int, refEpoch: int, frame: int, frameLen: int): (h: seq<byte>)
    ensures |h| == HeaderBytes
  {
    BEWords(HeaderWords(secs, refEpoch, frame, frameLen)) + Zeros(16)
  }

  method BuildHeader(secs: int, refEpoch: int, frame: int, frameLen: int) returns (h: seq<byte>)
    ensures h == Header(secs, refEpoch, frame, frameLen)
  {
    var w0, w1, w2, w3 := Word0(secs), Word1(frame, refEpoch), Word2(frameLen), Word3();
    var buf := new byte[HeaderBytes](_ => 0);
    Write(buf, 0, BEWords([w0, w1, w2, w3]));
    h := buf[..];
    assert h[16..] == Zeros(16);
  }

  // ---------------------------------------------------------------- decoding

  /** The header fields at the bit positions above. `clear` says the bits no
      field uses (word 1 bits 1..0, word 3 bit 0, bytes 16..31) are zero. */
  datatype Fields = Fields(invalid: int, legacy: int, secsFromRef: int, frame: int, refEpoch: int,
                           frameLength8: int, log2Channels: int, version: int,
                           station: int, thread: int, bitsPerSampleMinus1: int, clear: bool)

  function DecodeHeader(h: seq<byte>): Fields
    requires |h| == HeaderBytes
  {
    var ws := FromBEWords(h[..16]);
    var w0, w1, w2, w3 := ws[0], ws[1], ws[2], ws[3];
    Fields(w0 / 0x8000_0000, (w0 / 0x4000_0000) % 2, w0 % 0x4000_0000,
           w1 / 0x100, (w1 / 4) % 0x40,
           w2 / 0x100, (w2 / 8) % 0x20, w2 % 8,
           w3 / 0x1_0000, (w3 / 0x40) % 0x400, (w3 / 2) % 0x20,
           w1 % 4 == 0 && w3 % 2 == 0 && h[16..] == Zeros(16))
  }

  lemma {:induction false} Word0Fields(secs: int)
    ensures var w := Word0(secs);
      w / 0x8000_0000 == 0 && (w / 0x4000_0000) % 2 == 1 && w % 0x4000_0000 == secs % 0x4000_0000
  {
    DivModUnique(Word0(secs), 0x4000_0000, 1, secs % 0x4000_0000);
  }

  lemma {:induction false} Word1Fields(frame: int, refEpoch: int)
    ensures var w := Word1(frame, refEpoch);
      w / 0x100 == frame % 0x100_0000 && (w / 4) % 0x40 == refEpoch % 0x40 && w % 4 == 0
  {
    var w := Word1(frame, refEpoch);
    DivModUnique(w, 0x100, frame % 0x100_0000, (refEpoch % 0x40) * 4);
    DivModUnique(w, 4, (frame % 0x100_0000) * 0x40 + refEpoch % 0x40, 0);
    DivModUnique((frame % 0x100_0000) * 0x40 + refEpoch % 0x40, 0x40, frame % 0x100_0000, refEpoch % 0x40);
  }

  lemma {:induction false} Word2Fields(frameLen: int)
    ensures var w := Word2(frameLen);
      w / 0x100 == (frameLen / 8) % 0x100_0000 && (w / 8) % 0x20 == Log2Channels && w % 8 == Version
  {
    var w, q := Word2(frameLen), (frameLen / 8) % 0x100_0000;
    assert w == q * 0x100 + Version;
    DivModUnique(w, 0x100, q, Version);
    DivModUnique(w, 8, q * 0x20, Version);
    DivModUnique(q * 0x20, 0x20, q, 0);
  }

  lemma {:induction false} Word3Fields()
    ensures var w := Word3();
      w / 0x1_0000 == 0x4141 && (w / 0x40) % 0x400 == ThreadId && (w / 2) % 0x20 == BitsPerSample - 1 && w % 2 == 0
  {
  }

  /** Reading back a built header gives every field as written: each value
      reduced to its field width, the flags and constants of the source, and
      all unused bits zero. */
  lemma {:induction false} HeaderFields(secs: int, refEpoch: int, frame: int, frameLen: int)
    ensures DecodeHeader(Header(secs, refEpoch, frame, frameLen)) ==
      Fields(0, 1, secs % 0x4000_0000, frame % 0x100_0000, refEpoch % 0x40,
             (frameLen / 8) % 0x100_0000, Log2Channels, Version, 0x4141, ThreadId, BitsPerSample - 1, true)
  {
    var ws := HeaderWords(secs, refEpoch, frame, frameLen);
    var h := Header(secs, refEpoch, frame, frameLen);
    assert h[..16] == BEWords(ws) && h[16..] == Zeros(16);
    WordsRoundTrip(ws);
    Word0Fields(secs);
    Word1Fields(frame, refEpoch);
    Word2Fields(frameLen);
    Word3Fields();
  }

  /** Values within their field widths come back unchanged. */
  lemma {:induction false} HeaderRecovers(secs: int, refEpoch: int, frame: int, frameLen: int)
    requires 0 <= secs < 0x4000_0000 && 0 <= refEpoch < 0x40 && 0 <= frame < 0x100_0000
    requires 0 <= frameLen < 0x800_0000
    ensures var f := DecodeHeader(Header(secs, refEpoch, frame, frameLen));
      f.secsFromRef == secs && f.refEpoch == refEpoch && f.frame == frame && f.frameLength8 * 8 == frameLen - frameLen % 8
  {
    var f := DecodeHeader(Header(secs, refEpoch, frame, frameLen));
    HeaderFields(secs, refEpoch, frame, frameLen);
    assert f.secsFromRef == secs % 0x4000_0000 && f.refEpoch == refEpoch % 0x40;
    assert f.frame == frame % 0x100_0000 && f.frameLength8 == (frameLen / 8) % 0x100_0000;
  }

  // ---------------------------------------------------------------- sizing and packets

  const SeqPrefixBytes: nat := 8

  /** 1472 bytes of UDP payload, less the header and, in sequence mode, the
      sequence number. */
  function PayloadBytes(seqOn: bool): nat {
    if seqOn then 1432 else 1440
  }

  function SamplesPerFrame(seqOn: bool): nat {
    PayloadBytes(seqOn) * 4
  }

  function FrameBytes(seqOn: bool): nat {
    HeaderBytes + PayloadBytes(seqOn)
  }

  /** `b.tobytes()`: the `uint8` values as bytes. */
  function ByteValues(p: seq<bv8>): (r: seq<byte>)
    ensures |r| == |p|
  {
    seq(|p|, i requires 0 <= i < |p| => p[i] as int)
  }

  /** `struct.pack(">Q", seqno) + header + payload`, or `header + payload`. */
  function Packet(seqOn: bool, seqno: quad, header: seq<byte>, payload: seq<byte>): seq<byte> {
    if seqOn then BE64(seqno) + header + payload else header + payload
  }

  /** The packet sent with counters `c` and quantised samples `q`. */
  function PacketOf(seqOn: bool, refEpoch: int, c: Clock, q: seq<bv8>): seq<byte>
    requires 0 <= c.seqno < 0x1_0000_0000_0000_0000
  {
    Packet(seqOn, c.seqno, Header(c.second, refEpoch, c.frame, FrameBytes(seqOn)), ByteValues(Pack2Bit(q)))
  }

  /** Packet `k` of a run that starts at `secs0` with frame 0 and sequence
      number 0; `samples(k)` is the quantised signal of that frame. */
  function PacketAt(secs0: int, refEpoch: int, fps: int, seqOn: bool, samples: nat -> seq<bv8>, k: nat): seq<byte>
    requires k < 0x1_0000_0000_0000_0000
  {
    RunSeqno(Clock(0, secs0, 0), fps, seqOn, k);
    PacketOf(seqOn, refEpoch, Run(Clock(0, secs0, 0), fps, seqOn, k), samples(k))
  }

  /** The frame is a whole number of 8-byte units, the packet fills a standard
      MTU in both modes, and a frame of samples packs into the payload. */
  lemma {:induction false} Sizing(seqOn: bool, q: seq<bv8>)
    requires |q| == SamplesPerFrame(seqOn)
    ensures FrameBytes(seqOn) % 8 == 0
    ensures (if seqOn then SeqPrefixBytes else 0) + FrameBytes(seqOn) == 1472
    ensures |Pack2Bit(q)| == PayloadBytes(seqOn)
  {
    PackLength(q, PayloadBytes(seqOn));
  }

  /** A frame of 2-bit samples packs into a payload that unpacks to exactly
      those samples: a frame needs no padding. */
  lemma {:induction false} FramePayload(seqOn: bool, q: seq<bv8>)
    requires |q| == SamplesPerFrame(seqOn) && TwoBitSamples(q)
    ensures Unpack2Bit(Pack2Bit(q)) == q
  {
    PackLength(q, PayloadBytes(seqOn));
    UnpackPack(q);
  }

  /** Packet `k`, for a rate of at least one frame per second, is 1472 bytes;
      in sequence mode it starts with `k`; its header carries frame
      `k mod fps` of second `secs0 + k div fps` and the frame length; its
      payload unpacks to the frame's samples. */
  lemma {:induction false} PacketContents(secs0: int, refEpoch: int, fps: int, seqOn: bool, samples: nat -> seq<bv8>, k: nat)
    requires k < 0x1_0000_0000_0000_0000 && fps >= 1
    requires |samples(k)| == SamplesPerFrame(seqOn) && TwoBitSamples(samples(k))
    ensures var p := PacketAt(secs0, refEpoch, fps, seqOn, samples, k);
      var o := if seqOn then SeqPrefixBytes else 0;
      |p| == 1472 &&
      (seqOn ==> FromBE64(p[..8]) == k) &&
      DecodeHeader(p[o..o + HeaderBytes]) ==
        Fields(0, 1, (secs0 + k / fps) % 0x4000_0000, (k % fps) % 0x100_0000, refEpoch % 0x40,
               FrameBytes(seqOn) / 8, Log2Channels, Version, 0x4141, ThreadId, BitsPerSample - 1, true) &&
      p[o + HeaderBytes..] == ByteValues(Pack2Bit(samples(k)))
    ensures Unpack2Bit(Pack2Bit(samples(k))) == samples(k)
  {
    FramePayload(seqOn, samples(k));
    var c0 := Clock(0, secs0, 0);
    var c := Run(c0, fps, seqOn, k);
    RunSeqno(c0, fps, seqOn, k);
    RunClosedForm(c0, fps, seqOn, k);
    Sizing(seqOn, samples(k));
    var h := Header(c.second, refEpoch, c.frame, FrameBytes(seqOn));
    var pl := ByteValues(Pack2Bit(samples(k)));
    HeaderFields(c.second, refEpoch, c.frame, FrameBytes(seqOn));
    var p := PacketAt(secs0, refEpoch, fps, seqOn, samples, k);
    if seqOn {
      assert p == BE64(k) + h + pl;
      assert p[..8] == BE64(k);
      assert p[8..8 + HeaderBytes] == h;
      Quad64RoundTrip(k);
    } else {
      assert p == h + pl;
      assert p[..HeaderBytes] == h;
    }
  }

  // ---------------------------------------------------------------- the send loop

  /** The first `n` packets of a run: packet `k` is `PacketAt(k)`. */
  function Sent(secs0: int, refEpoch: int, fps: int, seqOn: bool, samples: nat -> seq<bv8>, n: nat): (ps: seq<seq<byte>>)
    requires n <= 0x1_0000_0000_0000_0000
    ensures |ps| == n
  {
    if n == 0 then [] else Sent(secs0, refEpoch, fps, seqOn, samples, n - 1) + [PacketAt(secs0, refEpoch, fps, seqOn, samples, n - 1)]
  }

  /** Entry `k` of the first `n` packets is packet `k`: sending more packets
      never changes those already sent. */
  lemma {:induction false} SentPackets(secs0: int, refEpoch: int, fps: int, seqOn: bool, samples: nat -> seq<bv8>, n: nat, k: nat)
    requires k < n <= 0x1_0000_0000_0000_0000
    ensures Sent(secs0, refEpoch, fps, seqOn, samples, n)[k] == PacketAt(secs0, refEpoch, fps, seqOn, samples, k)
    decreases n
  {
    if k < n - 1 {
      SentPackets(secs0, refEpoch, fps, seqOn, samples, n - 1, k);
    }
  }

  /** The counter updates after a packet is sent. */
  method Advance(frameWithinSec: int, secsFromRef: int, seqno: int, fps: int, seqOn: bool)
    returns (frameWithinSec': int, secsFromRef': int, seqno': int)
    ensures Clock(frameWithinSec', secsFromRef', seqno') == Tick(Clock(frameWithinSec, secsFromRef, seqno), fps, seqOn)
  {
    seqno' := if seqOn then seqno + 1 else seqno;
    frameWithinSec', secsFromRef' := frameWithinSec + 1, secsFromRef;
    if frameWithinSec' == fps {
      frameWithinSec', secsFromRef' := 0, secsFromRef + 1;
    }
  }

  /** The body of the loop before the counters move on. */
  method MakePacket(seqOn: bool, refEpoch: int, frameBytes: int, c: Clock, q: seq<bv8>) returns (pkt: seq<byte>)
    requires frameBytes == FrameBytes(seqOn) && 0 <= c.seqno < 0x1_0000_0000_0000_0000
    ensures pkt == PacketOf(seqOn, refEpoch, c, q)
  {
    var payload := ByteValues(Pack2Bit(q));
    var header := BuildHeader(c.second, refEpoch, c.frame, frameBytes);
    if seqOn {
      pkt := BE64(c.seqno) + header + payload;
    } else {
      pkt := header + payload;
    }
  }

  /** The `for` loop of `main`, sending `nFrames` packets, the counters
      starting at frame 0 of second `secs0` with sequence number 0. */
  method Send(secs0: int, refEpoch: int, fps: int, seqOn: bool, nFrames: nat, samples: nat -> seq<bv8>)
    returns (sent: seq<seq<byte>>)
    requires nFrames <= 0x1_0000_0000_0000_0000
    ensures sent == Sent(secs0, refEpoch, fps, seqOn, samples, nFrames)
  {
    var frameBytes := FrameBytes(seqOn);
    var secsFromRef, frameWithinSec, seqno := secs0, 0, 0;
    sent := [];
    for i := 0 to nFrames
      invariant Clock(frameWithinSec, secsFromRef, seqno) == Run(Clock(0, secs0, 0), fps, seqOn, i)
      invariant sent == Sent(secs0, refEpoch, fps, seqOn, samples, i)
    {
      RunSeqno(Clock(0, secs0, 0), fps, seqOn, i);
      var pkt := MakePacket(seqOn, refEpoch, frameBytes, Clock(frameWithinSec, secsFromRef, seqno), samples(i));
      sent := sent + [pkt];
      frameWithinSec, secsFromRef, seqno := Advance(frameWithinSec, secsFromRef, seqno, fps, seqOn);
    }
  }
}
