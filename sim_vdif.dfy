/** The VDIF sender in sim_send_vdif/send_vdif_std_mtu_sync_seq.py. It has the
    same sizing, samples and send loop as the sender under scripts/, but its
    own 32-byte header: five big-endian words and twelve zero bytes, with the
    fields in other places. */
module SimVdif {
  import opened Bytes
  import opened TwoBit
  import opened FrameClock
  import ScriptsVdif

  const HeaderBytes: nat := 32
  const Version := 1
  const BitsPerSample := 2
  /** `int(math.log2(CHANNELS))` with one channel. */
  const Log2Channels := 0
  const StationId := "AA"
  const ThreadId := 0

  // ---------------------------------------------------------------- header words

  /** Seconds in bits 29..0, bits 31..30 clear. */
  function Word0(secs: int): word {
    secs % 0x4000_0000
  }

  /** Frame number in bits 31..8, log2 of the channel count in bits 7..3,
      bits per sample minus one in bits 2..0. */
  function Word1(frame: int): word {
    (frame % 0x100_0000) * 0x100 + (Log2Channels % 0x20) * 8 + (BitsPerSample - 1) % 8
  }

  /** The two station characters in bits 31..24 and 23..16, the version in
      bits 15..8 and the reference epoch in bits 7..0. */
  function Word2(refEpoch: int): word {
    StationId[0] as int * 0x100_0000 + StationId[1] as int * 0x1_0000 + (Version % 0x20) * 0x100 + refEpoch % 0x40
  }

  /** Frame length in 8-byte units in bits 31..8. */
  function Word3(frameLen: int): word {
    ((frameLen / 8) % 0x100_0000) * 0x100
  }

  /** Thread in bits 9..0. */
  function Word4(): word {
    ThreadId % 0x400
  }

  function HeaderWords(secs: int, refEpoch: int, frame: int, frameLen: int): seq<word> {
    [Word0(secs), Word1(frame), Word2(refEpoch), Word3(frameLen), Word4()]
  }

  /** `build_vdif_header`: the five words big-endian, then twelve zero bytes. */
  function Header(secs: int, refEpoch: int, frame: int, frameLen: int): (h: seq<byte>)
    ensures |h| == HeaderBytes
  {
    BEWords(HeaderWords(secs, refEpoch, frame, frameLen)) + Zeros(12)
  }

  /** The five `pack_into` calls on a zeroed `bytearray(32)`. */
  method BuildHeader(secs: int, refEpoch: int, frame: int, frameLen: int) returns (h: seq<byte>)
    ensures h == Header(secs, refEpoch, frame, frameLen)
  {
    var w0, w1, w2, w3, w4 := Word0(secs), Word1(frame), Word2(refEpoch), Word3(frameLen), Word4();
    var buf := new byte[HeaderBytes](_ => 0);
    assert buf[..] == BEWords([]) + Zeros(32);
    BEPackNext(buf, 0, [], w0);
    assert [] + [w0] == [w0];
    BEPackNext(buf, 4, [w0], w1);
    assert [w0] + [w1] == [w0, w1];
    BEPackNext(buf, 8, [w0, w1], w2);
    assert [w0, w1] + [w2] == [w0, w1, w2];
    BEPackNext(buf, 12, [w0, w1, w2], w3);
    assert [w0, w1, w2] + [w3] == [w0, w1, w2, w3];
    BEPackNext(buf, 16, [w0, w1, w2, w3], w4);
    assert [w0, w1, w2, w3] + [w4] == HeaderWords(secs, refEpoch, frame, frameLen);
    h := buf[..];
  }

  // ---------------------------------------------------------------- decoding

  /** The header fields at the bit positions above. `clear` says the bits no
      field uses (word 0 bits 31..30, word 3 bits 7..0, word 4 bits 31..10,
      bytes 20..31) are zero. */
  datatype Fields = Fields(secsFromRef: int, frame: int, log2Channels: int, bitsPerSampleMinus1: int,
                           station0: int, station1: int, version: int, refEpoch: int,
                           frameLength8: int, thread: int, clear: bool)

  function DecodeHeader(h: seq<byte>): Fields
    requires |h| == HeaderBytes
  {
    var ws := FromBEWords(h[..20]);
    var w0, w1, w2, w3, w4 := ws[0], ws[1], ws[2], ws[3], ws[4];
    Fields(w0 % 0x4000_0000, w1 / 0x100, (w1 / 8) % 0x20, w1 % 8,
           w2 / 0x100_0000, (w2 / 0x1_0000) % 0x100, (w2 / 0x100) % 0x100, w2 % 0x100,
           w3 / 0x100, w4 % 0x400,
           w0 / 0x4000_0000 == 0 && w3 % 0x100 == 0 && w4 / 0x400 == 0 && h[20..] == Zeros(12))
  }

  lemma {:induction false} Word0Fields(secs: int)
    ensures var w := Word0(secs);
      w % 0x4000_0000 == secs % 0x4000_0000 && w / 0x4000_0000 == 0
  {
  }

  lemma {:induction false} Word1Fields(frame: int)
    ensures var w := Word1(frame);
      w / 0x100 == frame % 0x100_0000 && (w / 8) % 0x20 == Log2Channels && w % 8 == BitsPerSample - 1
  {
    var w := Word1(frame);
    DivModUnique(w, 0x100, frame % 0x100_0000, 1);
    DivModUnique(w, 8, (frame % 0x100_0000) * 0x20, 1);
  }

  lemma {:induction false} Word2Fields(refEpoch: int)
    ensures var w := Word2(refEpoch);
      w / 0x100_0000 == 0x41 && (w / 0x1_0000) % 0x100 == 0x41 && (w / 0x100) % 0x100 == Version &&
      w % 0x100 == refEpoch % 0x40
  {
    var w := Word2(refEpoch);
    FourBytes(0x41, 0x41, Version, refEpoch % 0x40);
  }

  lemma {:induction false} Word3Fields(frameLen: int)
    ensures var w := Word3(frameLen);
      w / 0x100 == (frameLen / 8) % 0x100_0000 && w % 0x100 == 0
  {
    DivModUnique(Word3(frameLen), 0x100, (frameLen / 8) % 0x100_0000, 0);
  }

  /** Reading back a built header gives every field as written: each value
      reduced to its field width, the constants of the source, and all unused
      bits zero. */
  lemma {:induction false} HeaderFields(secs: int, refEpoch: int, frame: int, frameLen: int)
    ensures DecodeHeader(Header(secs, refEpoch, frame, frameLen)) ==
      Fields(secs % 0x4000_0000, frame % 0x100_0000, Log2Channels, BitsPerSample - 1,
             0x41, 0x41, Version, refEpoch % 0x40, (frameLen / 8) % 0x100_0000, ThreadId, true)
  {
    var ws := HeaderWords(secs, refEpoch, frame, frameLen);
    var h := Header(secs, refEpoch, frame, frameLen);
    assert h[..20] == BEWords(ws) && h[20..] == Zeros(12);
    WordsRoundTrip(ws);
    Word0Fields(secs);
    Word1Fields(frame);
    Word2Fields(refEpoch);
    Word3Fields(frameLen);
  }

  /** Values within their field widths come back unchanged. */
  lemma {:induction false} HeaderRecovers(secs: int, refEpoch: int, frame: int, frameLen: int)
    requires 0 <= secs < 0x4000_0000 && 0 <= refEpoch < 0x40 && 0 <= frame < 0x100_0000
    requires 0 <= frameLen < 0x800_0000
    ensures var f := DecodeHeader(Header(secs, refEpoch, frame, frameLen));
      f.secsFromRef == secs && f.refEpoch == refEpoch && f.frame == frame && f.frameLength8 * 8 == frameLen - frameLen % 8
  {
    var f := DecodeHeader(Header(secs, refEpoch, frame, frameLen));
    HeaderFields(secs, refEpoch, frame, frameLen);
    assert f.secsFromRef == secs % 0x4000_0000 && f.refEpoch == refEpoch % 0x40;
    assert f.frame == frame % 0x100_0000 && f.frameLength8 == (frameLen / 8) % 0x100_0000;
  }

  // ---------------------------------------------------------------- packets

  /** The packet sent with counters `c` and quantised samples `q`: the
      sequence number, the header and the payload, laid out as in the
      sender under scripts/. */
  function PacketOf(seqOn: bool, refEpoch: int, c: Clock, q: seq<bv8>): seq<byte>
    requires 0 <= c.seqno < 0x1_0000_0000_0000_0000
  {
    ScriptsVdif.Packet(seqOn, c.seqno, Header(c.second, refEpoch, c.frame, ScriptsVdif.FrameBytes(seqOn)),
                       ScriptsVdif.ByteValues(Pack2Bit(q)))
  }

  /** Packet `k` of a run that starts at `secs0` with frame 0 and sequence
      number 0. */
  function PacketAt(secs0: int, refEpoch: int, fps: int, seqOn: bool, samples: nat -> seq<bv8>, k: nat): seq<byte>
    requires k < 0x1_0000_0000_0000_0000
  {
    RunSeqno(Clock(0, secs0, 0), fps, seqOn, k);
    PacketOf(seqOn, refEpoch, Run(Clock(0, secs0, 0), fps, seqOn, k), samples(k))
  }

  /** Packet `k`, for a rate of at least one frame per second, is 1472 bytes;
      in sequence mode it starts with `k`; its header carries frame
      `k mod fps` of second `secs0 + k div fps` and the frame length; its
      payload is the packed samples, which unpack to the frame's samples when
      they are 2-bit values. */
  lemma {:induction false} PacketContents(secs0: int, refEpoch: int, fps: int, seqOn: bool, samples: nat -> seq<bv8>, k: nat)
    requires k < 0x1_0000_0000_0000_0000 && fps >= 1
    requires |samples(k)| == ScriptsVdif.SamplesPerFrame(seqOn)
    ensures var p := PacketAt(secs0, refEpoch, fps, seqOn, samples, k);
      var o := if seqOn then ScriptsVdif.SeqPrefixBytes else 0;
      |p| == 1472 &&
      (seqOn ==> FromBE64(p[..8]) == k) &&
      DecodeHeader(p[o..o + HeaderBytes]) ==
        Fields((secs0 + k / fps) % 0x4000_0000, (k % fps) % 0x100_0000, Log2Channels, BitsPerSample - 1,
               0x41, 0x41, Version, refEpoch % 0x40, ScriptsVdif.FrameBytes(seqOn) / 8, ThreadId, true) &&
      p[o + HeaderBytes..] == ScriptsVdif.ByteValues(Pack2Bit(samples(k)))
    ensures TwoBitSamples(samples(k)) ==> Unpack2Bit(Pack2Bit(samples(k))) == samples(k)
  {
    if TwoBitSamples(samples(k)) {
      ScriptsVdif.FramePayload(seqOn, samples(k));
    }
    var c0 := Clock(0, secs0, 0);
    var c := Run(c0, fps, seqOn, k);
    RunSeqno(c0, fps, seqOn, k);
    RunClosedForm(c0, fps, seqOn, k);
    ScriptsVdif.Sizing(seqOn, samples(k));
    var h := Header(c.second, refEpoch, c.frame, ScriptsVdif.FrameBytes(seqOn));
    var pl := ScriptsVdif.ByteValues(Pack2Bit(samples(k)));
    HeaderFields(c.second, refEpoch, c.frame, ScriptsVdif.FrameBytes(seqOn));
    var p := PacketAt(secs0, refEpoch, fps, seqOn, samples, k);
    if seqOn {
      assert p == BE64(k) + h + pl;
      assert p[..8] == BE64(k);
      assert p[8..8 + HeaderBytes] == h;
      Quad64RoundTrip(k);
    } else {
      assert p == h + pl;
      assert p[..HeaderBytes] == h;
    }
  }

  // ---------------------------------------------------------------- the send loop

  /** The first `n` packets of a run: packet `k` is `PacketAt(k)`. */
  function Sent(secs0: int, refEpoch: int, fps: int, seqOn: bool, samples: nat -> seq<bv8>, n: nat): (ps: seq<seq<byte>>)
    requires n <= 0x1_0000_0000_0000_0000
    ensures |ps| == n
  {
    if n == 0 then [] else Sent(secs0, refEpoch, fps, seqOn, samples, n - 1) + [PacketAt(secs0, refEpoch, fps, seqOn, samples, n - 1)]
  }

  /** Entry `k` of the first `n` packets is packet `k`. */
  lemma {:induction false} SentPackets(secs0: int, refEpoch: int, fps: int, seqOn: bool, samples: nat -> seq<bv8>, n: nat, k: nat)
    requires k < n <= 0x1_0000_0000_0000_0000
    ensures Sent(secs0, refEpoch, fps, seqOn, samples, n)[k] == PacketAt(secs0, refEpoch, fps, seqOn, samples, k)
    decreases n
  {
    if k < n - 1 {
      SentPackets(secs0, refEpoch, fps, seqOn, samples, n - 1, k);
    }
  }

  /** The body of the loop before the counters move on. */
  method MakePacket(seqOn: bool, refEpoch: int, frameBytes: int, c: Clock, q: seq<bv8>) returns (pkt: seq<byte>)
    requires frameBytes == ScriptsVdif.FrameBytes(seqOn) && 0 <= c.seqno < 0x1_0000_0000_0000_0000
    ensures pkt == PacketOf(seqOn, refEpoch, c, q)
  {
    var payload := ScriptsVdif.ByteValues(Pack2Bit(q));
    var header := BuildHeader(c.second, refEpoch, c.frame, frameBytes);
    if seqOn {
      pkt := BE64(c.seqno) + header + payload;
    } else {
      pkt := header + payload;
    }
  }

  /** The `for` loop of `main`, sending `nFrames` packets, the counters
      starting at frame 0 of second `secs0` with sequence number 0. */
  method Send(secs0: int, refEpoch: int, fps: int, seqOn: bool, nFrames: nat, samples: nat -> seq<bv8>)
    returns (sent: seq<seq<byte>>)
    requires nFrames <= 0x1_0000_0000_0000_0000
    ensures sent == Sent(secs0, refEpoch, fps, seqOn, samples, nFrames)
  {
    var frameBytes := ScriptsVdif.FrameBytes(seqOn);
    var secsFromRef, frameWithinSec, seqno := secs0, 0, 0;
    sent := [];
    for i := 0 to nFrames
      invariant Clock(frameWithinSec, secsFromRef, seqno) == Run(Clock(0, secs0, 0), fps, seqOn, i)
      invariant sent == Sent(secs0, refEpoch, fps, seqOn, samples, i)
    {
      RunSeqno(Clock(0, secs0, 0), fps, seqOn, i);
      var pkt := MakePacket(seqOn, refEpoch, frameBytes, Clock(frameWithinSec, secsFromRef, seqno), samples(i));
      sent := sent + [pkt];
      frameWithinSec, secsFromRef, seqno := ScriptsVdif.Advance(frameWithinSec, secsFromRef, seqno, fps, seqOn);
    }
  }
}
