/** Bytes, 32- and 64-bit words and the bit-field arithmetic shared by the
    three VDIF frame builders. A Python `bytearray` is an array of `byte`, a
    `bytes` value a `seq<byte>`; `struct.pack_into` with `>I`, `<I` is
    `PackBE32`/`PackLE32`, and `struct.pack` with `>Q`/`<Q` is `BE64`/`LE64`. */
module Bytes {
  type byte = x: int | 0 <= x < 0x100
  type word = x: int | 0 <= x < 0x1_0000_0000
  type quad = x: int | 0 <= x < 0x1_0000_0000_0000_0000

  /** `bytearray(n)` / `bytes(n)`: n zero bytes. */
  function Zeros(n: nat): (z: seq<byte>)
    ensures |z| == n
  {
    seq(n, _ => 0)
  }

  // ---------------------------------------------------------------- division facts

  lemma {:induction false} MulAtLeast(a: int, d: int)
    requires a >= 1 && d > 0
    ensures a * d >= d
  {
    assert a * d == (a - 1) * d + d;
    assert (a - 1) * d >= 0;
  }

  /** Euclidean division is unique: a field `q` placed above a field `r` that
      is narrower than `d` is recovered by `/ d` and `% d`. */
  lemma {:induction false} DivModUnique(x: int, d: int, q: int, r: int)
    requires d > 0 && 0 <= r < d && x == q * d + r
    ensures x / d == q && x % d == r
  {
    var q', r' := x / d, x % d;
    assert x == q' * d + r';
    if q > q' {
      MulAtLeast(q - q', d);
    } else if q < q' {
      MulAtLeast(q' - q, d);
    }
  }

  // ---------------------------------------------------------------- unsigned integers as bytes

  function Pow256(k: nat): (p: nat)
    ensures p >= 1
  {
    if k == 0 then 1 else 0x100 * Pow256(k - 1)
  }

  /** The `k` low base-256 digits of `v`, most significant first. */
  function BEBytes(v: nat, k: nat): (b: seq<byte>)
    ensures |b| == k
  {
    if k == 0 then [] else BEBytes(v / 0x100, k - 1) + [v % 0x100]
  }

  /** The `k` low base-256 digits of `v`, least significant first. */
  function LEBytes(v: nat, k: nat): (b: seq<byte>)
    ensures |b| == k
  {
    if k == 0 then [] else [v % 0x100] + LEBytes(v / 0x100, k - 1)
  }

  /** The number whose big-endian digits are `b`. */
  function FromBE(b: seq<byte>): (v: nat)
    ensures v < Pow256(|b|)
  {
    if b == [] then 0 else FromBE(b[..|b| - 1]) * 0x100 + b[|b| - 1]
  }

  /** The number whose little-endian digits are `b`. */
  function FromLE(b: seq<byte>): (v: nat)
    ensures v < Pow256(|b|)
  {
    if b == [] then 0 else b[0] + 0x100 * FromLE(b[1..])
  }

  /** A number below `256^k` is its `k` digits read back. */
  lemma {:induction false} DigitsRoundTrip(v: nat, k: nat)
    requires v < Pow256(k)
    ensures FromBE(BEBytes(v, k)) == v
    ensures FromLE(LEBytes(v, k)) == v
  {
    if k > 0 {
      DigitsRoundTrip(v / 0x100, k - 1);
      var be := BEBytes(v, k);
      assert be[..k - 1] == BEBytes(v / 0x100, k - 1);
      var le := LEBytes(v, k);
      assert le[1..] == LEBytes(v / 0x100, k - 1);
    }
  }

  /** Digits read as a number and written back are the digits. */
  lemma {:induction false} NumberRoundTrip(b: seq<byte>)
    ensures BEBytes(FromBE(b), |b|) == b
    ensures LEBytes(FromLE(b), |b|) == b
  {
    if b != [] {
      var n := |b|;
      NumberRoundTrip(b[..n - 1]);
      NumberRoundTrip(b[1..]);
      var v := FromBE(b);
      DivModUnique(v, 0x100, FromBE(b[..n - 1]), b[n - 1]);
      assert b == b[..n - 1] + [b[n - 1]];
      var u := FromLE(b);
      DivModUnique(u, 0x100, FromLE(b[1..]), b[0]);
      assert b == [b[0]] + b[1..];
    }
  }

  lemma {:induction false} Pow256Words()
    ensures Pow256(4) == 0x1_0000_0000 && Pow256(8) == 0x1_0000_0000_0000_0000
  {
    assert Pow256(2) == 0x1_0000;
  }

  lemma {:induction false} FourBytes(a: byte, b: byte, c: byte, d: byte)
    ensures var w := a as int * 0x100_0000 + b as int * 0x1_0000 + c as int * 0x100 + d;
      w / 0x100_0000 == a && (w / 0x1_0000) % 0x100 == b && (w / 0x100) % 0x100 == c && w % 0x100 == d
  {
    var w := a as int * 0x100_0000 + b as int * 0x1_0000 + c as int * 0x100 + d;
    DivModUnique(w, 0x100_0000, a, b * 0x1_0000 + c * 0x100 + d);
    DivModUnique(w, 0x1_0000, a * 0x100 + b, c * 0x100 + d);
    DivModUnique(a * 0x100 + b, 0x100, a, b);
    DivModUnique(w, 0x100, a * 0x1_0000 + b * 0x100 + c, d);
    DivModUnique(a * 0x1_0000 + b * 0x100 + c, 0x100, a * 0x100 + b, c);
  }

  // ---------------------------------------------------------------- 32-bit words

  /** `struct.pack(">I", w)`: most significant byte first. */
  function BE32(w: word): (b: seq<byte>)
    ensures |b| == 4
  {
    BEBytes(w, 4)
  }

  /** `struct.unpack(">I", b)`. */
  function FromBE32(b: seq<byte>): (w: word)
    requires |b| == 4
    ensures w == FromBE(b)
  {
    Pow256Words();
    FromBE(b)
  }

  /** `struct.pack("<I", w)`: least significant byte first. */
  function LE32(w: word): (b: seq<byte>)
    ensures |b| == 4
  {
    LEBytes(w, 4)
  }

  /** `struct.unpack("<I", b)`. */
  function FromLE32(b: seq<byte>): (w: word)
    requires |b| == 4
    ensures w == FromLE(b)
  {
    Pow256Words();
    FromLE(b)
  }

  /** Big-endian encoding and decoding of a word are inverse. */
  lemma {:induction false} BE32RoundTrip(w: word, b: seq<byte>)
    requires |b| == 4
    ensures FromBE32(BE32(w)) == w
    ensures BE32(FromBE32(b)) == b
  {
    Pow256Words();
    DigitsRoundTrip(w, 4);
    NumberRoundTrip(b);
  }

  /** Little-endian encoding and decoding of a word are inverse. */
  lemma {:induction false} LE32RoundTrip(w: word, b: seq<byte>)
    requires |b| == 4
    ensures FromLE32(LE32(w)) == w
    ensures LE32(FromLE32(b)) == b
  {
    Pow256Words();
    DigitsRoundTrip(w, 4);
    NumberRoundTrip(b);
  }

  /** `struct.pack(">" + "I" * len(ws), *ws)`: the words one after the other,
      each most significant byte first. */
  function BEWords(ws: seq<word>): (b: seq<byte>)
    ensures |b| == 4 * |ws|
  {
    if ws == [] then [] else BE32(ws[0]) + BEWords(ws[1..])
  }

  /** `struct.pack("<" + "I" * len(ws), *ws)`. */
  function LEWords(ws: seq<word>): (b: seq<byte>)
    ensures |b| == 4 * |ws|
  {
    if ws == [] then [] else LE32(ws[0]) + LEWords(ws[1..])
  }

  /** `struct.unpack(">" + "I" * (len(b) // 4), b)`. */
  function FromBEWords(b: seq<byte>): (ws: seq<word>)
    requires |b| % 4 == 0
    ensures 4 * |ws| == |b|
  {
    if b == [] then [] else [FromBE32(b[..4])] + FromBEWords(b[4..])
  }

  /** `struct.unpack("<" + "I" * (len(b) // 4), b)`. */
  function FromLEWords(b: seq<byte>): (ws: seq<word>)
    requires |b| % 4 == 0
    ensures 4 * |ws| == |b|
  {
    if b == [] then [] else [FromLE32(b[..4])] + FromLEWords(b[4..])
  }

  /** Word `i` of an unpacked run is read from bytes `4i .. 4i+3`. */
  lemma {:induction false} FromLEWordAt(b: seq<byte>, i: nat)
    requires |b| % 4 == 0 && 4 * i + 4 <= |b|
    ensures FromLEWords(b)[i] == FromLE32(b[4 * i..4 * i + 4])
  {
    if i > 0 {
      FromLEWordAt(b[4..], i - 1);
      assert b[4..][4 * (i - 1)..4 * (i - 1) + 4] == b[4 * i..4 * i + 4];
    }
  }

  /** Unpacking packed words gives the words back. */
  lemma {:induction false} WordsRoundTrip(ws: seq<word>)
    ensures FromBEWords(BEWords(ws)) == ws
    ensures FromLEWords(LEWords(ws)) == ws
  {
    if ws != [] {
      WordsRoundTrip(ws[1..]);
      var b, l := BEWords(ws), LEWords(ws);
      assert b[..4] == BE32(ws[0]) && b[4..] == BEWords(ws[1..]);
      assert l[..4] == LE32(ws[0]) && l[4..] == LEWords(ws[1..]);
      BE32RoundTrip(ws[0], b[..4]);
      LE32RoundTrip(ws[0], l[..4]);
    }
  }

  /** Bytes `4i .. 4i+3` of a run of little-endian words encode word `i`. */
  lemma {:induction false} LEWordAt(ws: seq<word>, i: nat)
    requires i < |ws|
    ensures LEWords(ws)[4 * i..4 * i + 4] == LE32(ws[i])
  {
    if i > 0 {
      LEWordAt(ws[1..], i - 1);
      assert LEWords(ws)[4 * i..4 * i + 4] == LEWords(ws[1..])[4 * (i - 1)..4 * (i - 1) + 4];
    }
  }

  /** The four digits of a little-endian word. */
  lemma {:induction false} LE32Digits(b: seq<byte>)
    requires |b| == 4
    ensures FromLE32(b) == b[0] as int + 0x100 * b[1] as int + 0x1_0000 * b[2] as int + 0x100_0000 * b[3] as int
  {
    var b1, b2, b3 := b[1..], b[2..], b[3..];
    assert b1[1..] == b2 && b2[1..] == b3 && b3[1..] == [];
    assert FromLE(b3) == b[3] as int;
    assert FromLE(b2) == b[2] as int + 0x100 * b[3] as int;
    assert FromLE(b1) == b[1] as int + 0x100 * FromLE(b2);
  }

  /** Appending a word appends its four bytes. */
  lemma {:induction false} WordsAppend(p: seq<word>, w: word)
    ensures BEWords(p + [w]) == BEWords(p) + BE32(w)
    ensures LEWords(p + [w]) == LEWords(p) + LE32(w)
  {
    if p != [] {
      assert (p + [w])[1..] == p[1..] + [w];
      WordsAppend(p[1..], w);
    }
  }

  /** Overwriting the first `|w|` elements after `a` in `a + z` with `w`. */
  lemma {:induction false} Splice<T>(a: seq<T>, w: seq<T>, z: seq<T>)
    requires |w| <= |z|
    ensures (a + z)[..|a|] + w + (a + z)[|a| + |w|..] == a + w + z[|w|..]
  {
    assert (a + z)[..|a|] == a;
    assert (a + z)[|a| + |w|..] == z[|w|..];
  }

  lemma {:induction false} ZerosDrop(n: nat, k: nat)
    requires k <= n
    ensures Zeros(n)[k..] == Zeros(n - k)
  {
    var a, b := Zeros(n)[k..], Zeros(n - k);
    forall i | 0 <= i < n - k
      ensures a[i] == b[i]
    {
    }
  }

  /** Writing four bytes `w` at offset `|a|` of `a + z` gives `a + w` followed
      by the rest of `z`. */
  lemma {:induction false} WriteFour<T>(a: seq<T>, w: seq<T>, z: seq<T>, off: nat, aw: seq<T>, rest: seq<T>)
    requires off == |a| && |w| == 4 <= |z| && aw == a + w && rest == z[4..]
    ensures (a + z)[..off] + w + (a + z)[off + 4..] == aw + rest
  {
    Splice(a, w, z);
  }

  /** `pack_into(">I")` of the word after `p` into a buffer holding the
      words `p` and then zeros: the buffer then holds `p + [w]` and four
      fewer zeros. */
  lemma {:induction false} BEPackStep(p: seq<word>, w: word, z: seq<byte>)
    requires |z| >= 4
    ensures (BEWords(p) + z)[..4 * |p|] + BE32(w) + (BEWords(p) + z)[4 * |p| + 4..]
      == BEWords(p + [w]) + z[4..]
  {
    WordsAppend(p, w);
    WriteFour(BEWords(p), BE32(w), z, 4 * |p|, BEWords(p + [w]), z[4..]);
  }

  /** The same for `pack_into("<I")`. */
  lemma {:induction false} LEPackStep(p: seq<word>, w: word, z: seq<byte>)
    requires |z| >= 4
    ensures (LEWords(p) + z)[..4 * |p|] + LE32(w) + (LEWords(p) + z)[4 * |p| + 4..]
      == LEWords(p + [w]) + z[4..]
  {
    WordsAppend(p, w);
    WriteFour(LEWords(p), LE32(w), z, 4 * |p|, LEWords(p + [w]), z[4..]);
  }

  // ---------------------------------------------------------------- 64-bit words

  /** `struct.pack(">Q", v)`. */
  function BE64(v: quad): (b: seq<byte>)
    ensures |b| == 8
  {
    BEBytes(v, 8)
  }

  function FromBE64(b: seq<byte>): (v: quad)
    requires |b| == 8
    ensures v == FromBE(b)
  {
    Pow256Words();
    FromBE(b)
  }

  /** `struct.pack("<Q", v)`. */
  function LE64(v: quad): (b: seq<byte>)
    ensures |b| == 8
  {
    LEBytes(v, 8)
  }

  function FromLE64(b: seq<byte>): (v: quad)
    requires |b| == 8
    ensures v == FromLE(b)
  {
    Pow256Words();
    FromLE(b)
  }

  /** The 64-bit encodings decode back to the number they encode. */
  lemma {:induction false} Quad64RoundTrip(v: quad)
    ensures FromBE64(BE64(v)) == v
    ensures FromLE64(LE64(v)) == v
  {
    Pow256Words();
    DigitsRoundTrip(v, 8);
  }

  // ---------------------------------------------------------------- writing into a buffer

  /** Overwrite `|b|` bytes of `h` starting at `off`. */
  method Write(h: array<byte>, off: nat, b: seq<byte>)
    requires off + |b| <= h.Length
    modifies h
    ensures h[..] == old(h[..])[..off] + b + old(h[..])[off + |b|..]
  {
    var i := 0;
    while i < |b|
      invariant 0 <= i <= |b|
      invariant forall j :: 0 <= j < h.Length ==> h[j] == if off <= j < off + i then b[j - off] else old(h[j])
    {
      h[off + i] := b[i];
      i := i + 1;
    }
    assert h[..] == old(h[..])[..off] + b + old(h[..])[off + |b|..];
  }

  /** `struct.pack_into(">I", h, off, w)`. */
  method PackBE32(h: array<byte>, off: nat, w: word)
    requires off + 4 <= h.Length
    modifies h
    ensures h[..] == old(h[..])[..off] + BE32(w) + old(h[..])[off + 4..]
  {
    Write(h, off, BE32(w));
  }

  /** `struct.pack_into("<I", h, off, w)`. */
  method PackLE32(h: array<byte>, off: nat, w: word)
    requires off + 4 <= h.Length
    modifies h
    ensures h[..] == old(h[..])[..off] + LE32(w) + old(h[..])[off + 4..]
  {
    Write(h, off, LE32(w));
  }

  /** `struct.pack_into(">I", h, off, w)` on a buffer holding the words `p`
      and then zeros, `off` being just after `p`. */
  method BEPackNext(h: array<byte>, off: nat, ghost p: seq<word>, w: word)
    requires off == 4 * |p| && off + 4 <= h.Length && h[..] == BEWords(p) + Zeros(h.Length - off)
    modifies h
    ensures h[..] == BEWords(p + [w]) + Zeros(h.Length - off - 4)
  {
    BEPackStep(p, w, Zeros(h.Length - off));
    ZerosDrop(h.Length - off, 4);
    PackBE32(h, off, w);
  }

  /** `struct.pack_into("<I", h, off, w)` in the same situation. */
  method LEPackNext(h: array<byte>, off: nat, ghost p: seq<word>, w: word)
    requires off == 4 * |p| && off + 4 <= h.Length && h[..] == LEWords(p) + Zeros(h.Length - off)
    modifies h
    ensures h[..] == LEWords(p + [w]) + Zeros(h.Length - off - 4)
  {
    LEPackStep(p, w, Zeros(h.Length - off));
    ZerosDrop(h.Length - off, 4);
    PackLE32(h, off, w);
  }
}
