/** `pack_2bit`, identical in scripts/send_vdif_std_mtu_sync_seq.py and
    sim_send_vdif/send_vdif_std_mtu_sync_seq.py. The samples are a numpy
    `uint8` array, so each shift wraps at 8 bits: the model works on `bv8`. */
module TwoBit {
  /** One row `q4[k]` of the reshaped samples: `q0<<6 | q1<<4 | q2<<2 | q3`. */
  function PackFour(a: bv8, b: bv8, c: bv8, d: bv8): bv8 {
    (a << 6) | (b << 4) | (c << 2) | d
  }

  /** Sample `i`, reading past the end as the zero padding. */
  function At(q: seq<bv8>, i: nat): bv8 {
    if i < |q| then q[i] else 0
  }

  /** `np.pad(q, (0, pad))` with `pad = (-len(q)) % 4`. */
  function Padded(q: seq<bv8>): (p: seq<bv8>)
    ensures |p| % 4 == 0 && |q| <= |p| < |q| + 4
  {
    q + seq((-|q|) % 4, _ => 0)
  }

  /** The padded samples are the samples, then zeros. */
  lemma {:induction false} PaddedAt(q: seq<bv8>, i: nat)
    requires i < |Padded(q)|
    ensures Padded(q)[i] == At(q, i)
  {
  }

  /** The rows of `q.reshape(-1, 4)`, each packed into one byte. */
  function PackRows(p: seq<bv8>): (b: seq<bv8>)
    requires |p| % 4 == 0
    ensures |b| == |p| / 4
    decreases |p|
  {
    if |p| == 0 then [] else [PackFour(p[0], p[1], p[2], p[3])] + PackRows(p[4..])
  }

  /** Byte `k` packs row `k`. */
  lemma {:induction false} PackRowsAt(p: seq<bv8>, k: nat)
    requires |p| % 4 == 0 && k < |p| / 4
    ensures PackRows(p)[k] == PackFour(p[4 * k], p[4 * k + 1], p[4 * k + 2], p[4 * k + 3])
    decreases |p|
  {
    if k > 0 {
      PackRowsAt(p[4..], k - 1);
    }
  }

  /** `pack_2bit`: one byte per four samples, the first sample in the top two
      bits, the last row padded with zero samples. */
  function Pack2Bit(q: seq<bv8>): (b: seq<bv8>)
    ensures |b| == (|q| + 3) / 4
  {
    PackRows(Padded(q))
  }

  /** Byte `k` packs samples `4k .. 4k+3`, zero past the end. */
  lemma {:induction false} Pack2BitAt(q: seq<bv8>, k: nat)
    requires k < |Pack2Bit(q)|
    ensures Pack2Bit(q)[k] == PackFour(At(q, 4 * k), At(q, 4 * k + 1), At(q, 4 * k + 2), At(q, 4 * k + 3))
  {
    var p := Padded(q);
    PackRowsAt(p, k);
    PaddedAt(q, 4 * k);
    PaddedAt(q, 4 * k + 1);
    PaddedAt(q, 4 * k + 2);
    PaddedAt(q, 4 * k + 3);
  }

  /** Two-bit field `j` of a byte, counting from the top. */
  function Field(b: bv8, j: nat): bv8
    requires j < 4
  {
    if j == 0 then (b >> 6) & 3
    else if j == 1 then (b >> 4) & 3
    else if j == 2 then (b >> 2) & 3
    else b & 3
  }

  /** The inverse reading: four two-bit samples per byte, top bits first. */
  function Unpack2Bit(b: seq<bv8>): (q: seq<bv8>)
    ensures |q| == 4 * |b|
  {
    seq(4 * |b|, i requires 0 <= i < 4 * |b| => Field(b[i / 4], i % 4))
  }

  /** For samples below 4 the fields do not overlap and each comes back. */
  lemma {:induction false} FieldsOfFour(a: bv8, b: bv8, c: bv8, d: bv8)
    requires a < 4 && b < 4 && c < 4 && d < 4
    ensures Field(PackFour(a, b, c, d), 0) == a && Field(PackFour(a, b, c, d), 1) == b
    ensures Field(PackFour(a, b, c, d), 2) == c && Field(PackFour(a, b, c, d), 3) == d
    ensures PackFour(a, b, c, d) as int == 64 * a as int + 16 * b as int + 4 * c as int + d as int
  {
  }

  predicate TwoBitSamples(q: seq<bv8>) {
    forall i :: 0 <= i < |q| ==> q[i] < 4
  }

  /** Every unpacked sample fits in two bits. */
  lemma {:induction false} UnpackTwoBit(b: seq<bv8>)
    ensures TwoBitSamples(Unpack2Bit(b))
  {
  }

  /** Field `j` of a packed row is sample `j` of the row. */
  lemma {:induction false} FieldOfRow(q: seq<bv8>, k: nat, j: nat)
    requires TwoBitSamples(q) && j < 4
    ensures Field(PackFour(At(q, 4 * k), At(q, 4 * k + 1), At(q, 4 * k + 2), At(q, 4 * k + 3)), j) == At(q, 4 * k + j)
  {
    FieldsOfFour(At(q, 4 * k), At(q, 4 * k + 1), At(q, 4 * k + 2), At(q, 4 * k + 3));
  }

  /** Sample `i` of an unpacked packed block is sample `i` of the input. */
  lemma {:induction false} UnpackPackAt(q: seq<bv8>, i: nat)
    requires TwoBitSamples(q) && i < 4 * |Pack2Bit(q)|
    ensures Unpack2Bit(Pack2Bit(q))[i] == At(q, i)
  {
    var b := Pack2Bit(q);
    var k, j := i / 4, i % 4;
    assert Unpack2Bit(b)[i] == Field(b[k], j);
    Pack2BitAt(q, k);
    FieldOfRow(q, k, j);
  }

  /** Unpacking a packed block of two-bit samples gives back the samples
      followed by the zero padding. */
  lemma {:induction false} UnpackPack(q: seq<bv8>)
    requires TwoBitSamples(q)
    ensures Unpack2Bit(Pack2Bit(q)) == Padded(q)
  {
    var u := Unpack2Bit(Pack2Bit(q));
    var p := Padded(q);
    forall i | 0 <= i < |u|
      ensures u[i] == p[i]
    {
      UnpackPackAt(q, i);
    }
  }

  /** The four fields of a byte put back together give the byte. */
  lemma {:induction false} Recombine(b: bv8)
    ensures PackFour(Field(b, 0), Field(b, 1), Field(b, 2), Field(b, 3)) == b
  {
  }

  lemma {:induction false} PackUnpackAt(b: seq<bv8>, k: nat)
    requires k < |b|
    ensures Pack2Bit(Unpack2Bit(b))[k] == b[k]
  {
    var q := Unpack2Bit(b);
    Pack2BitAt(q, k);
    assert At(q, 4 * k) == Field(b[k], 0) && At(q, 4 * k + 1) == Field(b[k], 1);
    assert At(q, 4 * k + 2) == Field(b[k], 2) && At(q, 4 * k + 3) == Field(b[k], 3);
    Recombine(b[k]);
  }

  /** Packing the unpacked samples of a block gives the block back. */
  lemma {:induction false} PackUnpack(b: seq<bv8>)
    ensures Pack2Bit(Unpack2Bit(b)) == b
  {
    var r := Pack2Bit(Unpack2Bit(b));
    forall k | 0 <= k < |b|
      ensures r[k] == b[k]
    {
      PackUnpackAt(b, k);
    }
  }

  /** A block of `4 * m` samples packs into exactly `m` bytes. */
  lemma {:induction false} PackLength(q: seq<bv8>, m: nat)
    requires |q| == 4 * m
    ensures |Pack2Bit(q)| == m && Padded(q) == q
  {
    assert (-|q|) % 4 == 0;
  }
}
