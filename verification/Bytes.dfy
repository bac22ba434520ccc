/** Big-endian fixed-width integers, two's complement and digests, as used by every hashed or signed message. */
module Bytes {
  import opened Base

  type Byte = b: int | 0 <= b < 256

  type Bytes32 = s: seq<Byte> | |s| == 32 witness seq(32, _ => 0)

  /** SHA-256 as an injective function: a digest is identified with what was hashed. */
  datatype Digest = Digest(preimage: seq<Byte>)

  /** A byte of a message that is hashed: one of its own, or the `index`-th byte of a digest it contains. */
  datatype Symbol = Octet(value: Byte) | Part(inner: Digest, index: nat)

  /** The digest of a message that contains other digests. */
  datatype OuterDigest = OuterDigest(message: seq<Symbol>)

  function Octets(bs: seq<Byte>): (r: seq<Symbol>)
    ensures |r| == |bs|
  {
    seq(|bs|, i requires 0 <= i < |bs| => Octet(bs[i]))
  }

  /** The 32 bytes of a digest. */
  function Parts(d: Digest): (r: seq<Symbol>)
    ensures |r| == 32
  {
    seq(32, i requires 0 <= i => Part(d, i))
  }

  lemma OctetsInjective(a: seq<Byte>, b: seq<Byte>)
    requires Octets(a) == Octets(b)
    ensures a == b
  {
    forall i | 0 <= i < |a| ensures |a| == |b| && a[i] == b[i] {
      assert Octets(a)[i] == Octet(a[i]) && Octets(b)[i] == Octet(b[i]);
    }
  }

  lemma PartsInjective(d: Digest, e: Digest)
    requires Parts(d) == Parts(e)
    ensures d == e
  {
    assert Parts(d)[0] == Part(d, 0) && Parts(e)[0] == Part(e, 0);
  }

  function Pow256(n: nat): (p: nat)
    ensures p > 0
  {
    if n == 0 then 1 else 256 * Pow256(n - 1)
  }

  /** The low `width` base-256 digits of `v`, most significant first. */
  function BigEndian(v: nat, width: nat): (bs: seq<Byte>)
    ensures |bs| == width
  {
    if width == 0 then [] else BigEndian(v / 256, width - 1) + [v % 256]
  }

  function FromBigEndian(bs: seq<Byte>): (v: nat)
    ensures v < Pow256(|bs|)
  {
    if bs == [] then 0 else 256 * FromBigEndian(bs[..|bs| - 1]) + bs[|bs| - 1]
  }

  lemma {:induction false} BigEndianRoundTrip(v: nat, width: nat)
    requires v < Pow256(width)
    ensures FromBigEndian(BigEndian(v, width)) == v
  {
    if width > 0 {
      BigEndianRoundTrip(v / 256, width - 1);
      assert BigEndian(v, width)[..width - 1] == BigEndian(v / 256, width - 1);
    }
  }

  lemma {:induction false} FromBigEndianRoundTrip(bs: seq<Byte>)
    ensures BigEndian(FromBigEndian(bs), |bs|) == bs
  {
    if bs != [] {
      FromBigEndianRoundTrip(bs[..|bs| - 1]);
    }
  }

  lemma BigEndianInjective(v: nat, w: nat, width: nat)
    requires v < Pow256(width) && w < Pow256(width)
    requires BigEndian(v, width) == BigEndian(w, width)
    ensures v == w
  {
    BigEndianRoundTrip(v, width);
    BigEndianRoundTrip(w, width);
  }

  lemma WordSizes()
    ensures Pow256(4) == 0x1_0000_0000 && Pow256(8) == TWO_64 && Pow256(16) == TWO_128
  {
    assert Pow256(4) == 256 * (256 * (256 * (256 * Pow256(0))));
    assert Pow256(8) == 256 * (256 * (256 * (256 * Pow256(4))));
    assert Pow256(12) == 256 * (256 * (256 * (256 * Pow256(8))));
    assert Pow256(16) == 256 * (256 * (256 * (256 * Pow256(12))));
  }

  const TWO_63 := 0x8000_0000_0000_0000
  const TWO_64 := 0x1_0000_0000_0000_0000
  const TWO_128 := 0x1_0000_0000_0000_0000_0000_0000_0000_0000

  // ---------------------------------------------------------------- signed 64-bit and 128-bit integers

  /** The unsigned word with the same two's-complement bits. */
  function Unsigned(v: int): int {
    if v < 0 then v + TWO_64 else v
  }

  function I64Bytes(v: int): (bs: seq<Byte>)
    requires InI64(v)
    ensures |bs| == 8
  {
    BigEndian(Unsigned(v), 8)
  }

  function FromI64Bytes(bs: seq<Byte>): (v: int)
    requires |bs| == 8
    ensures InI64(v)
  {
    WordSizes();
    var u := FromBigEndian(bs);
    if u >= TWO_63 then u - TWO_64 else u
  }

  lemma I64RoundTrip(v: int)
    requires InI64(v)
    ensures FromI64Bytes(I64Bytes(v)) == v
  {
    WordSizes();
    BigEndianRoundTrip(Unsigned(v), 8);
  }

  lemma FromI64RoundTrip(bs: seq<Byte>)
    requires |bs| == 8
    ensures I64Bytes(FromI64Bytes(bs)) == bs
  {
    WordSizes();
    FromBigEndianRoundTrip(bs);
  }

  function Unsigned128(v: I128): nat {
    assert InI128(v);
    if v < 0 then v + TWO_128 else v
  }

  /** `v.to_be_bytes()` on an i128. */
  function I128Bytes(v: I128): (bs: seq<Byte>)
    ensures |bs| == 16
  {
    BigEndian(Unsigned128(v), 16)
  }

  lemma I128Injective(v: I128, w: I128)
    requires I128Bytes(v) == I128Bytes(w)
    ensures v == w
  {
    assert InI128(v) && InI128(w);
    WordSizes();
    BigEndianInjective(Unsigned128(v), Unsigned128(w), 16);
  }

  lemma DivDiv(v: nat, p: nat)
    requires p > 0
    ensures v / 256 / p == v / (256 * p)
  {
    var q, r := v / 256, v % 256;
    var a, b := q / p, q % p;
    assert v == 256 * q + r && q == p * a + b;
    assert v == (256 * p) * a + (256 * b + r) by {
      assert 256 * (p * a) == 256 * p * a;
    }
    Quotient(v, 256 * p, a, 256 * b + r);
  }

  lemma ScaleUp(a: nat, b: nat, d: nat)
    requires a <= b
    ensures d * a <= d * b
  {
  }

  lemma Quotient(v: nat, d: nat, a: nat, rest: nat)
    requires rest < d && v == d * a + rest
    ensures v / d == a
  {
    if v / d < a {
      ScaleUp(v / d + 1, a, d);
    } else if a < v / d {
      ScaleUp(a + 1, v / d, d);
    }
  }

  // Shifting the word right and masking the low byte gives the same bytes as repeated division.
  lemma {:induction false} BigEndianByShift(v: nat, width: nat, k: nat)
    requires k < width
    ensures BigEndian(v, width)[k] == v / Pow256(width - 1 - k) % 256
  {
    if k == width - 1 {
      assert Pow256(0) == 1;
    } else {
      BigEndianByShift(v / 256, width - 1, k);
      DivDiv(v, Pow256(width - 2 - k));
    }
  }
}
