/** Machine words and byte strings: fixed widths, conversion between signed and unsigned words, and the
    little-endian layout the archive writes. */
module Bytes {

  const TWO_32: int := 0x1_0000_0000
  const TWO_64: int := 0x1_0000_0000_0000_0000

  type Byte = x: int | 0 <= x < 256
  type ByteArray = seq<Byte>

  // int / int32_t, int64_t, uint64_t. A double travels as its opaque 64-bit pattern.
  type Int32 = x: int | -0x8000_0000 <= x < 0x8000_0000
  type Int64 = x: int | -0x8000_0000_0000_0000 <= x < 0x8000_0000_0000_0000
  type Word32 = x: int | 0 <= x < TWO_32
  type Word64 = x: int | 0 <= x < TWO_64
  type Double = Word64

  // MQL_DateTime: signed milliseconds since the epoch.
  type DateTime = Int64

  // A std::string: its length fits in size_t.
  type Text = s: seq<Byte> | |s| < TWO_64

  // Integral conversion to an unsigned type: the value modulo 2^N, for negative values as well.
  function ToUint32(x: int): Word32 { x % TWO_32 }
  function ToUint64(x: int): Word64 { x % TWO_64 }

  // Integral conversion to a signed type: the representative of the residue class that fits.
  function ToInt32(u: Word32): Int32 { if u < 0x8000_0000 then u else u - TWO_32 }
  function ToInt64(u: Word64): Int64 { if u < 0x8000_0000_0000_0000 then u else u - TWO_64 }

  lemma Signed64RoundTrip(x: Int64)
    ensures ToUint64(x) == if x < 0 then x + 0x1_0000_0000_0000_0000 else x
    ensures ToInt64(ToUint64(x)) == x
  {
  }

  lemma Unsigned64RoundTrip(u: Word64)
    ensures ToUint64(ToInt64(u)) == u
  {
  }

  lemma Unsigned64Injective()
    ensures forall x: Int64, y: Int64 {:trigger ToUint64(x), ToUint64(y)} :: ToUint64(x) == ToUint64(y) ==> x == y
  {
    forall x: Int64, y: Int64 | ToUint64(x) == ToUint64(y)
      ensures x == y
    {
      Signed64RoundTrip(x);
      Signed64RoundTrip(y);
    }
  }

  // 256 to the power width.
  function Pow256(width: nat): (p: nat)
    ensures p > 0
  {
    if width == 0 then 1 else 256 * Pow256(width - 1)
  }

  // Byte number i of n, the least significant byte first.
  function Octet(n: nat, i: nat): Byte {
    if i == 0 then n % 256 else Octet(n / 256, i - 1)
  }

  function LittleEndian(n: nat, width: nat): ByteArray {
    seq(width, i requires 0 <= i => Octet(n, i))
  }

  function FromLittleEndian(bs: ByteArray): (n: nat)
    ensures n < Pow256(|bs|)
  {
    if bs == [] then 0 else bs[0] + 256 * FromLittleEndian(bs[1..])
  }

  // Byte number i is digit number i to the base 256.
  lemma {:induction false} OctetIsDigit(n: nat, i: nat)
    ensures Octet(n, i) == (n / Pow256(i)) % 256
  {
    if i > 0 {
      OctetIsDigit(n / 256, i - 1);
      DivideTwice(n, 256, Pow256(i - 1));
    }
  }

  lemma DivideTwice(n: nat, a: nat, b: nat)
    requires a > 0 && b > 0
    ensures (n / a) / b == n / (a * b)
  {
    var q, r, s := (n / a) / b, (n / a) % b, n % a;
    var d := a * b;
    assert n == a * (n / a) + s && n / a == b * q + r;
    assert a * (b * q + r) == d * q + a * r by {
      assert a * (b * q) == d * q;
    }
    assert 0 <= a * r + s < d by {
      assert a * r <= a * (b - 1) == d - a;
    }
    QuotientUnique(n, d, q, a * r + s);
  }

  lemma QuotientUnique(n: nat, d: nat, q: nat, r: nat)
    requires n == d * q + r && r < d
    ensures n / d == q
  {
    var e := q - n / d;
    assert d * e == d * q - d * (n / d) == n % d - r;
    MulBound(d, e);
  }

  lemma MulBound(p: int, d: int)
    requires p >= 0
    ensures d >= 1 ==> p * d >= p
    ensures d <= -1 ==> p * d <= -p
  {
  }

  lemma {:induction false} LittleEndianRoundTrip(n: nat, width: nat)
    requires n < Pow256(width)
    ensures FromLittleEndian(LittleEndian(n, width)) == n
  {
    if width == 0 {
    } else {
      LittleEndianRoundTrip(n / 256, width - 1);
      assert LittleEndian(n, width)[1..] == LittleEndian(n / 256, width - 1);
    }
  }

  lemma {:induction false} FromLittleEndianRoundTrip(bs: ByteArray)
    ensures LittleEndian(FromLittleEndian(bs), |bs|) == bs
  {
    if bs == [] {
    } else {
      FromLittleEndianRoundTrip(bs[1..]);
      var n, rest := FromLittleEndian(bs), FromLittleEndian(bs[1..]);
      forall i | 0 <= i < |bs|
        ensures Octet(n, i) == bs[i]
      {
        if i > 0 {
          assert LittleEndian(rest, |bs| - 1)[i - 1] == bs[1..][i - 1];
        }
      }
    }
  }

  lemma Pow256Words()
    ensures Pow256(4) == TWO_32 && Pow256(8) == TWO_64
  {
    assert Pow256(1) == 256 && Pow256(2) == 0x1_0000 && Pow256(3) == 0x100_0000;
    assert Pow256(4) == TWO_32;
    assert Pow256(5) == 0x100_0000_0000 && Pow256(6) == 0x1_0000_0000_0000;
    assert Pow256(7) == 0x100_0000_0000_0000;
  }
}
