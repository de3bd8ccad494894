/** The fixed-width integer field formats of the codec: little-endian unsigned
    ('<H', '<I', '<Q', 'B'), two's complement signed ('<h', '<i') and '?' booleans. */
module IntFormats {
  import opened Results

  type byte = x: int | 0 <= x < 256
  type Bytes = seq<byte>

  function Pow256(n: nat): (p: nat)
    ensures p >= 1
  {
    if n == 0 then 1 else 256 * Pow256(n - 1)
  }

  /** The unsigned value of a little-endian byte string. */
  function UIntLE(bs: Bytes): nat
  {
    if |bs| == 0 then 0 else bs[0] + 256 * UIntLE(bs[1..])
  }

  /** The signed (two's complement) value of a little-endian byte string. */
  function IntLE(bs: Bytes): int
  {
    var u := UIntLE(bs);
    if |bs| > 0 && u >= Pow256(|bs|) / 2 then u - Pow256(|bs|) else u
  }

  /** The `n` little-endian bytes of `x` (only the low `n` bytes are kept). */
  function UIntToLE(x: nat, n: nat): (bs: Bytes)
    ensures |bs| == n
  {
    if n == 0 then [] else [x % 256] + UIntToLE(x / 256, n - 1)
  }

  /** struct.pack of an unsigned format of `n` bytes: out-of-range values raise. */
  function PackUInt(x: int, n: nat): (r: Result<Bytes>)
    ensures r.Ok? <==> 0 <= x < Pow256(n)
    ensures r.Ok? ==> |r.value| == n && UIntLE(r.value) == x
  {
    if 0 <= x < Pow256(n) then
      UIntRoundTrip(x, n);
      Ok(UIntToLE(x, n))
    else
      Err(StructError)
  }

  /** '?' format: any non-zero byte unpacks as True. */
  function BoolOf(b: byte): bool
  {
    b != 0
  }

  lemma {:induction false} UIntLEBound(bs: Bytes)
    ensures UIntLE(bs) < Pow256(|bs|)
  {
    if |bs| > 0 {
      UIntLEBound(bs[1..]);
    }
  }

  /** Decoding the packed bytes gives the value back. */
  lemma {:induction false} UIntRoundTrip(x: nat, n: nat)
    requires x < Pow256(n)
    ensures UIntLE(UIntToLE(x, n)) == x
  {
    if n > 0 {
      var bs := UIntToLE(x, n);
      assert bs[1..] == UIntToLE(x / 256, n - 1);
      UIntRoundTrip(x / 256, n - 1);
    }
  }

  /** Packing the decoded value gives the bytes back. */
  lemma {:induction false} BytesRoundTrip(bs: Bytes)
    ensures UIntToLE(UIntLE(bs), |bs|) == bs
  {
    if |bs| > 0 {
      var u := UIntLE(bs);
      assert u % 256 == bs[0] && u / 256 == UIntLE(bs[1..]);
      BytesRoundTrip(bs[1..]);
    }
  }

  /** Little-endian integers of two bytes: b0 + 256 * b1. */
  lemma UInt16Value(bs: Bytes)
    requires |bs| == 2
    ensures UIntLE(bs) == bs[0] as int + 256 * bs[1] as int
  {
    assert UIntLE(bs[1..]) == bs[1] as int + 256 * UIntLE(bs[1..][1..]);
    assert bs[1..][1..] == [];
  }

  /** Little-endian integers of four bytes. */
  lemma UInt32Value(bs: Bytes)
    requires |bs| == 4
    ensures UIntLE(bs) == bs[0] as int + 256 * bs[1] as int + 65536 * bs[2] as int + 16777216 * bs[3] as int
  {
    var t1, t2, t3 := bs[1..], bs[2..], bs[3..];
    assert t1[1..] == t2 && t2[1..] == t3 && t3[1..] == [];
    assert UIntLE(t3) == bs[3] as int;
    assert UIntLE(t2) == bs[2] as int + 256 * UIntLE(t3);
    assert UIntLE(t1) == bs[1] as int + 256 * UIntLE(t2);
  }

  /** Two-byte signed integers are two's complement. */
  lemma {:induction false} Int16Value(bs: Bytes)
    requires |bs| == 2
    ensures IntLE(bs) == var u := bs[0] as int + 256 * bs[1] as int; if bs[1] >= 128 then u - 65536 else u
  {
    UInt16Value(bs);
  }

  /** A signed field of `n` bytes lies in [-256^n / 2, 256^n / 2). */
  lemma {:induction false} IntLERange(bs: Bytes)
    requires |bs| > 0
    ensures -(Pow256(|bs|) / 2) <= IntLE(bs) < Pow256(|bs|) / 2
  {
    UIntLEBound(bs);
    var half := 128 * Pow256(|bs| - 1);
    assert Pow256(|bs|) == 2 * half;
    assert Pow256(|bs|) / 2 == half;
  }

  /** Four 0xff bytes decode as the signed 32-bit value -1. */
  lemma MinusOneInt32()
    ensures IntLE([255, 255, 255, 255]) == -1
  {
    UInt32Value([255, 255, 255, 255]);
  }

  // ------------------------------------------------------------- bit flags

  function Pow2(k: nat): (p: nat)
    ensures p >= 1
  {
    if k == 0 then 1 else 2 * Pow2(k - 1)
  }

  /** `(p & 2**k) != 0` on Python's integers, which behave as infinite two's
      complement; floor division by a power of two keeps that meaning for
      negative `p`. */
  predicate Bit(p: int, k: nat)
  {
    (p / Pow2(k)) % 2 == 1
  }

  /** The low three flag bits of a little-endian int16 are those of its first
      byte, whatever the sign of the value. */
  lemma LowFlagBits(bs: Bytes, k: nat)
    requires |bs| == 2 && k < 3
    ensures Bit(IntLE(bs), k) == Bit(bs[0], k)
  {
    Int16Value(bs);
    var m := if bs[1] >= 128 then bs[1] as int - 256 else bs[1] as int;
    assert IntLE(bs) == bs[0] as int + 256 * m;
    assert Pow2(0) == 1 && Pow2(1) == 2 && Pow2(2) == 4;
    FlagBitsOfMultiple(bs[0], m, k);
  }

  lemma FlagBitsOfMultiple(b: int, m: int, k: nat)
    requires k < 3
    ensures Bit(b + 256 * m, k) == Bit(b, k)
  {
    if k == 0 {
      assert Pow2(0) == 1;
      Parity(b, 128 * m);
    } else if k == 1 {
      assert Pow2(1) == 2;
      HalvedMultiple(b, 64 * m, 2);
    } else {
      assert Pow2(2) == 4;
      HalvedMultiple(b, 32 * m, 4);
    }
  }

  /** Adding an even number keeps the parity, for negative `x` too. */
  lemma Parity(x: int, c: int)
    ensures (x + 2 * c) % 2 == x % 2
  {
    var d, r := x / 2, x % 2;
    assert x == 2 * d + r;
    assert x + 2 * c == 2 * (d + c) + r;
  }

  /** Adding `q * 2c` to `b` adds the even number `2c` to `b / q`. */
  lemma HalvedMultiple(b: int, c: int, q: int)
    requires q == 2 || q == 4
    ensures ((b + q * (2 * c)) / q) % 2 == (b / q) % 2
  {
    var quot, rem := b / q, b % q;
    assert b + q * (2 * c) == q * (quot + 2 * c) + rem;
    assert (b + q * (2 * c)) / q == quot + 2 * c;
    Parity(quot, c);
  }

  /** -1 has every flag set: `-1 & mask` is `mask`. */
  lemma MinusOneFlags(k: nat)
    requires k < 3
    ensures Bit(-1, k)
  {
    assert Pow2(0) == 1 && Pow2(1) == 2 && Pow2(2) == 4;
  }
}
