/**
 * Fixed-width C integer types used by the firmware, modelled as subset types
 * of `int`, and the few conversions between them that the firmware relies on.
 */
module CInts {

  type Int8 = x: int | -128 <= x < 128
  type UInt8 = x: int | 0 <= x < 256
  type Int16 = x: int | -32768 <= x < 32768
  type UInt16 = x: int | 0 <= x < 65536
  type UInt32 = x: int | 0 <= x < 0x1_0000_0000

  datatype Option<+T> = None | Some(value: T)

  /** The byte whose unsigned value is `x`, assembled from its two nibbles. */
  function ByteOf(x: UInt8): (b: bv8)
    ensures b as int == x
  {
    NibblesCombine(Nibble(x / 16), Nibble(x % 16));
    (Nibble(x / 16) << 4) | Nibble(x % 16)
  }

  /** Reading a byte as unsigned and converting back gives the same byte. */
  lemma ByteOfValue(b: bv8)
    ensures ByteOf(b as int) == b
  {
    BvValueInjective(ByteOf(b as int), b);
  }

  lemma BvValueInjective(a: bv8, b: bv8)
    requires a as int == b as int
    ensures a == b
  {
  }

  /** The byte holding the small number `n`, counted up one at a time. */
  function Nibble(n: nat): (b: bv8)
    requires n < 16
    ensures b as int == n && b < 16
  {
    if n == 0 then 0 else Nibble(n - 1) + 1
  }

  lemma NibblesCombine(hi: bv8, lo: bv8)
    requires hi < 16 && lo < 16
    ensures ((hi << 4) | lo) as int == 16 * hi as int + lo as int
  {
  }

  /** Two's-complement byte of a signed 8-bit value, as it lies in memory. */
  function Int8ToByte(x: Int8): (b: bv8)
    ensures x >= 0 ==> b as int == x
    ensures x < 0 ==> b as int == x + 256
  {
    ByteOf(if x < 0 then x + 256 else x)
  }

  /** Signed 8-bit value of a byte read as two's complement. */
  function ByteToInt8(b: bv8): (x: Int8)
    ensures b < 0x80 ==> x == b as int
    ensures b >= 0x80 ==> x == b as int - 256
  {
    if b < 0x80 then b as int else b as int - 256
  }

  lemma ByteToInt8Injective(a: bv8, b: bv8)
    requires ByteToInt8(a) == ByteToInt8(b)
    ensures a == b
  {
    BvValueInjective(a, b);
  }

  lemma Int8ByteRoundTrip(x: Int8, b: bv8)
    ensures ByteToInt8(Int8ToByte(x)) == x
    ensures Int8ToByte(ByteToInt8(b)) == b
  {
    BvValueInjective(Int8ToByte(ByteToInt8(b)), b);
  }

  /** Low and high byte of a 16-bit value, and the value rebuilt from them (little-endian order). */
  function LowByte(w: bv16): bv8 { (w & 0xFF) as bv8 }
  function HighByte(w: bv16): bv8 { (w >> 8) as bv8 }
  function JoinBytes(lo: bv8, hi: bv8): bv16 { (hi as bv16 << 8) | lo as bv16 }

  lemma JoinSplit(w: bv16)
    ensures JoinBytes(LowByte(w), HighByte(w)) == w
  {
  }

  lemma SplitJoin(lo: bv8, hi: bv8)
    ensures LowByte(JoinBytes(lo, hi)) == lo && HighByte(JoinBytes(lo, hi)) == hi
  {
  }

  /**
   * C division `a / b` for a positive divisor: the quotient is truncated toward
   * zero, so `q * b` lies between zero and `a`, less than one divisor away from `a`.
   */
  function TruncDiv(a: int, b: int): (q: int)
    requires b > 0
    ensures a >= 0 ==> q >= 0 && 0 <= q * b <= a < q * b + b
    ensures a < 0 ==> q <= 0 && a <= q * b <= 0 && q * b - b < a
  {
    if a >= 0 then
      FloorDivBounds(a, b);
      a / b
    else
      FloorDivBounds(-a, b);
      NegateProduct((-a) / b, b);
      -((-a) / b)
  }

  lemma FloorDivBounds(n: nat, b: int)
    requires b > 0
    ensures n / b >= 0 && 0 <= (n / b) * b <= n < (n / b) * b + b
  {
    assert n == (n / b) * b + n % b;
  }

  lemma NegateProduct(k: int, b: int)
    ensures (-k) * b == -(k * b)
  {
  }

  lemma MulMonotone(x: int, y: int, d: nat)
    requires x <= y
    ensures x * d <= y * d
  {
    assert y * d - x * d == (y - x) * d;
  }

  /** C's `(int16_t)` cast of a 32-bit unsigned value: reduction modulo 2^16 into the signed range. */
  function ToInt16(v: UInt32): (r: Int16)
    ensures (r - v) % 65536 == 0
  {
    var m := v % 65536;
    if m < 32768 then m else m - 65536
  }
}
