/**
  Small shared vocabulary for the launcher model: optional values, bytes,
  and the fixed-width C integer conversions the source relies on.
 */
module Common {

  /** A value that may be absent, standing in for a NULL pointer. */
  datatype Option<+T> = None | Some(value: T)

  /** One octet of a wire buffer. */
  type byte = x: int | 0 <= x < 256

  /** Outcome of a single-shot procedure that either completes or ends the process. */
  datatype Exit = Done | Fatal

  const TWO_16: nat := 0x1_0000
  const TWO_31: nat := 0x8000_0000
  const TWO_32: nat := 0x1_0000_0000

  /** Conversion of an arbitrary integer to a C `__u16` (wrap-around). */
  function U16(x: int): (r: nat)
    ensures r < TWO_16
    ensures 0 <= x < TWO_16 ==> r == x
  {
    x % TWO_16
  }

  /** Conversion of an arbitrary integer to a C `__u32` (wrap-around). */
  function U32(x: int): (r: nat)
    ensures r < TWO_32
    ensures 0 <= x < TWO_32 ==> r == x
  {
    x % TWO_32
  }

  /** Two's-complement reading of a 32-bit pattern as a C `int`. */
  function S32(u: nat): (r: int)
    requires u < TWO_32
    ensures -(TWO_31 as int) <= r < TWO_31
    ensures U32(r) == u
  {
    if u < TWO_31 then u else u - TWO_32
  }

  /** C's integer `/` by a positive divisor, which rounds toward zero. */
  function TruncDiv(a: int, b: int): (q: int)
    requires b > 0
    ensures a >= 0 ==> q >= 0 && q * b <= a < q * b + b
    ensures a < 0 ==> q <= 0 && q * b - b < a <= q * b
  {
    if a >= 0 then
      NatDiv(a, b);
      a / b
    else
      NatDiv(-a, b);
      assert -((-a) / b) * b == -(((-a) / b) * b);
      -((-a) / b)
  }

  /** Division of a natural number by a positive one rounds down. */
  lemma NatDiv(a: int, b: int)
    requires a >= 0 && b > 0
    ensures a / b >= 0 && (a / b) * b <= a < (a / b) * b + b
  {
    var q, r := a / b, a % b;
    assert a == q * b + r && 0 <= r < b;
  }

  /** A C `int` survives the trip through its 32-bit pattern. */
  lemma S32OfU32(x: int)
    requires -(TWO_31 as int) <= x < TWO_31
    ensures S32(U32(x)) == x
  {
  }

  /** Little-endian encoding of a 16-bit value. */
  function LE16(v: nat): (r: seq<byte>)
    requires v < TWO_16
    ensures |r| == 2
  {
    [v % 256, v / 256]
  }

  /** Little-endian encoding of a 32-bit value. */
  function LE32(v: nat): (r: seq<byte>)
    requires v < TWO_32
    ensures |r| == 4
  {
    [v % 256, (v / 256) % 256, (v / 256 / 256) % 256, v / 256 / 256 / 256]
  }

  /** Little-endian decoding of two bytes. */
  function Get16(b0: byte, b1: byte): (r: nat)
    ensures r < TWO_16
  {
    b0 + 256 * b1
  }

  /** Little-endian decoding of four bytes. */
  function Get32(b0: byte, b1: byte, b2: byte, b3: byte): (r: nat)
    ensures r < TWO_32
  {
    b0 + 256 * b1 + 0x1_0000 * b2 + 0x100_0000 * b3
  }

  lemma LE16RoundTrip(v: nat)
    requires v < TWO_16
    ensures Get16(LE16(v)[0], LE16(v)[1]) == v
  {
  }

  lemma LE32RoundTrip(v: nat)
    requires v < TWO_32
    ensures Get32(LE32(v)[0], LE32(v)[1], LE32(v)[2], LE32(v)[3]) == v
  {
    var q1 := v / 256;
    var q2 := q1 / 256;
    var q3 := q2 / 256;
    assert v == 256 * q1 + v % 256;
    assert q1 == 256 * q2 + q1 % 256;
    assert q2 == 256 * q3 + q2 % 256;
    assert q3 < 256;
  }

  /** Two bytes are determined by their little-endian value. */
  lemma Get16Injective(a0: byte, a1: byte, b0: byte, b1: byte)
    requires Get16(a0, a1) == Get16(b0, b1)
    ensures a0 == b0 && a1 == b1
  {
  }

  /** `true` when no element of `s` is repeated. */
  predicate Distinct<T(==)>(s: seq<T>) {
    forall i, j | 0 <= i < j < |s| :: s[i] != s[j]
  }
}
