/**
 * Octets, the unsigned widths the protocol stores values in, little-endian
 * fields and the signed reinterpretation used for sensor origins. Values are
 * mathematical integers restricted to each width; the C shifts and masks are
 * written as the multiplications, divisions and remainders they amount to on
 * non-negative operands.
 */
module Bytes {

  /** `uint8_t` / `unsigned char`. */
  type byte = x: int | 0 <= x < 0x100

  /** `uint16_t`. */
  type uint16 = x: int | 0 <= x < 0x1_0000

  /** `uint32_t`. */
  type uint32 = x: int | 0 <= x < 0x1_0000_0000

  datatype Option<T> = None | Some(value: T)

  /** `n` zero bytes: what `memset(buf, 0, n)` leaves behind. */
  function Zeros(n: nat): (z: seq<byte>)
    ensures |z| == n
    ensures forall i :: 0 <= i < n ==> z[i] == 0
  {
    seq(n, _ => 0)
  }

  lemma ZerosAppend(m: nat, n: nat)
    ensures Zeros(m) + Zeros(n) == Zeros(m + n)
  {
    assert forall i | 0 <= i < m + n :: (Zeros(m) + Zeros(n))[i] == 0;
  }

  /** `lo | hi << 8`: a little-endian 16-bit field (the host is assumed little-endian). */
  function Le16(lo: byte, hi: byte): (v: uint16)
    ensures v % 0x100 == lo && v / 0x100 == hi
  {
    lo as int + hi as int * 0x100
  }

  /** The four bytes of a little-endian `uint32_t`, lowest first. */
  function Le32Bytes(x: uint32): (b: seq<byte>)
    ensures |b| == 4
  {
    [x % 0x100, (x / 0x100) % 0x100, (x / 0x1_0000) % 0x100, x / 0x100_0000]
  }

  /** `*(uint32_t*)&b[0]` on a little-endian host. */
  function Le32(b: seq<byte>): (x: uint32)
    requires |b| == 4
    ensures Le32Bytes(x) == b
  {
    var upper := b[1] as int + b[2] as int * 0x100 + b[3] as int * 0x1_0000;
    var x := b[0] as int + upper * 0x100;
    ByteSplit(b[0], upper);
    ByteSplit(b[1], b[2] as int + b[3] as int * 0x100);
    ByteSplit(b[2], b[3]);
    assert x / 0x1_0000 == upper / 0x100;
    assert x / 0x100_0000 == upper / 0x1_0000;
    x
  }

  /** Division and remainder by 256 of `low + high * 256` with `low` a byte. */
  lemma ByteSplit(low: byte, high: int)
    ensures (low + high * 0x100) / 0x100 == high
    ensures (low + high * 0x100) % 0x100 == low
  {
  }

  lemma Le32RoundTrip(x: uint32)
    ensures Le32(Le32Bytes(x)) == x
  {
    var b := Le32Bytes(x);
    var y := Le32(b);
    Le32BytesValue(x);
    Le32BytesValue(y);
  }

  /** A 32-bit value is the sum of its four bytes at their weights. */
  lemma Le32BytesValue(x: uint32)
    ensures var b := Le32Bytes(x);
      x == b[0] as int + b[1] as int * 0x100 + b[2] as int * 0x1_0000 + b[3] as int * 0x100_0000
  {
    var q1, q2 := x / 0x100, x / 0x1_0000;
    assert x == x % 0x100 + q1 * 0x100;
    assert q2 == q1 / 0x100;
    assert q1 == q1 % 0x100 + q2 * 0x100;
    assert q2 == q2 % 0x100 + (x / 0x100_0000) * 0x100;
  }

  /**
   * `uint16_to_int16`: reinterprets a 16-bit pattern as a two's-complement
   * signed value (the helper lives in tools.cpp, which is not part of this
   * model; this is its assumed meaning).
   */
  function ToInt16(u: uint16): (r: int)
    ensures -0x8000 <= r < 0x8000
    ensures r < 0 <==> u >= 0x8000
    ensures (r + 0x1_0000) % 0x1_0000 == u
  {
    if u < 0x8000 then u else u - 0x1_0000
  }
}
