/** `parse_i32_to_vecu8`: the assembler's 4-byte immediate encoder. */
module Helpers {
  import opened Wrappers

  /** `(value & 0xFF) as u8` and `value as u8`: the low 8 bits of the two's complement. */
  function Byte0(value: int): u8 { value % 0x100 }

  /** `((value >> 8) & 0xFF) as u8`; `>>` on `i32` is an arithmetic shift, i.e. floor division. */
  function Byte1(value: int): u8 { (value / 0x100) % 0x100 }

  /** `((value >> 16) & 0xFF) as u8`. */
  function Byte2(value: int): u8 { (value / 0x1_0000) % 0x100 }

  /** `((value >> 24) & 0xFF) as u8`. */
  function Byte3(value: int): u8 { (value / 0x100_0000) % 0x100 }

  const Zero: u8 := 0
  const One: u8 := 1

  /** The cascade of range branches, each pushing four bytes. */
  function ParseI32ToBytes(value: i32): (r: seq<u8>)
    ensures |r| == 4
  {
    if value > 16_777_215 then
      [Byte3(value), Byte2(value), Byte1(value), Byte0(value)]
    else if value > 65_535 then
      [Zero, Byte2(value), Byte1(value), Byte0(value)]
    else if value > 255 then
      [Zero, Zero, Byte1(value), Byte0(value)]
    else if value > -16_777_215 then
      [Byte3(value), Byte2(value), Byte1(value), Byte0(value)]
    else if value > -65_535 then
      [One, Byte2(value), Byte1(value), Byte0(value)]
    else if value > -255 then
      [One, One, Byte1(value), Byte0(value)]
    else if value <= -1 then
      [One, One, One, Byte0(value)]
    else
      [Zero, Zero, Zero, Byte0(value)]
  }

  /** Big-endian two's-complement encoding of a 32-bit value: the reference the encoder is judged against. */
  function TwosComplementBE(value: i32): (r: seq<u8>)
    ensures |r| == 4
  {
    var u := value % 0x1_0000_0000;
    [Byte3(u), Byte2(u), Byte1(u), Byte0(u)]
  }

  /** Reads four bytes big-endian as an `i32`. */
  function DecodeBEi32(bs: seq<u8>): i32
    requires |bs| == 4
  {
    var u := bs[0] as int * 0x100_0000 + bs[1] as int * 0x1_0000 + bs[2] as int * 0x100 + bs[3] as int;
    if u >= 0x8000_0000 then u - 0x1_0000_0000 else u
  }

  lemma MulAtLeast(d: int, x: int)
    requires d > 0 && x >= 1
    ensures d * x >= d
  {
  }

  /** Euclidean division is determined by quotient and remainder. */
  lemma DivUnique(n: int, d: int, q: int, r: int)
    requires d > 0 && 0 <= r < d && n == d * q + r
    ensures n / d == q && n % d == r
  {
    var q', r' := n / d, n % d;
    assert d * (q' - q) == r - r';
    if q' - q >= 1 { MulAtLeast(d, q' - q); }
    if q - q' >= 1 { MulAtLeast(d, q - q'); }
  }

  lemma DivMulAdd(a: int, b: int, d: int)
    requires d > 0
    ensures (d * a + b) / d == a + b / d
    ensures (d * a + b) % d == b % d
  {
    var q, r := b / d, b % d;
    assert d * a + b == d * (a + q) + r;
    DivUnique(d * a + b, d, a + q, r);
  }

  /** Each extracted byte depends only on the value modulo 2^32. */
  lemma ByteWrap(v: int, d: int)
    requires d == 1 || d == 0x100 || d == 0x1_0000 || d == 0x100_0000
    ensures (v / d) % 0x100 == ((v % 0x1_0000_0000) / d) % 0x100
  {
    if d == 1 {
      ByteWrapScaled(v, 1, 0x100_0000);
    } else if d == 0x100 {
      ByteWrapScaled(v, 0x100, 0x1_0000);
    } else if d == 0x1_0000 {
      ByteWrapScaled(v, 0x1_0000, 0x100);
    } else {
      ByteWrapScaled(v, 0x100_0000, 1);
    }
  }

  lemma ByteWrapScaled(v: int, d: int, e: int)
    requires d > 0 && e > 0 && d * e == 0x100_0000
    ensures (v / d) % 0x100 == ((v % 0x1_0000_0000) / d) % 0x100
  {
    var k, u := v / 0x1_0000_0000, v % 0x1_0000_0000;
    var j := e * k;
    assert d * (0x100 * j) == 0x100 * ((d * e) * k) by {
      MulAssoc(d, e, k);
    }
    assert v == d * (0x100 * j) + u;
    DivMulAdd(0x100 * j, u, d);
    DivMulAdd(j, u / d, 0x100);
  }

  lemma MulAssoc(a: int, b: int, c: int)
    ensures a * (0x100 * (b * c)) == 0x100 * ((a * b) * c)
  {
  }

  lemma TwosComplementRoundTrip(value: i32)
    ensures DecodeBEi32(TwosComplementBE(value)) == value
  {
    var u := value % 0x1_0000_0000;
    DivMulAdd(u / 0x100_0000, (u / 0x1_0000) % 0x100, 0x100);
    assert u / 0x1_0000 == (u / 0x100_0000) * 0x100 + Byte2(u);
    assert u / 0x100 == (u / 0x1_0000) * 0x100 + Byte1(u);
    assert u == (u / 0x100) * 0x100 + Byte0(u);
    assert u / 0x100_0000 == Byte3(u);
  }

  /**
   * What the cascade computes: the two's-complement bytes for every value above
   * -16_777_215 and [1, 1, 1, low byte] from there down, so the branches for
   * `> -65_535`, `> -255` and the final `else` are never taken.
   */
  lemma ParseI32ToBytesEffect(value: i32)
    ensures value > -16_777_215 ==> ParseI32ToBytes(value) == TwosComplementBE(value)
    ensures value <= -16_777_215 ==> ParseI32ToBytes(value) == [1, 1, 1, value % 0x100]
  {
    ByteWrap(value, 1);
    ByteWrap(value, 0x100);
    ByteWrap(value, 0x1_0000);
    ByteWrap(value, 0x100_0000);
  }

  /** Hence the assembler's immediate decodes back to the literal for every value above -16_777_215. */
  lemma ParseI32ToBytesRoundTrip(value: i32)
    requires value > -16_777_215
    ensures DecodeBEi32(ParseI32ToBytes(value)) == value
  {
    ParseI32ToBytesEffect(value);
    TwosComplementRoundTrip(value);
  }

  lemma ParseI32ToBytesCases(value: i32)
    ensures 256 <= value <= 65_535 ==> ParseI32ToBytes(value) == [0, 0, value / 0x100, value % 0x100]
    ensures 0 <= value <= 255 ==> ParseI32ToBytes(value) == [0, 0, 0, value]
    ensures value == -1 ==> ParseI32ToBytes(value) == [255, 255, 255, 255]
  {
  }
}
