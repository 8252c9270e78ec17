/** Machine integers of the wire format and their little-endian byte images. */
module Bytes {
  type byte = x: int | 0 <= x < 0x100
  type u16 = x: int | 0 <= x < 0x1_0000
  type u32 = x: int | 0 <= x < 0x1_0000_0000
  type i8 = x: int | -0x80 <= x < 0x80
  type i16 = x: int | -0x8000 <= x < 0x8000

  /** `x as u8` of a signed byte: its two's complement. */
  function Unsigned8(x: i8): byte {
    if x < 0 then x + 0x100 else x
  }

  function Signed8(b: byte): i8 {
    if b >= 0x80 then b - 0x100 else b
  }

  function Unsigned16(x: i16): u16 {
    if x < 0 then x + 0x1_0000 else x
  }

  function Signed16(w: u16): i16 {
    if w >= 0x8000 then w - 0x1_0000 else w
  }

  function Lo(x: u16): byte {
    x % 0x100
  }

  function Hi(x: u16): byte {
    x / 0x100
  }

  function LE16(x: u16): (s: seq<byte>)
    ensures |s| == 2
  {
    [Lo(x), Hi(x)]
  }

  function LE32(x: u32): (s: seq<byte>)
    ensures |s| == 4
  {
    [x % 0x100, x / 0x100 % 0x100, x / 0x1_0000 % 0x100, x / 0x100_0000]
  }

  /** `u16::from_le_bytes`. */
  function U16(lo: byte, hi: byte): u16 {
    lo + 0x100 * hi
  }

  /** `i16::from_le_bytes`. */
  function I16(lo: byte, hi: byte): i16 {
    Signed16(U16(lo, hi))
  }

  /** `u32::from_le_bytes`. */
  function U32(b0: byte, b1: byte, b2: byte, b3: byte): u32 {
    b0 + 0x100 * b1 + 0x1_0000 * b2 + 0x100_0000 * b3
  }

  lemma JoinSplit16(x: u16)
    ensures U16(Lo(x), Hi(x)) == x
  {
  }

  lemma JoinSplitI16(x: i16)
    ensures I16(Lo(Unsigned16(x)), Hi(Unsigned16(x))) == x
  {
  }

  lemma DivideTwice(x: nat)
    ensures x / 0x1_0000 == x / 0x100 / 0x100
  {
  }

  lemma DivideThrice(x: nat)
    ensures x / 0x100_0000 == x / 0x100 / 0x100 / 0x100
  {
  }

  lemma JoinSplit32(x: u32)
    ensures U32(LE32(x)[0], LE32(x)[1], LE32(x)[2], LE32(x)[3]) == x
  {
    DivideTwice(x);
    DivideThrice(x);
    var y := x / 0x100;
    var z := y / 0x100;
    assert x == x % 0x100 + 0x100 * y && y == y % 0x100 + 0x100 * z && z == z % 0x100 + 0x100 * (z / 0x100);
  }

  /** `n as u8`: only the low eight bits of a length survive. */
  function Truncate8(n: nat): byte {
    n % 0x100
  }

  /** `n as u16`. */
  function Truncate16(n: nat): u16 {
    n % 0x1_0000
  }
}
