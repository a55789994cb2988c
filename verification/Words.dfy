/** Fixed-width unsigned words, with the wrap-around written out, and the truncating
    signed division the program's language uses. */
module Words {
  type u8 = x: int | 0 <= x < 0x100
  type u16 = x: int | 0 <= x < 0x1_0000
  type u32 = x: int | 0 <= x < 0x1_0000_0000
  type u64 = x: int | 0 <= x < 0x1_0000_0000_0000_0000

  type i16 = x: int | -0x8000 <= x < 0x8000

  const MAX_U64: u64 := 0xFFFF_FFFF_FFFF_FFFF

  type Bytes = seq<u8>

  datatype Option<+T> = None | Some(value: T)

  function Wrap32(x: int): u32 { x % 0x1_0000_0000 }

  function Wrap64(x: int): u64 { x % 0x1_0000_0000_0000_0000 }

  function Min(a: int, b: int): int { if a < b then a else b }

  function Max(a: int, b: int): int { if a < b then b else a }

  function Abs(a: int): nat { if a < 0 then -a else a }

  /** Integer division rounding toward zero. */
  function TruncDiv(a: int, b: int): int
    requires b > 0
  {
    if a >= 0 then a / b else -((-a) / b)
  }

  /** A 64-bit pattern read as a two's-complement signed integer. */
  function Signed64(x: int): int {
    var w := Wrap64(x);
    if w < 0x8000_0000_0000_0000 then w else w - 0x1_0000_0000_0000_0000
  }

  lemma Distribute(a: int, b: int, c: int)
    ensures (a - b) * c == c * a - b * c
  {}

  lemma AtLeastOnce(a: int, c: nat)
    requires a >= 1
    ensures a * c >= c
  {}
}
