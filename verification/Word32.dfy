/** The machine's integers: `int` and `long` are both 32 bits wide (include/limits.h). */
module Word32 {

  const INT_MAX: int := 0x7FFF_FFFF
  const INT_MIN: int := -0x8000_0000
  const ULONG_MAX: int := 0xFFFF_FFFF

  /** The contents of a 32-bit register. */
  type Word = x: int | 0 <= x < 0x1_0000_0000

  /** A C `int`. Every assignment to one carries the obligation that the signed arithmetic did not overflow. */
  type Int32 = x: int | -0x8000_0000 <= x <= 0x7FFF_FFFF

  type Byte = x: int | 0 <= x < 0x100

  /** A register read as two's complement. */
  function Signed(w: Word): int {
    if w < 0x8000_0000 then w else w - 0x1_0000_0000
  }

  /** The `neg` instruction. */
  function Negate(w: Word): Word {
    if w == 0 then 0 else 0x1_0000_0000 - w
  }

  /** Negating a C `int` this way overflows for the most negative one, and for no other. */
  lemma NegationOverflows(w: Word)
    ensures INT_MIN <= -Signed(w) <= INT_MAX <==> w != 0x8000_0000
    ensures Signed(Negate(w)) == -Signed(w) <==> w != 0x8000_0000
    ensures Negate(0x8000_0000) == 0x8000_0000
  {
  }

  function Max(a: int, b: int): int {
    if a < b then b else a
  }

  function Min(a: int, b: int): int {
    if a < b then a else b
  }
}
