/** The bytes of the 8259A interrupt controllers. */
module Pic {

  /** `1 << n` */
  function Bit(n: nat): bv8
    requires n < 8
  {
    if n == 0 then 1
    else if n == 1 then 2
    else if n == 2 then 4
    else if n == 3 then 8
    else if n == 4 then 16
    else if n == 5 then 32
    else if n == 6 then 64
    else 128
  }

  predicate IsSet(b: bv8, n: nat)
    requires n < 8
  {
    b & Bit(n) != 0
  }

  lemma BitIsShift(n: nat)
    requires n < 8
    ensures Bit(n) == (1 as bv8) << n
  {
  }

  /** `orb` sets one line, `andb` with the complement clears one, and neither touches another. */
  lemma SetAndClear(b: bv8, m: nat, n: nat)
    requires m < 8 && n < 8
    ensures IsSet(b | Bit(m), n) <==> IsSet(b, n) || n == m
    ensures IsSet(b & !Bit(m), n) <==> IsSet(b, n) && n != m
  {
  }

  /** A byte is its eight bits. */
  lemma SameBits(a: bv8, b: bv8)
    requires forall n: nat :: n < 8 ==> (IsSet(a, n) <==> IsSet(b, n))
    ensures a == b
  {
    assert (IsSet(a, 0) <==> IsSet(b, 0)) && (IsSet(a, 1) <==> IsSet(b, 1));
    assert (IsSet(a, 2) <==> IsSet(b, 2)) && (IsSet(a, 3) <==> IsSet(b, 3));
    assert (IsSet(a, 4) <==> IsSet(b, 4)) && (IsSet(a, 5) <==> IsSet(b, 5));
    assert (IsSet(a, 6) <==> IsSet(b, 6)) && (IsSet(a, 7) <==> IsSet(b, 7));
  }

  /** A non-specific end of interrupt clears the in-service bit of the highest priority, the lowest one set. */
  function Eoi(isr: bv8): bv8 {
    if isr == 0 then 0 else isr & (isr - 1)
  }

  lemma EoiOfOne(n: nat)
    requires n < 8
    ensures Eoi(Bit(n)) == 0
  {
  }

  /** Nothing of the same or a higher priority than line `n` is in service. */
  predicate Admits(isr: bv8, n: nat)
    requires n < 8
  {
    isr & (Bit(n) | (Bit(n) - 1)) == 0
  }
}
