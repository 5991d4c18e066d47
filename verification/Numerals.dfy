/** Positional notation: the digits `number` prints and the digits `strtol` reads. */
module Numerals {
  import opened Text

  const UPPER := "0123456789ABCDEFGHIJKLMNOPQRSTUVWXYZ"
  const LOWER := "0123456789abcdefghijklmnopqrstuvwxyz"

  predicate IsDigit(c: char) {
    '0' <= c <= '9'
  }

  /** Every character from 'A' to 'z', the six punctuation marks between the cases included. */
  predicate IsAlpha(c: char) {
    'A' <= c <= 'z'
  }

  predicate IsUpper(c: char) {
    'A' <= c <= 'Z'
  }

  predicate IsAlnum(c: char) {
    IsAlpha(c) || IsDigit(c)
  }

  predicate IsSpace(c: char) {
    (0x09 <= c as int <= 0x0d) || c as int == 0x20
  }

  /** The value `strtol` gives a letter or digit, in `unsigned char` arithmetic. */
  function DigitValue(c: char): nat
    requires IsAlnum(c)
  {
    if IsDigit(c) then c as int - '0' as int
    else if IsUpper(c) then c as int - ('A' as int - 10)
    else c as int - ('a' as int - 10)
  }

  predicate IsDigitOf(c: char, base: int) {
    IsAlnum(c) && DigitValue(c) < base
  }

  predicate AllDigits(s: string, base: int) {
    forall i :: 0 <= i < |s| ==> IsDigitOf(s[i], base)
  }

  /** The number a run of digits denotes, most significant digit first, without any bound. */
  function Value(s: string, base: nat): nat
    requires AllDigits(s, base)
  {
    if |s| == 0 then 0
    else Value(s[..|s| - 1], base) * base + DigitValue(s[|s| - 1])
  }

  function Digit(d: nat, small: bool): (c: char)
    requires d < 36
    ensures IsAlnum(c) && DigitValue(c) == d
  {
    if d < 10 then (d + '0' as int) as char
    else if small then (d - 10 + 'a' as int) as char
    else (d - 10 + 'A' as int) as char
  }

  lemma UpperTable(d: nat)
    requires d < 36
    ensures UPPER[d] == Digit(d, false)
  {
  }

  lemma LowerTable(d: nat)
    requires d < 36
    ensures LOWER[d] == Digit(d, true)
  {
  }

  lemma Quotient(n: nat, base: nat)
    requires 2 <= base <= n
    ensures 1 <= n / base < n
    ensures n / base * base + n % base == n
  {
    var q, r := n / base, n % base;
    assert n == q * base + r;
    assert 0 < q * base;
    assert q * 2 <= q * base;
  }

  /** The numeral of `n`, without leading zeros. */
  function Numeral(n: nat, base: nat, small: bool): (s: string)
    requires 2 <= base <= 36
    ensures 1 <= |s|
    ensures AllDigits(s, base)
  {
    if n < base then [Digit(n, small)]
    else
      Quotient(n, base);
      var low := Digit(n % base, small);
      Numeral(n / base, base, small) + [low]
  }

  lemma {:induction false} NumeralValue(n: nat, base: nat, small: bool)
    requires 2 <= base <= 36
    ensures Value(Numeral(n, base, small), base) == n
  {
    var s := Numeral(n, base, small);
    if n < base {
      assert s[..0] == [];
    } else {
      Quotient(n, base);
      NumeralValue(n / base, base, small);
      ValueSnoc(Numeral(n / base, base, small), Digit(n % base, small), base);
    }
  }

  /** Only zero's numeral starts with a zero. */
  lemma {:induction false} NumeralHead(n: nat, base: nat, small: bool)
    requires 2 <= base <= 36
    ensures Numeral(n, base, small)[0] == '0' <==> n == 0
  {
    if n >= base {
      Quotient(n, base);
      NumeralHead(n / base, base, small);
    }
  }

  lemma ValueSnoc(s: string, c: char, base: nat)
    requires AllDigits(s, base) && IsDigitOf(c, base)
    ensures AllDigits(s + [c], base)
    ensures Value(s + [c], base) == Value(s, base) * base + DigitValue(c)
  {
    assert (s + [c])[..|s|] == s;
  }

  lemma {:induction false} ValueLeadingZeros(k: nat, s: string, base: nat)
    requires 1 <= base
    requires AllDigits(s, base)
    ensures AllDigits(Repeat('0', k) + s, base)
    ensures Value(Repeat('0', k) + s, base) == Value(s, base)
    decreases |s|, k
  {
    if |s| > 0 {
      var t, c := s[..|s| - 1], s[|s| - 1];
      assert s == t + [c];
      assert Repeat('0', k) + s == (Repeat('0', k) + t) + [c];
      hide Value, DigitValue;
      ValueLeadingZeros(k, t, base);
      ValueSnoc(t, c, base);
      ValueSnoc(Repeat('0', k) + t, c, base);
    } else if k > 0 {
      ValueLeadingZeros(k - 1, s, base);
      ValueSnoc(Repeat('0', k - 1), '0', base);
      assert Repeat('0', k - 1) + s == Repeat('0', k - 1);
      assert Repeat('0', k) + s == Repeat('0', k - 1) + ['0'];
    } else {
      assert Repeat('0', k) + s == [];
    }
  }

  ghost function Power(base: nat, k: nat): nat {
    if k == 0 then 1 else base * Power(base, k - 1)
  }

  /** A number has at most `k` digits exactly when it is below the `k`-th power of the base. */
  lemma {:induction false} NumeralLength(n: nat, base: nat, small: bool, k: nat)
    requires 2 <= base <= 36 && 1 <= k
    ensures |Numeral(n, base, small)| <= k <==> n < Power(base, k)
  {
    if n >= base {
      Quotient(n, base);
      if k == 1 {
        assert Power(base, 1) == base;
      } else {
        NumeralLength(n / base, base, small, k - 1);
        DivBelow(n, base, Power(base, k - 1));
      }
    } else {
      PowerAtLeast(base, k);
    }
  }

  lemma {:induction false} DivBelow(n: nat, b: nat, p: nat)
    requires b > 0
    ensures n / b < p <==> n < b * p
  {
    var q, r := n / b, n % b;
    assert n == b * q + r;
    if q < p {
      assert b * (q + 1) <= b * p;
    } else {
      assert b * p <= b * q;
    }
  }

  lemma {:induction false} PowerAtLeast(base: nat, k: nat)
    requires 2 <= base && 1 <= k
    ensures base <= Power(base, k)
  {
    if k > 1 {
      PowerAtLeast(base, k - 1);
      assert base * Power(base, k - 1) >= base * 1;
    }
  }

  lemma MulMonotone(a: nat, b: nat, x: nat, y: nat)
    requires a <= b && x <= y
    ensures a * x <= b * y
  {
    assert a * x <= a * y;
    assert a * y <= b * y;
  }

  lemma {:induction false} PowerMonotone(a: nat, b: nat, k: nat)
    requires a <= b
    ensures Power(a, k) <= Power(b, k)
  {
    if k > 0 {
      PowerMonotone(a, b, k - 1);
      MulMonotone(a, b, Power(a, k - 1), Power(b, k - 1));
    }
  }

  lemma {:induction false} PowerAdd(base: nat, i: nat, j: nat)
    ensures Power(base, i + j) == Power(base, i) * Power(base, j)
  {
    if i > 0 {
      PowerAdd(base, i - 1, j);
      assert base * (Power(base, i - 1) * Power(base, j)) == base * Power(base, i - 1) * Power(base, j);
    } else {
      assert Power(base, 0) * Power(base, j) == Power(base, j);
    }
  }

  /** No 32-bit value has more than 32 digits, whatever the base. */
  lemma WordDigits(n: nat, base: nat, small: bool)
    requires 2 <= base <= 36
    requires n < 0x1_0000_0000
    ensures |Numeral(n, base, small)| <= 32
  {
    assert Power(2, 8) == 256;
    PowerAdd(2, 8, 8);
    PowerAdd(2, 16, 16);
    PowerMonotone(2, base, 32);
    NumeralLength(n, base, small, 32);
  }
}
