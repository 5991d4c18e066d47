/** `strtol` and `strtoul`, the saturating parsers (var/stdlib.c). */
module Strtol {
  import opened Word32
  import opened Text
  import opened Numerals

  /** What the parser has decided before it reads the first digit. */
  datatype Header = Header(neg: bool, base: int, start: nat)

  function SkipSpaces(s: string, i: nat): (r: nat)
    requires i <= |s|
    ensures i <= r <= |s|
    ensures !IsSpace(At(s, r))
    ensures forall k :: i <= k < r ==> IsSpace(s[k])
    decreases |s| - i
  {
    if IsSpace(At(s, i)) then SkipSpaces(s, i + 1) else i
  }

  predicate IsX(c: char) {
    c == 'x' || c == 'X'
  }

  /** Base 0 reads the base off the digits; bases 0 and 16 let `0x` go by. */
  function ReadBase(s: string, i: nat, neg: bool, base: int): (h: Header)
    requires i <= |s|
    ensures i <= h.start <= |s| && if base == 0 then 8 <= h.base <= 16 else h.base == base
  {
    if (base == 0 || base == 16) && At(s, i) == '0' && IsX(At(s, i + 1)) then Header(neg, 16, i + 2)
    else if base == 0 then Header(neg, if At(s, i) == '0' then 8 else 10, i)
    else Header(neg, base, i)
  }

  /** Spaces and at most one sign: whether it is a minus, and the place behind. */
  function ReadSign(s: string): (r: (bool, nat))
    ensures r.1 <= |s|
  {
    var i := SkipSpaces(s, 0);
    if At(s, i) == '-' then (true, i + 1)
    else if At(s, i) == '+' then (false, i + 1)
    else (false, i)
  }

  function ReadHeader(s: string, base: int): (h: Header)
    ensures h.start <= |s| && if base == 0 then 8 <= h.base <= 16 else h.base == base
  {
    var (neg, i) := ReadSign(s);
    ReadBase(s, i, neg, base)
  }

  /** The end of the longest run of digits from `i` on. */
  function RunEnd(s: string, i: nat, base: int): (r: nat)
    requires i <= |s|
    ensures i <= r <= |s|
    ensures !IsDigitOf(At(s, r), base)
    ensures AllDigits(s[i..r], base)
    decreases |s| - i
  {
    if IsDigitOf(At(s, i), base) then
      var r := RunEnd(s, i + 1, base);
      assert s[i..r] == [s[i]] + s[i + 1..r];
      r
    else i
  }

  /** The digits the text offers, as an unbounded number. */
  ghost function RunValue(s: string, h: Header): nat
    requires h.start <= |s|
  {
    DigitsBase(s, h);
    if h.base < 0 then 0 else Value(s[h.start..RunEnd(s, h.start, h.base)], h.base)
  }

  lemma DigitsBase(s: string, h: Header)
    requires h.start <= |s|
    ensures h.base < 1 ==> RunEnd(s, h.start, h.base) == h.start
  {
  }

  /** No digits at all: nothing was read, not even the spaces. */
  function EndOf(s: string, h: Header): nat
    requires h.start <= |s|
  {
    var r := RunEnd(s, h.start, h.base);
    if r == h.start then 0 else r
  }

  /** The signed number in the text, without any bound. */
  ghost function SignedValue(s: string, base: int): int {
    var h := ReadHeader(s, base);
    var v: int := RunValue(s, h);
    if h.neg then -v else v
  }

  function Clamp(n: int): int {
    if n < INT_MIN then INT_MIN else if n > INT_MAX then INT_MAX else n
  }

  /** `(unsigned long) base` */
  function AsUnsigned(base: int): int
    requires INT_MIN <= base <= INT_MAX
  {
    if base < 0 then base + 0x1_0000_0000 else base
  }

  /** The comparison with cutoff and cutlim holds exactly when one more digit passes the limit. */
  lemma {:induction false} CutoffTest(acc: nat, c: nat, base: nat, limit: nat)
    requires 1 <= base && c < base
    ensures (acc > limit / base || (acc == limit / base && c > limit % base)) <==> acc * base + c > limit
  {
    var q, r := limit / base, limit % base;
    assert limit == q * base + r;
    if acc > q {
      MulMonotone(q + 1, acc, base, base);
      assert (q + 1) * base == q * base + base;
    } else if acc < q {
      MulMonotone(acc + 1, q, base, base);
      assert (acc + 1) * base == acc * base + base;
    }
  }

  /** A number over the limit stays over it. */
  lemma StaysOver(v: nat, c: nat, base: nat, limit: nat)
    requires 1 <= base && limit < v
    ensures limit < v * base + c
  {
    MulMonotone(v, v, 1, base);
  }

  /** Lines 451-465: spaces, sign, base prefix; `c` is the character just fetched, `s` the place behind it. */
  method Prologue(nptr: string, base0: int) returns (c: char, s: nat, neg: bool, base: int)
    requires IsCString(nptr)
    ensures 1 <= s <= |nptr| + 1 && c == At(nptr, s - 1)
    ensures Header(neg, base, s - 1) == ReadHeader(nptr, base0)
  {
    base, neg, s := base0, false, 0;
    c := At(nptr, s);
    s := s + 1;
    while IsSpace(c)
      invariant 1 <= s <= |nptr| + 1 && c == At(nptr, s - 1)
      invariant SkipSpaces(nptr, 0) == SkipSpaces(nptr, s - 1)
      decreases |nptr| - s
    {
      c := At(nptr, s);
      s := s + 1;
    }
    if c == '-' {
      neg := true;
      c := At(nptr, s);
      s := s + 1;
    } else if c == '+' {
      c := At(nptr, s);
      s := s + 1;
    }
    if (base == 0 || base == 16) && c == '0' && (At(nptr, s) == 'x' || At(nptr, s) == 'X') {
      c := At(nptr, s + 1);
      s := s + 2;
      base := 16;
    }
    if base == 0 {
      base := if c == '0' then 8 else 10;
    }
  }

  /** What the digit loop knows after the digits in `s[start..i]`. */
  ghost predicate LoopState(s: string, start: nat, i: nat, base: int, limit: nat, any: int, acc: nat) {
    && start <= i <= |s|
    && AllDigits(s[start..i], base)
    && (any == 0 ==> i == start && acc == 0)
    && (any != 0 ==> start < i && 1 <= base)
    && (any >= 0 && 1 <= base ==> acc == Value(s[start..i], base) <= limit)
    && (any < 0 ==> Value(s[start..i], base) > limit)
  }

  lemma LoopStep(s: string, start: nat, i: nat, base: int, limit: nat, any: int, acc: nat)
    requires LoopState(s, start, i, base, limit, any, acc)
    requires i < |s| && IsDigitOf(s[i], base)
    ensures 1 <= base
    ensures var c := DigitValue(s[i]);
      var over := any < 0 || acc > limit / base || (acc == limit / base && c > limit % base);
      && (!over ==> acc * base + c <= limit)
      && LoopState(s, start, i + 1, base, limit, if over then -1 else 1, if over then acc else acc * base + c)
  {
    var c := DigitValue(s[i]);
    ValueSnoc(s[start..i], s[i], base);
    assert s[start..i + 1] == s[start..i] + [s[i]];
    if any < 0 {
      StaysOver(Value(s[start..i], base), c, base, limit);
    } else {
      CutoffTest(acc, c, base, limit);
    }
  }

  lemma LoopStart(s: string, start: nat, base: int, limit: nat)
    requires start <= |s|
    ensures LoopState(s, start, start, base, limit, 0, 0)
  {
    assert s[start..start] == [];
  }

  /** The run goes on with a digit, and ends with anything else. */
  lemma RunEndStep(s: string, i: nat, base: int)
    requires i <= |s|
    ensures IsDigitOf(At(s, i), base) ==> i < |s| && RunEnd(s, i, base) == RunEnd(s, i + 1, base)
    ensures !IsDigitOf(At(s, i), base) ==> RunEnd(s, i, base) == i
  {
  }

  lemma LoopExit(s: string, h: Header, i: nat, limit: nat, any: int, acc: nat)
    requires LoopState(s, h.start, i, h.base, limit, any, acc)
    requires RunEnd(s, h.start, h.base) == i
    ensures any >= 0 ==> acc == RunValue(s, h) <= limit
    ensures any < 0 ==> RunValue(s, h) > limit
    ensures any == 0 <==> i == h.start
  {
  }

  /** Lines 489-497: the value of one character, or none of the digits of the base. */
  method ClassifyDigit(ch: char, base: int) returns (digit: bool, c: nat)
    ensures digit <==> IsDigitOf(ch, base)
    ensures digit ==> c == DigitValue(ch)
  {
    c := ch as int;
    if !IsAlnum(ch) {
      return false, c;
    }
    if IsDigit(ch) {
      c := c - '0' as int;
    } else if IsAlpha(ch) {
      c := c - if IsUpper(ch) then 'A' as int - 10 else 'a' as int - 10;
    } else {
      return false, c;
    }
    digit := c < base;
  }

  /** Lines 498-504: one digit more, unless the limit would be passed. */
  method TakeDigit(
      ghost s: string, ghost start: nat, ghost i: nat, base: int, ghost limit: Word, cutoff: Word, cutlim: Word,
      any0: int, acc0: Word, c: nat)
    returns (any: int, acc: Word)
    requires LoopState(s, start, i, base, limit, any0, acc0)
    requires i < |s| && IsDigitOf(s[i], base) && c == DigitValue(s[i])
    requires INT_MIN <= base <= INT_MAX && base != 0
    requires cutoff == limit / AsUnsigned(base) && cutlim == limit % AsUnsigned(base)
    ensures LoopState(s, start, i + 1, base, limit, any, acc)
  {
    LoopStep(s, start, i, base, limit, any0, acc0);
    hide LoopState;
    if any0 < 0 || acc0 > cutoff || (acc0 == cutoff && c > cutlim) {
      any, acc := -1, acc0;
    } else {
      any := 1;
      acc := acc0 * base + c;
    }
  }

  /** Lines 487-506: accumulate digits, never letting `acc` pass the limit the cutoff stands for. */
  method ReadDigits(nptr: string, c0: char, s0: nat, base: int, ghost limit: Word, cutoff: Word, cutlim: Word)
    returns (any: int, acc: Word, s: nat)
    requires IsCString(nptr) && INT_MIN <= base <= INT_MAX && base != 0
    requires 1 <= s0 <= |nptr| + 1 && c0 == At(nptr, s0 - 1)
    requires cutoff == limit / AsUnsigned(base) && cutlim == limit % AsUnsigned(base)
    ensures s0 <= s <= |nptr| + 1 && s - 1 == RunEnd(nptr, s0 - 1, base)
    ensures LoopState(nptr, s0 - 1, s - 1, base, limit, any, acc)
  {
    hide LoopState, RunEnd, IsDigitOf;
    var ch := c0;
    s, acc, any := s0, 0, 0;
    LoopStart(nptr, s0 - 1, base, limit);
    while true
      invariant s0 <= s <= |nptr| + 1 && ch == At(nptr, s - 1)
      invariant RunEnd(nptr, s0 - 1, base) == RunEnd(nptr, s - 1, base)
      invariant LoopState(nptr, s0 - 1, s - 1, base, limit, any, acc)
      decreases |nptr| + 1 - s
    {
      RunEndStep(nptr, s - 1, base);
      var digit, c := ClassifyDigit(ch, base);
      if !digit {
        break;
      }
      any, acc := TakeDigit(nptr, s0 - 1, s - 1, base, limit, cutoff, cutlim, any, acc, c);
      ch := At(nptr, s);
      s := s + 1;
    }
  }

  /** Lines 507-510: saturation, or the sign. */
  function Settle(any: int, acc: Word, neg: bool): Word {
    if any < 0 then (if neg then 0x8000_0000 else 0x7FFF_FFFF)
    else if neg then Negate(acc)
    else acc
  }

  lemma SettleClamps(any: int, acc: Word, neg: bool, v: int)
    requires 0 <= v
    requires any >= 0 ==> acc == v && v <= if neg then 0x8000_0000 else 0x7FFF_FFFF
    requires any < 0 ==> v > if neg then 0x8000_0000 else 0x7FFF_FFFF
    ensures Signed(Settle(any, acc, neg)) == Clamp(if neg then -v else v)
  {
  }

  /** `strtol`: the clamped value, and the offset stored through `endptr`. */
  method Strtol(nptr: string, base0: int) returns (value: int, endptr: nat)
    requires IsCString(nptr) && INT_MIN <= base0 <= INT_MAX
    ensures value == Clamp(SignedValue(nptr, base0))
    ensures endptr == EndOf(nptr, ReadHeader(nptr, base0))
  {
    hide ReadHeader, RunEnd, RunValue, LoopState, Clamp, Settle;
    var c, s, neg, base := Prologue(nptr, base0);
    ghost var h := ReadHeader(nptr, base0);
    var limit: Word := if neg then 0x8000_0000 else 0x7FFF_FFFF;
    var cutlim, cutoff := CutoffOf(limit, base);
    var any, acc;
    any, acc, s := ReadDigits(nptr, c, s, base, limit, cutoff, cutlim);
    LoopExit(nptr, h, s - 1, limit, any, acc);
    SettleClamps(any, acc, neg, RunValue(nptr, h));
    endptr := if any != 0 then s - 1 else 0;
    value := Signed(Settle(any, acc, neg));
  }

  method CutoffOf(limit: Word, base: int) returns (cutlim: Word, cutoff: Word)
    requires INT_MIN <= base <= INT_MAX && base != 0
    ensures cutoff == limit / AsUnsigned(base) && cutlim == limit % AsUnsigned(base)
  {
    var divisor: Word := AsUnsigned(base);
    QuotientIsWord(limit, divisor);
    cutlim, cutoff := limit % divisor, limit / divisor;
  }

  lemma QuotientIsWord(n: Word, d: nat)
    requires 0 < d
    ensures 0 <= n / d <= n && 0 <= n % d <= n
  {
    var q, r := n / d, n % d;
    assert n == q * d + r && 0 <= r < d;
    MulMonotone(q, q, 1, d);
    assert q * 1 == q;
  }

  /** An unbounded number as an `unsigned long`: saturated when it does not fit, negated modulo 2^32 when it does. */
  function Saturated(neg: bool, v: nat): Word {
    var n: int := v;
    if n > ULONG_MAX then ULONG_MAX else if neg then (-n) % 0x1_0000_0000 else n
  }

  /** The value `strtoul` has. */
  ghost function UnsignedResult(s: string, base: int): Word {
    var h := ReadHeader(s, base);
    Saturated(h.neg, RunValue(s, h))
  }

  method Strtoul(nptr: string, base0: int) returns (value: Word, endptr: nat)
    requires IsCString(nptr) && INT_MIN <= base0 <= INT_MAX
    ensures value == UnsignedResult(nptr, base0)
    ensures endptr == EndOf(nptr, ReadHeader(nptr, base0))
  {
    hide ReadHeader, RunEnd, RunValue, LoopState;
    var c, s, neg, base := Prologue(nptr, base0);
    ghost var h := ReadHeader(nptr, base0);
    var cutlim, cutoff := CutoffOf(ULONG_MAX, base);
    var any, acc;
    any, acc, s := ReadDigits(nptr, c, s, base, ULONG_MAX, cutoff, cutlim);
    LoopExit(nptr, h, s - 1, ULONG_MAX, any, acc);
    if any < 0 {
      acc := ULONG_MAX;
    } else if neg {
      acc := Negate(acc);
    }
    endptr := if any != 0 then s - 1 else 0;
    value := acc;
  }
}
