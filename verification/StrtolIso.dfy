/** `strtol` against the reader of ISO C (section 7.20.1.4 of C99): where the two agree, and where they part. */
module StrtolIso {
  import opened Word32
  import opened Text
  import opened Numerals
  import opened Strtol

  /** The value ISO C ascribes to a character: ten decimal digits and the letters of either case. */
  function IsoDigitValue(c: char): int {
    if '0' <= c <= '9' then c as int - '0' as int
    else if 'A' <= c <= 'Z' then c as int - 'A' as int + 10
    else if 'a' <= c <= 'z' then c as int - 'a' as int + 10
    else -1
  }

  predicate IsIsoDigitOf(c: char, base: int) {
    0 <= IsoDigitValue(c) < base
  }

  /** One of the six marks between the two cases of the alphabet. */
  predicate BetweenCases(c: char) {
    'Z' < c < 'a'
  }

  /**
   * The code's digits are ISO's digits, and worth the same, for every character but the six between the cases; each of
   * those is a digit to the code in every base above its distance from 'W'.
   */
  lemma DigitTestsAgree(c: char, base: int)
    ensures (IsDigitOf(c, base) <==> IsIsoDigitOf(c, base)) <==> !BetweenCases(c) || base <= c as int - 87
    ensures IsIsoDigitOf(c, base) ==> IsDigitOf(c, base) && DigitValue(c) == IsoDigitValue(c)
    ensures IsDigitOf(c, base) && !IsIsoDigitOf(c, base) <==> BetweenCases(c) && c as int - 87 < base
    ensures BetweenCases(c) ==> 4 <= DigitValue(c) <= 9
  {
  }

  /** White space in the "C" locale (section 7.4.1.10). */
  predicate IsIsoSpace(c: char) {
    c as int in [9, 10, 11, 12, 13, 32]
  }

  function IsoSkipSpaces(s: string, i: nat): (r: nat)
    requires i <= |s|
    ensures i <= r <= |s|
    decreases |s| - i
  {
    if i < |s| && IsIsoSpace(s[i]) then IsoSkipSpaces(s, i + 1) else i
  }

  /** Whether the number has a minus sign, and where it goes on. */
  function IsoReadSign(s: string): (r: (bool, nat))
    ensures r.1 <= |s|
  {
    var i := IsoSkipSpaces(s, 0);
    var sign := if i < |s| then s[i] else '0';
    (sign == '-', if sign == '-' || sign == '+' then i + 1 else i)
  }

  lemma {:induction false} SpacesAgree(s: string, i: nat)
    requires i <= |s|
    ensures IsoSkipSpaces(s, i) == SkipSpaces(s, i)
    decreases |s| - i
  {
    if i < |s| {
      SpacesAgree(s, i + 1);
    }
  }

  lemma SignsAgree(s: string)
    ensures IsoReadSign(s) == ReadSign(s)
  {
    SpacesAgree(s, 0);
  }

  /** A `long` and an `unsigned long` of 32 bits, saturated; a minus sign negates the `unsigned long` that fits. */
  function IsoLong(n: int): int {
    if n > 2147483647 then 2147483647 else if n < -2147483648 then -2147483648 else n
  }

  function IsoUnsignedLong(neg: bool, v: nat): Word {
    if v >= 4294967296 then 4294967295 else if neg && v > 0 then 4294967296 - v else v
  }

  lemma SameLimits(n: int, neg: bool, v: nat)
    ensures Clamp(n) == IsoLong(n)
    ensures Saturated(neg, v) == IsoUnsignedLong(neg, v)
  {
  }

  /** ISO C takes `0x` for a prefix only in front of a hexadecimal digit. */
  function IsoReadBase(s: string, i: nat, neg: bool, base: int): (h: Header)
    requires i <= |s|
    ensures i <= h.start <= |s| && if base == 0 then 8 <= h.base <= 16 else h.base == base
  {
    if (base == 0 || base == 16)
       && At(s, i) == '0' && (At(s, i + 1) == 'x' || At(s, i + 1) == 'X') && IsIsoDigitOf(At(s, i + 2), 16)
    then Header(neg, 16, i + 2)
    else if base == 0 then Header(neg, if At(s, i) == '0' then 8 else 10, i)
    else Header(neg, base, i)
  }

  function IsoReadHeader(s: string, base: int): (h: Header)
    ensures h.start <= |s| && if base == 0 then 8 <= h.base <= 16 else h.base == base
  {
    var (neg, i) := IsoReadSign(s);
    IsoReadBase(s, i, neg, base)
  }

  function IsoRunEnd(s: string, i: nat, base: int): (r: nat)
    requires i <= |s|
    ensures i <= r <= |s|
    ensures forall k :: i <= k < r ==> IsIsoDigitOf(s[k], base)
    decreases |s| - i
  {
    if IsIsoDigitOf(At(s, i), base) then IsoRunEnd(s, i + 1, base) else i
  }

  function IsoValue(s: string, base: nat): (v: int)
    ensures (forall k :: 0 <= k < |s| ==> IsIsoDigitOf(s[k], base)) ==> 0 <= v
  {
    if s == "" then 0 else IsoValue(s[..|s| - 1], base) * base + IsoDigitValue(s[|s| - 1])
  }

  /** The number in the text by the letter of ISO C, and the offset of the end pointer. */
  function IsoRunValue(s: string, h: Header): nat
    requires h.start <= |s| && 0 <= h.base
  {
    IsoValue(s[h.start..IsoRunEnd(s, h.start, h.base)], h.base)
  }

  function IsoSignedValue(s: string, base: nat): int {
    var h := IsoReadHeader(s, base);
    var v: int := IsoRunValue(s, h);
    if h.neg then -v else v
  }

  function IsoUnsignedResult(s: string, base: nat): Word {
    var h := IsoReadHeader(s, base);
    IsoUnsignedLong(h.neg, IsoRunValue(s, h))
  }

  function IsoEndOf(s: string, base: int): nat {
    var h := IsoReadHeader(s, base);
    var r := IsoRunEnd(s, h.start, h.base);
    if r == h.start then 0 else r
  }

  // ---- where the code departs ----

  /** The text has `0x` where the base allows it, and no digit of base 16 behind it. */
  predicate DanglingPrefix(s: string, base: int) {
    var i := ReadSign(s).1;
    (base == 0 || base == 16) && At(s, i) == '0' && IsX(At(s, i + 1)) && !IsDigitOf(At(s, i + 2), 16)
  }

  /** The digits the code reads are all letters and decimal digits. */
  ghost predicate PlainRun(s: string, base: int) {
    var h := ReadHeader(s, base);
    forall k :: h.start <= k < RunEnd(s, h.start, h.base) ==> !BetweenCases(s[k])
  }

  /** ISO's run is the code's run up to its first character between the cases. */
  lemma {:induction false} RunsCompared(s: string, i: nat, base: nat)
    requires i <= |s|
    ensures var e, r := IsoRunEnd(s, i, base), RunEnd(s, i, base);
      && e <= r
      && (e < r ==> BetweenCases(s[e]))
    decreases |s| - i
  {
    DigitTestsAgree(At(s, i), base);
    if IsIsoDigitOf(At(s, i), base) {
      RunsCompared(s, i + 1, base);
    }
  }

  lemma {:induction false} ValuesAgree(s: string, base: nat)
    requires AllDigits(s, base)
    requires forall k :: 0 <= k < |s| ==> IsIsoDigitOf(s[k], base)
    ensures IsoValue(s, base) == Value(s, base)
  {
    if s != "" {
      ValuesAgree(s[..|s| - 1], base);
      DigitTestsAgree(s[|s| - 1], base);
    }
  }

  /** A run that goes on with a character between the cases denotes a larger number. */
  lemma {:induction false} LongerIsLarger(s: string, k: nat, base: nat)
    requires 2 <= base && AllDigits(s, base) && k < |s| && BetweenCases(s[k])
    ensures Value(s[..k], base) < Value(s, base)
  {
    var t := s[..|s| - 1];
    if k < |t| {
      LongerIsLarger(t, k, base);
      assert t[..k] == s[..k];
    }
    MulMonotone(Value(t, base), Value(t, base), 1, base);
  }

  /** The digits of one text read both ways from one place. */
  lemma {:induction false} ReadsCompared(s: string, i: nat, base: nat)
    requires i <= |s| && 2 <= base
    ensures var e, r := IsoRunEnd(s, i, base), RunEnd(s, i, base);
      && e <= r
      && (e == r <==> forall k :: i <= k < r ==> !BetweenCases(s[k]))
      && (IsoValue(s[i..e], base) == Value(s[i..r], base) <==> e == r)
      && IsoValue(s[i..e], base) <= Value(s[i..r], base)
  {
    var e, r := IsoRunEnd(s, i, base), RunEnd(s, i, base);
    RunsCompared(s, i, base);
    var run := s[i..r];
    assert run[..e - i] == s[i..e];
    ValuesAgree(s[i..e], base);
    if e < r {
      assert run[e - i] == s[e];
      LongerIsLarger(run, e - i, base);
    }
    forall k | i <= k < e ensures !BetweenCases(s[k]) {
      DigitTestsAgree(s[k], base);
    }
  }

  /** A prefix ISO does not take: its run is the zero alone, the code's run starts behind the `x`. */
  lemma {:induction false} PrefixRefused(s: string, i: nat, neg: bool, base: nat)
    requires i <= |s| && (base == 0 || 2 <= base)
    requires IsoReadBase(s, i, neg, base) != ReadBase(s, i, neg, base)
    ensures var h, g := ReadBase(s, i, neg, base), IsoReadBase(s, i, neg, base);
      && h == Header(neg, 16, i + 2) && g.neg == neg && g.start == i
      && IsoRunEnd(s, i, g.base) == i + 1 && IsoRunValue(s, g) == 0
      && IsoRunEnd(s, i + 2, 16) == i + 2 && IsoValue(s[i + 2..i + 2], 16) == 0
      && (RunEnd(s, i + 2, 16) == i + 2 <==> !IsDigitOf(At(s, i + 2), 16))
      && (IsDigitOf(At(s, i + 2), 16) ==> BetweenCases(s[i + 2]))
  {
    DigitTestsAgree(At(s, i + 2), 16);
    var g := IsoReadBase(s, i, neg, base);
    assert IsIsoDigitOf(At(s, i), g.base) && !IsIsoDigitOf(At(s, i + 1), g.base);
    assert s[i..i + 1] == "0" && "0"[..0] == "";
    assert IsoValue("0", g.base) == IsoValue("", g.base) * g.base + 0;
  }

  lemma SamePrefix(s: string, i: nat, neg: bool, base: nat)
    requires i <= |s| && IsoReadBase(s, i, neg, base) == ReadBase(s, i, neg, base)
    ensures (base == 0 || base == 16) && At(s, i) == '0' && IsX(At(s, i + 1)) ==> IsDigitOf(At(s, i + 2), 16)
  {
    DigitTestsAgree(At(s, if i + 2 <= |s| then i + 2 else i), 16);
  }

  /**
   * For every text and every base ISO C knows: the unbounded number is ISO's, and otherwise larger, exactly when no
   * digit of the code's run lies between the cases; the end pointer is ISO's exactly when moreover no prefix dangles.
   */
  lemma {:induction false} AgreesWithIso(s: string, base: nat)
    requires base == 0 || 2 <= base <= 36
    ensures var h, g := ReadHeader(s, base), IsoReadHeader(s, base);
      && h.neg == g.neg && IsoRunValue(s, g) <= RunValue(s, h)
      && (IsoRunValue(s, g) == RunValue(s, h) <==> PlainRun(s, base))
    ensures SignedValue(s, base) == IsoSignedValue(s, base) <==> PlainRun(s, base)
    ensures EndOf(s, ReadHeader(s, base)) == IsoEndOf(s, base) <==> PlainRun(s, base) && !DanglingPrefix(s, base)
  {
    hide RunEnd, IsoRunEnd, Value, IsoValue, IsDigitOf, IsIsoDigitOf, BetweenCases, ReadSign, IsoReadSign, IsoReadBase,
      SkipSpaces, IsoSkipSpaces;
    SignsAgree(s);
    var (neg, i) := ReadSign(s);
    var h, g := ReadHeader(s, base), IsoReadHeader(s, base);
    ReadsCompared(s, h.start, h.base);
    if h == g {
      SamePrefix(s, i, neg, base);
    } else {
      PrefixRefused(s, i, neg, base);
    }
  }

  /**
   * What `strtol` returns is what ISO C has it return exactly when the run is plain or ISO's number is itself at or
   * past the end of the range, where both saturate.
   */
  lemma {:induction false} StrtolReturnsIso(s: string, base: nat)
    requires base == 0 || 2 <= base <= 36
    ensures Clamp(SignedValue(s, base)) == IsoLong(IsoSignedValue(s, base)) <==>
      PlainRun(s, base) || IsoSignedValue(s, base) <= INT_MIN || INT_MAX <= IsoSignedValue(s, base)
  {
    hide ReadHeader, IsoReadHeader, RunValue, IsoRunValue, PlainRun;
    AgreesWithIso(s, base);
  }

  /**
   * The same for `strtoul`, which saturates at one end only: two numbers have the same result when they are equal, when
   * both saturate, and when one saturates and the other is ULONG_MAX already, as it is or as minus one.
   */
  lemma {:induction false} StrtoulReturnsIso(s: string, base: nat)
    requires base == 0 || 2 <= base <= 36
    ensures var h, g := ReadHeader(s, base), IsoReadHeader(s, base);
      var v, w := RunValue(s, h), IsoRunValue(s, g);
      UnsignedResult(s, base) == IsoUnsignedResult(s, base) <==>
        PlainRun(s, base) || w > ULONG_MAX || (!g.neg && w == ULONG_MAX) || (g.neg && w == 1 && v > ULONG_MAX)
  {
    hide ReadHeader, IsoReadHeader, RunValue, IsoRunValue, PlainRun;
    AgreesWithIso(s, base);
  }

  lemma IsoValueSnoc(s: string, c: char, base: nat)
    ensures IsoValue(s + [c], base) == IsoValue(s, base) * base + IsoDigitValue(c)
  {
    assert (s + [c])[..|s|] == s;
  }

  lemma {:induction false} IsoRunsTo(s: string, i: nat, n: nat, base: nat)
    requires i <= n <= |s| && (forall k :: i <= k < n ==> IsIsoDigitOf(s[k], base)) && !IsIsoDigitOf(At(s, n), base)
    ensures IsoRunEnd(s, i, base) == n
    decreases n - i
  {
    if i < n {
      IsoRunsTo(s, i + 1, n, base);
    }
  }

  /**
   * `strtol` on seven `z` and an underscore in base 36: the end pointers differ, and LONG_MAX is returned either way.
   */
  lemma SaturationHidesUnderscore()
    ensures var s := "zzzzzzz_";
      && Clamp(SignedValue(s, 36)) == IsoLong(IsoSignedValue(s, 36)) == INT_MAX
      && !PlainRun(s, 36) && EndOf(s, ReadHeader(s, 36)) == 8 && IsoEndOf(s, 36) == 7
  {
    var s := "zzzzzzz_";
    assert ReadSign(s) == (false, 0);
    SignsAgree(s);
    IsoRunsTo(s, 0, 7, 36);
    assert s[0..7] == Repeat('z', 7);
    LargestDigits(7);
    assert Power(36, 2) == 1296;
    PowerAdd(36, 2, 2);
    PowerMonotone(1, 36, 3);
    PowerAdd(36, 4, 3);
    assert IsDigitOf(s[7], 36);
    ReadsCompared(s, 0, 36);
    StrtolReturnsIso(s, 36);
    AgreesWithIso(s, 36);
  }

  /** Nothing but the largest digit. */
  lemma {:induction false} LargestDigits(n: nat)
    ensures IsoValue(Repeat('z', n), 36) == Power(36, n) - 1
  {
    if n > 0 {
      LargestDigits(n - 1);
      assert Repeat('z', n) == Repeat('z', n - 1) + ['z'];
      IsoValueSnoc(Repeat('z', n - 1), 'z', 36);
    }
  }

  /** `0x` alone: ISO C reads the zero, the code reads nothing. */
  lemma DanglingPrefixReadsNothing()
    ensures EndOf("0x", ReadHeader("0x", 16)) == 0 && IsoEndOf("0x", 16) == 1
  {
    assert ReadSign("0x") == (false, 0);
    SignsAgree("0x");
    assert RunEnd("0x", 2, 16) == 2;
    assert IsIsoDigitOf("0x"[0], 16) && !IsIsoDigitOf("0x"[1], 16);
    assert IsoRunEnd("0x", 1, 16) == 1;
  }

  /** An underscore is the number eight to the code, and no number to ISO C. */
  lemma UnderscoreIsEight()
    ensures SignedValue("_", 10) == 8 && IsoSignedValue("_", 10) == 0
  {
    assert ReadSign("_") == (false, 0);
    SignsAgree("_");
    assert RunEnd("_", 1, 10) == 1;
    assert RunEnd("_", 0, 10) == 1;
    assert "_"[0..1] == "_" && "_"[..0] == "";
    assert Value("_", 10) == Value("", 10) * 10 + DigitValue('_');
    assert IsoRunEnd("_", 0, 10) == 0;
    assert "_"[0..0] == "";
  }
}
