/** The conversions of `vsprintf` against those of ISO C, as `C99` has them. */
module NumberIso {
  import opened Word32
  import opened Text
  import opened Numerals
  import opened Numbers
  import opened Strtol
  import opened RoundTrip
  import opened Format
  import opened Stars
  import C99
  import opened Wrappers

  /** By ISO C only a signed conversion has a sign. */
  function IsoSign(v: Word, flags: Flags): string {
    if flags.sign then SignText(v, flags) else ""
  }

  /** Zero with precision zero is no characters at all. */
  function IsoDigits(m: nat, base: int, precision: int, small: bool): string
    requires 2 <= base <= 36
  {
    if m == 0 && precision == 0 then "" else Numeral(m, base, small)
  }

  /** `#` makes the first octal digit a zero if it is none, and puts `0x` in front of a value that is not zero. */
  function IsoPrefix(m: nat, base: int, precision: int, flags: Flags): string
    requires 2 <= base <= 36
  {
    var digits := IsoDigits(m, base, precision, flags.small);
    if !flags.special then ""
    else if base == 16 then (if m != 0 then (if flags.small then "0x" else "0X") else "")
    else if base == 8 then (if precision > |digits| || (digits != "" && digits[0] == '0') then "" else "0")
    else ""
  }

  /** The flag `0` is ignored when there is a precision. */
  function IsoLayout(v: Word, base: int, width: int, precision: int, flags: Flags): Layout
    requires 2 <= base <= 36
  {
    var m := Magnitude(v, flags);
    Arranged(IsoSign(v, flags), IsoPrefix(m, base, precision, flags), IsoDigits(m, base, precision, flags.small),
             width, precision, flags.(zeropad := flags.zeropad && precision < 0))
  }

  function IsoNumberText(v: Word, base: int, width: int, precision: int, flags: Flags): string
    requires 2 <= base <= 36
  {
    IsoLayout(v, base, width, precision, flags).Text()
  }

  /** Zeros may fill the width, by ISO C. */
  predicate ZeroFill(precision: int, flags: Flags) {
    flags.zeropad && !flags.left && precision < 0
  }

  /**
   * Where `number` prints something else: zero with precision zero; zero in base 16 with `#`; with `#` in base 8 zero
   * or a precision that brings a zero of its own, unless zeros fill the width anyway; `+` on an unsigned conversion; a
   * space there, unless the padding on the left hides it; and the flag `0` together with a precision when there is room
   * to fill. `sign`, `prefix` and `n` are the lengths of what the code prints for them, `n` the number of digits.
   */
  predicate Differs(
      zero: bool, sign: nat, prefix: nat, n: nat, base: int, width: int, precision: int, flags: Flags)
  {
    var body := prefix + Max(precision, n);
    || (zero && precision == 0)
    || (flags.special && base == 16 && zero)
    || (flags.special && base == 8 && (precision > n || (zero && !(ZeroFill(precision, flags) && width >= sign + 2))))
    || (!flags.sign && flags.plus)
    || (!flags.sign && flags.space && (flags.left || ZeroFill(precision, flags) || width <= body))
    || (flags.zeropad && !flags.left && precision >= 0 && width > sign + body)
  }

  predicate Departs(num: Word, base: int, width: int, precision: int, flags: Flags)
    requires 2 <= base <= 36
  {
    var m := Magnitude(num, flags);
    Differs(m == 0, |SignText(num, flags)|, |PrefixText(base, flags)|, |Numeral(m, base, flags.small)|,
            base, width, precision, flags)
  }

  // ---- a printed number determines its fields ----

  /** A shape as slices of its text: how far each field reaches can be read off the text. */
  lemma FieldsInText(p: Shape, base: int)
    requires p.Valid(base)
    ensures var s := p.Text();
      var start, h := SkipSpaces(s, 0), ReadHeader(s, base);
      && start == p.left && h.start == p.Start()
      && |s| > start && (p.sign == if s[start] == '-' then "-" else if s[start] == '+' then "+" else "")
      && p.hex == s[start + |p.sign|..h.start]
      && h.start <= EndOf(s, h) <= |s| && p.run == s[h.start..EndOf(s, h)] && p.right == |s| - EndOf(s, h)
  {
    ParseShape(p, base, base);
    ShapeSign(p, base);
    ShapeCharacters(p, base);
    hide SkipSpaces, RunEnd, ReadHeader, RunValue, EndOf, AllDigits, Value;
  }

  /** No two shapes have the same text. */
  lemma {:induction false} ShapeIsUnique(p: Shape, q: Shape, base: int)
    requires p.Valid(base) && q.Valid(base) && p.Text() == q.Text()
    ensures p == q
  {
    FieldsInText(p, base);
    FieldsInText(q, base);
    hide SkipSpaces, ReadHeader, EndOf, AllDigits, Shape.Text;
  }

  /** The zeros in front of the digits, an octal prefix among them. */
  function LeadingZeros(l: Layout, base: int): nat {
    l.zeros + if base == 16 then 0 else |l.prefix|
  }

  lemma RunOfShape(l: Layout, base: int)
    requires base == 16 || l.prefix == "" || l.prefix == "0"
    ensures ShapeFrom(l, base).run == Repeat('0', LeadingZeros(l, base)) + l.digits
  {
  }

  /** Layouts with the same digits have the same shape when the rest agrees, a space for a sign counting as padding. */
  lemma SameShape(l: Layout, k: Layout, base: int)
    requires l.digits == k.digits
    requires base == 16 || ((l.prefix == "" || l.prefix == "0") && (k.prefix == "" || k.prefix == "0"))
    ensures ShapeFrom(l, base) == ShapeFrom(k, base) <==>
      && l.left + (if l.sign == " " then 1 else 0) == k.left + (if k.sign == " " then 1 else 0)
      && (if l.sign == " " then "" else l.sign) == (if k.sign == " " then "" else k.sign)
      && (base == 16 ==> l.prefix == k.prefix)
      && LeadingZeros(l, base) == LeadingZeros(k, base) && l.right == k.right
  {
    RunOfShape(l, base);
    RunOfShape(k, base);
  }

  // ---- what ISO C prints, as a parser sees it ----

  /** ISO C prints no digit: the value is zero, the precision is zero, and no octal prefix stands in. */
  predicate NoDigits(m: nat, base: int, precision: int, flags: Flags) {
    m == 0 && precision == 0 && !(flags.special && base == 8)
  }

  lemma IsoFields(v: Word, base: int, width: int, precision: int, flags: Flags)
    requires base == 8 || base == 10 || base == 16
    ensures var k, m := IsoLayout(v, base, width, precision, flags), Magnitude(v, flags);
      && k.sign == IsoSign(v, flags) && k.prefix == IsoPrefix(m, base, precision, flags)
      && k.digits == IsoDigits(m, base, precision, flags.small)
      && (base != 16 ==> k.prefix == "" || k.prefix == "0")
      && (base == 16 ==> k.prefix == "" || k.prefix == "0x" || k.prefix == "0X")
      && (k.sign == "" || k.sign == "+" || k.sign == "-" || k.sign == " ")
      && (k.sign == "-" <==> flags.sign && Signed(v) < 0)
  {
    hide Numeral;
  }

  lemma {:induction false} IsoShape(v: Word, base: int, width: int, precision: int, flags: Flags)
    requires base == 8 || base == 10 || base == 16
    requires !NoDigits(Magnitude(v, flags), base, precision, flags)
    ensures var p := ShapeFrom(IsoLayout(v, base, width, precision, flags), base);
      && p.Text() == IsoNumberText(v, base, width, precision, flags)
      && p.Valid(base)
      && Value(p.run, base) == Magnitude(v, flags)
      && (p.sign == "-" <==> flags.sign && Signed(v) < 0)
  {
    var k, m := IsoLayout(v, base, width, precision, flags), Magnitude(v, flags);
    IsoFields(v, base, width, precision, flags);
    IsoDigitsValue(m, base, precision, flags.small);
    ShapeFromValue(k, base);
    ShapeFromText(k, base);
    hide Numeral, IsoSign, AllDigits, IsoLayout;
  }

  lemma IsoDigitsValue(m: nat, base: int, precision: int, small: bool)
    requires 2 <= base <= 36
    ensures var s := IsoDigits(m, base, precision, small);
      AllDigits(s, base) && Value(s, base) == m && (s == "" <==> m == 0 && precision == 0)
  {
    NumeralValue(m, base, small);
  }

  lemma NumeralFacts(m: nat, base: int, small: bool)
    requires 2 <= base <= 36
    ensures var s := Numeral(m, base, small);
      (s[0] == '0' <==> m == 0) && (m == 0 ==> |s| == 1)
  {
    NumeralHead(m, base, small);
  }

  lemma ArrangedFields(sign: string, prefix: string, digits: string, width: int, precision: int, flags: Flags)
    ensures var l := Arranged(sign, prefix, digits, width, precision, flags);
      var zeros := Max(0, precision - |digits|);
      var pad := Max(0, width - |sign| - |prefix| - zeros - |digits|);
      && l.sign == sign && l.prefix == prefix && l.digits == digits
      && l.left == (if flags.left || flags.zeropad then 0 else pad)
      && l.zeros == (if flags.zeropad && !flags.left then pad + zeros else zeros)
      && l.right == (if flags.left then pad else 0)
  {
  }

  lemma Signs(num: Word, flags: Flags)
    ensures var s, t := SignText(num, flags), IsoSign(num, flags);
      && |t| <= |s| <= 1
      && (flags.sign ==> t == s)
      && (!flags.sign ==> t == "" && s == if flags.plus then "+" else if flags.space then " " else "")
  {
  }

  lemma Prefixes(m: nat, base: int, precision: int, flags: Flags)
    requires base == 8 || base == 10 || base == 16
    requires m != 0 || precision != 0
    ensures var n := |Numeral(m, base, flags.small)|;
      var p, q := PrefixText(base, flags), IsoPrefix(m, base, precision, flags);
      && (base == 10 || !flags.special ==> p == q == "")
      && (base == 16 && flags.special ==> |p| == 2 && q == if m == 0 then "" else p)
      && (base == 8 && flags.special ==> p == "0" && q == if precision > n || m == 0 then "" else p)
  {
    NumeralFacts(m, base, flags.small);
    hide Numeral;
  }

  /** A layout in numbers: what is left of the width, and where it goes. */
  function Pad(sign: nat, prefix: nat, n: nat, width: int, precision: int): nat {
    Max(0, width - sign - prefix - Max(0, precision - n) - n)
  }

  /** The fields of two layouts for the same digits match, a space for a sign counting as padding. */
  predicate FieldsMatch(
      s: string, t: string, p: string, q: string, n: nat, base: int, width: int, precision: int, flags: Flags)
  {
    var a, b := Pad(|s|, |p|, n, width, precision), Pad(|t|, |q|, n, width, precision);
    && (if flags.left || flags.zeropad then 0 else a) + (if s == " " then 1 else 0)
       == (if flags.left || ZeroFill(precision, flags) then 0 else b) + (if t == " " then 1 else 0)
    && (if s == " " then "" else s) == (if t == " " then "" else t)
    && (base == 16 ==> p == q)
    && (if flags.zeropad && !flags.left then a else 0) + (if base == 16 then 0 else |p|)
       == (if ZeroFill(precision, flags) then b else 0) + (if base == 16 then 0 else |q|)
    && (if flags.left then a else 0) == (if flags.left then b else 0)
  }

  lemma ShapesMatch(
      s: string, t: string, p: string, q: string, digits: string, base: int, width: int, precision: int, flags: Flags)
    requires base == 16 || ((p == "" || p == "0") && (q == "" || q == "0"))
    ensures var iso := flags.(zeropad := flags.zeropad && precision < 0);
      ShapeFrom(Arranged(s, p, digits, width, precision, flags), base)
        == ShapeFrom(Arranged(t, q, digits, width, precision, iso), base)
      <==> FieldsMatch(s, t, p, q, |digits|, base, width, precision, flags)
  {
    var iso := flags.(zeropad := flags.zeropad && precision < 0);
    ArrangedFields(s, p, digits, width, precision, flags);
    ArrangedFields(t, q, digits, width, precision, iso);
    SameShape(Arranged(s, p, digits, width, precision, flags), Arranged(t, q, digits, width, precision, iso), base);
    hide Arranged, ShapeFrom;
  }

  /** The same comparison, worked out from the flags. */
  lemma Reckoning(
      s: string, t: string, p: string, q: string, zero: bool, n: nat, base: int, width: int, precision: int,
      flags: Flags)
    requires base == 8 || base == 10 || base == 16
    requires 1 <= n && (zero ==> n == 1 && precision != 0)
    requires |s| <= 1 && (flags.sign ==> t == s)
    requires !flags.sign ==> t == "" && s == if flags.plus then "+" else if flags.space then " " else ""
    requires base == 10 || !flags.special ==> p == q == ""
    requires base == 16 && flags.special ==> |p| == 2 && q == if zero then "" else p
    requires base == 8 && flags.special ==> p == "0" && q == if precision > n || zero then "" else p
    ensures FieldsMatch(s, t, p, q, n, base, width, precision, flags)
      <==> !Differs(zero, |s|, |p|, n, base, width, precision, flags)
  {
  }

  lemma ShapesMatchFields(num: Word, base: int, width: int, precision: int, flags: Flags)
    requires base == 8 || base == 10 || base == 16
    requires Magnitude(num, flags) != 0 || precision != 0
    ensures var m := Magnitude(num, flags);
      ShapeOf(num, base, width, precision, flags)
        == ShapeFrom(IsoLayout(num, base, width, precision, flags), base)
      <==> FieldsMatch(SignText(num, flags), IsoSign(num, flags), PrefixText(base, flags),
                       IsoPrefix(m, base, precision, flags), |Numeral(m, base, flags.small)|,
                       base, width, precision, flags)
  {
    var m := Magnitude(num, flags);
    Prefixes(m, base, precision, flags);
    hide Numeral, Magnitude, ShapeFrom, SignText, IsoSign, PrefixText, IsoPrefix, Arranged, FieldsMatch;
    ShapesMatch(SignText(num, flags), IsoSign(num, flags), PrefixText(base, flags),
                IsoPrefix(m, base, precision, flags), Numeral(m, base, flags.small), base, width, precision, flags);
  }

  lemma FieldsMatchUnless(num: Word, base: int, width: int, precision: int, flags: Flags)
    requires base == 8 || base == 10 || base == 16
    requires Magnitude(num, flags) != 0 || precision != 0
    ensures var m := Magnitude(num, flags);
      FieldsMatch(SignText(num, flags), IsoSign(num, flags), PrefixText(base, flags),
                  IsoPrefix(m, base, precision, flags), |Numeral(m, base, flags.small)|, base, width, precision, flags)
      <==> !Departs(num, base, width, precision, flags)
  {
    var m := Magnitude(num, flags);
    NumeralFacts(m, base, flags.small);
    Signs(num, flags);
    Prefixes(m, base, precision, flags);
    hide Numeral, Magnitude, SignText, IsoSign, PrefixText, IsoPrefix, FieldsMatch, Differs;
    Reckoning(SignText(num, flags), IsoSign(num, flags), PrefixText(base, flags), IsoPrefix(m, base, precision, flags),
              m == 0, |Numeral(m, base, flags.small)|, base, width, precision, flags);
  }

  /** With digits to print, the two shapes are the same exactly when the code does not depart. */
  lemma {:induction false} ShapesAgree(num: Word, base: int, width: int, precision: int, flags: Flags)
    requires base == 8 || base == 10 || base == 16
    requires Magnitude(num, flags) != 0 || precision != 0
    ensures ShapeOf(num, base, width, precision, flags)
         == ShapeFrom(IsoLayout(num, base, width, precision, flags), base)
      <==> !Departs(num, base, width, precision, flags)
  {
    ShapesMatchFields(num, base, width, precision, flags);
    FieldsMatchUnless(num, base, width, precision, flags);
  }

  lemma {:induction false} NoDigitsDiffer(
      num: Word, v: Word, base: int, width: int, precision: int, flags: Flags)
    requires base == 8 || base == 10 || base == 16
    requires NoDigits(Magnitude(v, flags), base, precision, flags)
    ensures NumberText(num, base, width, precision, flags) != IsoNumberText(v, base, width, precision, flags)
  {
    var p := ShapeOf(num, base, width, precision, flags);
    ShapeOfNumber(num, base, width, precision, flags);
    ShapeCharacters(p, base);
    var text := p.Text();
    assert IsDigitOf(text[p.Start()], base) by {
      assert text[p.Start() + 0] == p.run[0];
    }
    NoDigitAnywhere(v, base, width, precision, flags, p.Start());
  }

  lemma NoDigitAnywhere(v: Word, base: int, width: int, precision: int, flags: Flags, i: nat)
    requires base == 8 || base == 10 || base == 16
    requires NoDigits(Magnitude(v, flags), base, precision, flags)
    ensures var text := IsoNumberText(v, base, width, precision, flags);
      i < |text| ==> !IsDigitOf(text[i], base)
  {
  }

  lemma SameWord(num: Word, v: Word, flags: Flags)
    requires Magnitude(num, flags) == Magnitude(v, flags)
    requires flags.sign && Signed(num) < 0 <==> flags.sign && Signed(v) < 0
    ensures num == v
  {
  }

  /** Zero with `#` and precision zero in base 8: two zeros from the code, one by ISO C. */
  lemma OctalZero(num: Word, v: Word, width: int, flags: Flags)
    requires Magnitude(num, flags) == 0 == Magnitude(v, flags) && flags.special
    ensures ShapeOf(num, 8, width, 0, flags).run != ShapeFrom(IsoLayout(v, 8, width, 0, flags), 8).run
  {
    NumeralFacts(0, 8, flags.small);
    hide Numeral, Magnitude;
    RunOfShape(LayoutOf(num, 8, width, 0, flags), 8);
    RunOfShape(IsoLayout(v, 8, width, 0, flags), 8);
  }

  // ---- the layout is the text of C99 ----

  lemma LowerDigits(d: nat)
    requires d < 36
    ensures C99.LOWER_DIGITS[d] == Digit(d, true)
  {
  }

  lemma UpperDigits(d: nat)
    requires d < 36
    ensures C99.UPPER_DIGITS[d] == Digit(d, false)
  {
  }

  /** The digits printed are those of C99's tables. */
  lemma {:induction false} NumeralIsC99(n: nat, base: nat, small: bool)
    requires 2 <= base <= 36
    ensures Numeral(n, base, small) == C99.Numeral(n, base, if small then C99.LOWER_DIGITS else C99.UPPER_DIGITS)
  {
    hide Digit;
    if n < base {
      LowerDigits(n);
      UpperDigits(n);
    } else {
      Quotient(n, base);
      NumeralIsC99(n / base, base, small);
      LowerDigits(n % base);
      UpperDigits(n % base);
    }
  }

  /** The same flags under C99's names. */
  function Named(flags: Flags): C99.Flags {
    C99.Flags(flags.left, flags.plus, flags.space, flags.special, flags.zeropad)
  }

  /** The code's flags and numbers, given to C99. */
  function C99Text(v: Word, base: int, width: int, precision: int, flags: Flags): string
    requires base == 8 || base == 10 || base == 16
  {
    C99.IntegerText(v, flags.sign, base, !flags.small, width, precision, Named(flags))
  }

  lemma ArrangedIsPlaced(
      sign: string, prefix: string, digits: string, width: int, precision: int, flags: Flags, fill: bool)
    ensures Arranged(sign, prefix, digits, width, precision, flags.(zeropad := fill)).Text()
         == C99.Placed(sign, prefix, Repeat('0', Max(0, precision - |digits|)) + digits, width, fill, flags.left)
  {
    var zeros := Max(0, precision - |digits|);
    var pad := Max(0, width - |sign| - |prefix| - zeros - |digits|);
    var l := Arranged(sign, prefix, digits, width, precision, flags.(zeropad := fill));
    if flags.left {
      assert l.Text() == sign + prefix + (Repeat('0', zeros) + digits) + Repeat(' ', pad);
    } else if fill {
      assert Repeat('0', pad + zeros) == Repeat('0', pad) + Repeat('0', zeros);
      assert l.Text() == sign + prefix + Repeat('0', pad) + (Repeat('0', zeros) + digits);
    } else {
      assert l.Text() == Repeat(' ', pad) + (sign + prefix + (Repeat('0', zeros) + digits));
    }
  }

  lemma SignIsC99(v: Word, flags: Flags)
    ensures C99.Sign(v, flags.sign, Named(flags)) == IsoSign(v, flags)
    ensures C99.Magnitude(v, flags.sign) == Magnitude(v, flags)
  {
  }

  lemma DigitsAreC99(m: nat, base: int, precision: int, small: bool)
    requires base == 8 || base == 10 || base == 16
    ensures var digits := IsoDigits(m, base, precision, small);
      C99.Digits(m, base, !small, precision) == Repeat('0', Max(0, precision - |digits|)) + digits
  {
    NumeralIsC99(m, base, small);
    hide Numeral, C99.Numeral;
  }

  lemma PrefixIsC99(m: nat, base: int, precision: int, flags: Flags)
    requires base == 8 || base == 10 || base == 16
    ensures var digits := C99.Digits(m, base, !flags.small, precision);
      C99.Prefix(m, base, !flags.small, digits, Named(flags)) == IsoPrefix(m, base, precision, flags)
  {
    DigitsAreC99(m, base, precision, flags.small);
    NumeralFacts(m, base, flags.small);
    hide Numeral, C99.Digits;
  }

  lemma C99Fields(v: Word, base: int, width: int, precision: int, flags: Flags)
    requires base == 8 || base == 10 || base == 16
    ensures var m := Magnitude(v, flags);
      var digits := IsoDigits(m, base, precision, flags.small);
      C99Text(v, base, width, precision, flags) ==
        C99.Placed(IsoSign(v, flags), IsoPrefix(m, base, precision, flags),
                   Repeat('0', Max(0, precision - |digits|)) + digits,
                   width, flags.zeropad && precision < 0, flags.left)
  {
    var m := Magnitude(v, flags);
    SignIsC99(v, flags);
    DigitsAreC99(m, base, precision, flags.small);
    PrefixIsC99(m, base, precision, flags);
    hide IsoSign, IsoPrefix, IsoDigits, Magnitude, C99.Magnitude, C99.Sign, C99.Prefix, C99.Digits, C99.Placed, Repeat;
  }

  lemma IsoText(v: Word, base: int, width: int, precision: int, flags: Flags)
    requires base == 8 || base == 10 || base == 16
    ensures var m := Magnitude(v, flags);
      IsoNumberText(v, base, width, precision, flags) == Arranged(
        IsoSign(v, flags), IsoPrefix(m, base, precision, flags), IsoDigits(m, base, precision, flags.small), width,
        precision, flags.(zeropad := flags.zeropad && precision < 0)).Text()
  {
    hide Arranged, Layout.Text, IsoSign, IsoPrefix, IsoDigits, Magnitude;
  }

  lemma IsoNumberIsC99(v: Word, base: int, width: int, precision: int, flags: Flags)
    requires base == 8 || base == 10 || base == 16
    ensures IsoNumberText(v, base, width, precision, flags) == C99Text(v, base, width, precision, flags)
  {
    hide *;
    var m := Magnitude(v, flags);
    IsoText(v, base, width, precision, flags);
    C99Fields(v, base, width, precision, flags);
    ArrangedIsPlaced(IsoSign(v, flags), IsoPrefix(m, base, precision, flags),
                     IsoDigits(m, base, precision, flags.small), width, precision, flags,
                     flags.zeropad && precision < 0);
  }

  /**
   * Every word, base, width, precision and set of flags: the code prints for one word what C99 prints for another
   * exactly when they are the same word and the code does not depart.
   */
  lemma {:induction false} AgreesWithC99(num: Word, v: Word, base: int, width: int, precision: int, flags: Flags)
    requires base == 8 || base == 10 || base == 16
    ensures NumberText(num, base, width, precision, flags) == C99Text(v, base, width, precision, flags)
      <==> num == v && !Departs(num, base, width, precision, flags)
  {
    hide ShapeFrom, Numeral, Value, NumberText, IsoNumberText, LayoutOf, IsoLayout, SignText, PrefixText, C99Text;
    IsoNumberIsC99(v, base, width, precision, flags);
    if NoDigits(Magnitude(v, flags), base, precision, flags) {
      NoDigitsDiffer(num, v, base, width, precision, flags);
    } else {
      ShapeOfNumber(num, base, width, precision, flags);
      IsoShape(v, base, width, precision, flags);
      var p := ShapeOf(num, base, width, precision, flags);
      var q := ShapeFrom(IsoLayout(v, base, width, precision, flags), base);
      if p.Text() == q.Text() {
        ShapeIsUnique(p, q, base);
        SameWord(num, v, flags);
      }
      if Magnitude(num, flags) != 0 || precision != 0 {
        ShapesAgree(num, base, width, precision, flags);
      } else if Magnitude(v, flags) == 0 {
        OctalZero(num, v, width, flags);
      }
    }
  }

  // ---- whole directives ----

  /** C99 and the code read the same conversion character, and the same fields before it. */
  predicate ReadAlike(fmt: string, i: nat)
    requires i < |fmt|
  {
    !StarAt(fmt, i) && !UnknownModifierAt(fmt, C99.FieldsEnd(fmt, i))
  }

  /** The code's flags for C99's, with what the conversion adds. */
  function Recorded(f: C99.Flags, conv: char): Flags {
    Flags(f.zero, C99.IsSigned(conv), f.plus, f.space, f.minus, f.hash, conv == 'x')
  }

  lemma RenderedInteger(d: Item, w: Word, f: C99.Flags)
    requires d.Directive? && !d.star && C99.IsInteger(d.conv)
    requires d.flags == Flags(f.zero, false, f.plus, f.space, f.minus, f.hash, false)
    ensures TakesArg(d) && KindFits(d, Number(w))
    ensures RenderItem(d, Some(Number(w)))
         == NumberText(w, C99.Base(d.conv), d.width, d.precision, Recorded(f, d.conv))
  {
    hide NumberText;
  }

  lemma DirectiveText(fmt: string, i: nat, w: Word)
    requires i < |fmt| && C99.IsInteger(At(fmt, C99.ConversionPlace(fmt, i)))
    ensures var conv := At(fmt, C99.ConversionPlace(fmt, i));
      C99.IntegerDirective(fmt, i, w) == C99Text(
        C99.Narrowed(w, C99.Modifier(fmt, i), C99.IsSigned(conv)), C99.Base(conv), C99.Width(fmt, i),
        C99.Precision(fmt, i), Recorded(C99.FlagsOf(fmt, i), conv))
  {
    hide C99.IntegerText, C99.Narrowed, C99.Width, C99.Precision, C99.Modifier, C99.FlagsOf, C99.ConversionPlace,
      C99.IsSigned, C99.Base;
  }

  /**
   * Wherever a format has a directive for an integer that is read alike: the text is C99's exactly when the argument
   * survives the conversion that a `h` asks for and `number` does not depart.
   */
  lemma {:induction false} DirectiveIsC99(fmt: string, i: nat, w: Word)
    requires i < |fmt| && ReadAlike(fmt, i) && C99.IsInteger(At(fmt, C99.ConversionPlace(fmt, i)))
    ensures var d, conv := ScanDirective(fmt, i).0, At(fmt, C99.ConversionPlace(fmt, i));
      && d.conv == conv && TakesArg(d) && KindFits(d, Number(w))
      && (RenderItem(d, Some(Number(w))) == C99.IntegerDirective(fmt, i, w) <==>
            w == C99.Narrowed(w, C99.Modifier(fmt, i), C99.IsSigned(conv))
            && !Departs(w, C99.Base(conv), C99.Width(fmt, i), C99.Precision(fmt, i),
                        Recorded(C99.FlagsOf(fmt, i), conv)))
  {
    ConversionIsC99(fmt, i);
    hide ScanDirective, StarAt, UnknownModifierAt, C99.FlagsOf, C99.Width, C99.Precision, C99.Modifier,
      C99.ConversionPlace, C99.Narrowed, C99.IntegerDirective, C99.IsInteger, C99.IsSigned, C99.Base, NumberText,
      Departs, RenderItem, TakesArg, C99Text, KindFits, Recorded;
    var d, conv, f := ScanDirective(fmt, i).0, At(fmt, C99.ConversionPlace(fmt, i)), C99.FlagsOf(fmt, i);
    RenderedInteger(d, w, f);
    DirectiveText(fmt, i, w);
    AgreesWithC99(w, C99.Narrowed(w, C99.Modifier(fmt, i), C99.IsSigned(conv)), C99.Base(conv), d.width, d.precision,
                  Recorded(f, conv));
  }

  /** A character and a string, read alike and without a length modifier, are always printed as by C99. */
  lemma {:induction false} CharIsC99(fmt: string, i: nat, w: Word)
    requires i < |fmt| && ReadAlike(fmt, i) && At(fmt, C99.ConversionPlace(fmt, i)) == 'c'
    ensures var d := ScanDirective(fmt, i).0;
      && TakesArg(d) && KindFits(d, Number(w))
      && RenderItem(d, Some(Number(w))) == C99.CharDirective(fmt, i, w)
  {
    ConversionIsC99(fmt, i);
    hide ScanDirective, StarAt, UnknownModifierAt, C99.FlagsOf, C99.Width, C99.Precision, C99.ConversionPlace;
  }

  lemma {:induction false} StringIsC99(fmt: string, i: nat, s: string)
    requires i < |fmt| && ReadAlike(fmt, i) && At(fmt, C99.ConversionPlace(fmt, i)) == 's'
    requires IsCString(s) && |s| <= INT_MAX
    ensures var d := ScanDirective(fmt, i).0;
      && TakesArg(d) && KindFits(d, Chars(s))
      && RenderItem(d, Some(Chars(s))) == C99.StringDirective(fmt, i, s)
  {
    ConversionIsC99(fmt, i);
    hide ScanDirective, StarAt, UnknownModifierAt, C99.FlagsOf, C99.Width, C99.Precision, C99.ConversionPlace;
  }

  /** `p` is `X`, in eight columns filled with zeros if the directive has no width of its own. */
  lemma PointerIsHex(d: Item, w: Word)
    requires d.Directive? && !d.star && d.conv == 'p'
    ensures var x := d.(conv := 'X');
      RenderItem(d, Some(Number(w)))
        == RenderItem(if d.width == -1 then x.(width := 8, flags := d.flags.(zeropad := true)) else x, Some(Number(w)))
  {
    hide NumberText;
  }

  lemma EightDigits(w: Word)
    ensures |Numeral(w, 16, false)| <= 8
  {
    NumeralLength(w, 16, false, 8);
    PowerAdd(16, 4, 4);
    hide Numeral;
    assert Power(16, 4) == 0x1_0000;
  }

  predicate IsHexDigit(c: char) {
    c in "0123456789ABCDEF"
  }

  lemma HexDigit(d: nat)
    requires d < 16
    ensures IsHexDigit(Digit(d, false)) && IsHexDigit('0')
  {
    UpperDigits(d);
  }

  lemma {:induction false} HexDigits(n: nat)
    ensures forall k :: 0 <= k < |Numeral(n, 16, false)| ==> IsHexDigit(Numeral(n, 16, false)[k])
  {
    hide Digit, IsHexDigit;
    if n >= 16 {
      Quotient(n, 16);
      HexDigits(n / 16);
      HexDigit(n % 16);
    } else {
      HexDigit(n);
    }
  }

  lemma ZeroFilled(w: Word)
    ensures var s := NumberText(w, 16, 8, -1, NO_FLAGS.(zeropad := true));
      var n := |Numeral(w, 16, false)|;
      n <= 8 && s == Repeat('0', 8 - n) + Numeral(w, 16, false)
  {
    EightDigits(w);
    hide Numeral;
    var digits := Numeral(w, 16, false);
    assert Repeat(' ', 0) == "" && Repeat('0', 0) == "";
  }

  lemma HexZeros(n: nat, digits: string)
    requires forall k :: 0 <= k < |digits| ==> IsHexDigit(digits[k])
    ensures var s := Repeat('0', n) + digits;
      forall k :: 0 <= k < |s| ==> IsHexDigit(s[k])
  {
    HexDigit(0);
    hide IsHexDigit;
  }

  lemma PlainPointer(w: Word)
    ensures Parse("%p", 0) == [Directive(NO_FLAGS, -1, -1, false, None, 'p')]
    ensures RenderItem(Directive(NO_FLAGS, -1, -1, false, None, 'p'), Some(Number(w)))
         == NumberText(w, 16, 8, -1, NO_FLAGS.(zeropad := true))
  {
    hide NumberText;
    assert ScanDirective("%p", 0) == (Directive(NO_FLAGS, -1, -1, false, None, 'p'), 1);
    assert Parse("%p", 2) == [];
  }

  lemma EightHexDigits(w: Word)
    ensures var s := NumberText(w, 16, 8, -1, NO_FLAGS.(zeropad := true));
      && |s| == 8 && AllDigits(s, 16) && Value(s, 16) == w
      && forall k :: 0 <= k < 8 ==> IsHexDigit(s[k])
  {
    hide *;
    var digits := Numeral(w, 16, false);
    ZeroFilled(w);
    HexDigits(w);
    HexZeros(8 - |digits|, digits);
    NumeralValue(w, 16, false);
    ValueLeadingZeros(8 - |digits|, digits, 16);
  }

  /** `%p` prints eight upper-case digits that denote the argument. */
  lemma {:induction false} PointerIsEightDigits(w: Word)
    ensures Parse("%p", 0) == [Directive(NO_FLAGS, -1, -1, false, None, 'p')]
    ensures var s := RenderItem(Directive(NO_FLAGS, -1, -1, false, None, 'p'), Some(Number(w)));
      && |s| == 8 && AllDigits(s, 16) && Value(s, 16) == w
      && forall k :: 0 <= k < 8 ==> IsHexDigit(s[k])
  {
    PlainPointer(w);
    EightHexDigits(w);
    hide *;
  }

  lemma SmallNumeral(n: nat, base: int)
    requires n < 10 <= base <= 16 || (n < 8 == base)
    ensures Numeral(n, base, true) == Numeral(n, base, false) == [(n + '0' as int) as char]
  {
  }

  /** `%#o` of 0. */
  lemma OctalZeroTwice()
    ensures var flags := NO_FLAGS.(special := true);
      NumberText(0, 8, -1, -1, flags) == "00" && C99Text(0, 8, -1, -1, flags) == "0"
  {
    SmallNumeral(0, 8);
    IsoNumberIsC99(0, 8, -1, -1, NO_FLAGS.(special := true));
    hide Numeral, C99Text;
  }

  /** `%#x` of 0. */
  lemma PrefixedZero()
    ensures var flags := NO_FLAGS.(special := true, small := true);
      NumberText(0, 16, -1, -1, flags) == "0x0" && C99Text(0, 16, -1, -1, flags) == "0"
  {
    SmallNumeral(0, 16);
    IsoNumberIsC99(0, 16, -1, -1, NO_FLAGS.(special := true, small := true));
    hide Numeral, C99Text;
  }

  /** `%.0d` of 0. */
  lemma ZeroIsNotSilent()
    ensures var flags := NO_FLAGS.(sign := true);
      NumberText(0, 10, -1, 0, flags) == "0" && C99Text(0, 10, -1, 0, flags) == ""
  {
    SmallNumeral(0, 10);
    IsoNumberIsC99(0, 10, -1, 0, NO_FLAGS.(sign := true));
    hide Numeral, C99Text;
  }

  /** `%+u` of 5. */
  lemma UnsignedPlus()
    ensures var flags := NO_FLAGS.(plus := true);
      NumberText(5, 10, -1, -1, flags) == "+5" && C99Text(5, 10, -1, -1, flags) == "5"
  {
    SmallNumeral(5, 10);
    IsoNumberIsC99(5, 10, -1, -1, NO_FLAGS.(plus := true));
    hide Numeral, C99Text;
  }

  /** `%05.3d` of 7. */
  lemma ZerosDespitePrecision()
    ensures var flags := NO_FLAGS.(sign := true, zeropad := true);
      NumberText(7, 10, 5, 3, flags) == "00007" && C99Text(7, 10, 5, 3, flags) == "  007"
  {
    SmallNumeral(7, 10);
    IsoNumberIsC99(7, 10, 5, 3, NO_FLAGS.(sign := true, zeropad := true));
    hide Numeral, C99Text;
  }

  /** `%hd` of 70000 does not print what C99 prints, the text of 4464. */
  lemma ShortIsNotShort()
    ensures var fmt := "%hd";
      var d := ScanDirective(fmt, 0).0;
      && ReadAlike(fmt, 0) && At(fmt, C99.ConversionPlace(fmt, 0)) == 'd' && d.conv == 'd' && !d.star
      && RenderItem(d, Some(Number(70000))) != C99.IntegerDirective(fmt, 0, 70000)
      && C99.Narrowed(70000, C99.Modifier(fmt, 0), true) == 4464
  {
    var fmt := "%hd";
    ShortDecimalFields();
    hide RenderItem, C99.IntegerDirective, Departs, ScanDirective, ReadAlike, C99.ConversionPlace, C99.Modifier,
      TakesArg, KindFits;
    ConversionIsC99(fmt, 0);
    DirectiveIsC99(fmt, 0, 70000);
  }

  lemma ShortDecimalFields()
    ensures var fmt := "%hd";
      && ReadAlike(fmt, 0) && C99.ConversionPlace(fmt, 0) == 2 && C99.Modifier(fmt, 0) == "h"
      && ScanDirective(fmt, 0).1 == 2 && !ScanDirective(fmt, 0).0.star
  {
    var fmt := "%hd";
    assert C99.SpanEnd(fmt, 1, C99.FLAG_CHARACTERS) == 1;
    assert C99.SpanEnd(fmt, 1, C99.DECIMAL_DIGITS) == 1;
    assert C99.FieldsEnd(fmt, 0) == 1;
    assert C99.Modifier(fmt, 0) == "h";
    ConversionIsC99(fmt, 0);
    hide ScanDirective;
  }
}
