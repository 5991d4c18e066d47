/**
 * What C99 (section 7.19.6.1) says about one directive of a format, for the conversions of integers, characters and
 * strings: a reference with tables of its own.
 */
module C99 {
  import opened Word32
  import opened Text

  const FLAG_CHARACTERS := "-+ #0"
  const DECIMAL_DIGITS := "0123456789"
  const LOWER_DIGITS := "0123456789abcdefghijklmnopqrstuvwxyz"
  const UPPER_DIGITS := "0123456789ABCDEFGHIJKLMNOPQRSTUVWXYZ"

  // ---- reading ----

  /** The end of the longest run of the given characters. */
  function SpanEnd(s: string, i: nat, characters: string): (r: nat)
    requires i <= |s|
    ensures i <= r <= |s|
    decreases |s| - i
  {
    if i < |s| && s[i] in characters then SpanEnd(s, i + 1, characters) else i
  }

  lemma {:induction false} SpanMembers(s: string, i: nat, characters: string)
    requires i <= |s|
    ensures var r := SpanEnd(s, i, characters);
      && (forall k :: i <= k < r ==> s[k] in characters)
      && (r < |s| ==> s[r] !in characters)
    decreases |s| - i
  {
    if i < |s| && s[i] in characters {
      SpanMembers(s, i + 1, characters);
    }
  }

  datatype Flags = Flags(minus: bool, plus: bool, space: bool, hash: bool, zero: bool)

  function FlagsEnd(fmt: string, i: nat): (r: nat)
    requires i < |fmt|
    ensures i < r <= |fmt|
  {
    SpanEnd(fmt, i + 1, FLAG_CHARACTERS)
  }

  /** A flag is set when its character is one of those behind the percent sign, in any order and number. */
  function FlagsOf(fmt: string, i: nat): Flags
    requires i < |fmt|
  {
    var run := fmt[i + 1..FlagsEnd(fmt, i)];
    Flags('-' in run, '+' in run, ' ' in run, '#' in run, '0' in run)
  }

  function Decimal(s: string): nat
    requires forall k :: 0 <= k < |s| ==> s[k] in DECIMAL_DIGITS
  {
    if s == "" then 0 else Decimal(s[..|s| - 1]) * 10 + (s[|s| - 1] as int - '0' as int)
  }

  /** The end of a width or precision: a `*` is one, and is stepped over. */
  function FieldEnd(fmt: string, i: nat): (r: nat)
    requires i <= |fmt|
    ensures i <= r <= |fmt|
  {
    if At(fmt, i) == '*' then i + 1 else SpanEnd(fmt, i, DECIMAL_DIGITS)
  }

  /** The decimal number at `i`, or -1 for none. */
  function FieldValue(fmt: string, i: nat): int
    requires i <= |fmt|
  {
    var r := SpanEnd(fmt, i, DECIMAL_DIGITS);
    SpanMembers(fmt, i, DECIMAL_DIGITS);
    if r == i then -1 else Decimal(fmt[i..r])
  }

  function Width(fmt: string, i: nat): int
    requires i < |fmt|
  {
    FieldValue(fmt, FlagsEnd(fmt, i))
  }

  /** A point without a number is precision zero. */
  function Precision(fmt: string, i: nat): int
    requires i < |fmt|
  {
    var b := FieldEnd(fmt, FlagsEnd(fmt, i));
    if At(fmt, b) == '.' then Max(0, FieldValue(fmt, b + 1)) else -1
  }

  function FieldsEnd(fmt: string, i: nat): (r: nat)
    requires i < |fmt|
    ensures i < r <= |fmt|
  {
    var b := FieldEnd(fmt, FlagsEnd(fmt, i));
    if At(fmt, b) == '.' then FieldEnd(fmt, b + 1) else b
  }

  /** How long the length modifier at `i` is: `hh` and `ll` are two letters, `h l j z t L` are one. */
  function ModifierLength(fmt: string, i: nat): (n: nat)
    requires i <= |fmt|
    ensures i + n <= |fmt|
  {
    var c := At(fmt, i);
    if (c == 'h' || c == 'l') && At(fmt, i + 1) == c then 2
    else if c == 'h' || c == 'l' || c == 'j' || c == 'z' || c == 't' || c == 'L' then 1
    else 0
  }

  /** The place of the conversion character of the directive at `i`. */
  function ConversionPlace(fmt: string, i: nat): (r: nat)
    requires i < |fmt|
    ensures i < r <= |fmt|
  {
    FieldsEnd(fmt, i) + ModifierLength(fmt, FieldsEnd(fmt, i))
  }

  function Modifier(fmt: string, i: nat): string
    requires i < |fmt|
  {
    fmt[FieldsEnd(fmt, i)..ConversionPlace(fmt, i)]
  }

  // ---- printing ----

  function Numeral(n: nat, base: nat, digits: string): (s: string)
    requires 2 <= base <= |digits|
  {
    if n < base then [digits[n]]
    else
      Smaller(n, base);
      Numeral(n / base, base, digits) + [digits[n % base]]
  }

  lemma Smaller(n: nat, base: nat)
    requires 2 <= base <= n
    ensures n / base < n
  {
    var q, r := n / base, n % base;
    assert n == q * base + r;
    assert 0 < q * base;
    assert q * 2 <= q * base;
  }

  function Magnitude(v: Word, signed: bool): nat {
    if signed && v >= 0x8000_0000 then 0x1_0000_0000 - v else v
  }

  /** Only a signed conversion has a sign, and `+` wins over the space. */
  function Sign(v: Word, signed: bool, flags: Flags): string {
    if !signed then ""
    else if v >= 0x8000_0000 then "-"
    else if flags.plus then "+"
    else if flags.space then " "
    else ""
  }

  /** At least `precision` digits; zero with precision zero is none at all. */
  function Digits(m: nat, base: nat, upper: bool, precision: int): string
    requires 2 <= base <= 16
  {
    var table := if upper then UPPER_DIGITS else LOWER_DIGITS;
    var numeral := if m == 0 && precision == 0 then "" else Numeral(m, base, table);
    Repeat('0', Max(0, precision - |numeral|)) + numeral
  }

  /** `#`: the first octal digit is a zero, and `0x` stands in front of a hexadecimal value that is not zero. */
  function Prefix(m: nat, base: nat, upper: bool, digits: string, flags: Flags): string {
    if !flags.hash then ""
    else if base == 8 && (digits == "" || digits[0] != '0') then "0"
    else if base == 16 && m != 0 then (if upper then "0X" else "0x")
    else ""
  }

  /** Sign, prefix and digits in a field: `-` puts them on the left, `zeros` go between prefix and digits. */
  function Placed(sign: string, prefix: string, digits: string, width: int, zeros: bool, minus: bool): string {
    var body := sign + prefix + digits;
    var pad := Max(0, width - |body|);
    if minus then body + Repeat(' ', pad)
    else if zeros then sign + prefix + Repeat('0', pad) + digits
    else Repeat(' ', pad) + body
  }

  /**
   * An integer: the sign of a signed conversion, the prefix asked for by `#`, at least `precision` digits, in a field
   * of `width` characters. A negative width or precision stands for none; with a precision the flag `0` is ignored.
   */
  function IntegerText(v: Word, signed: bool, base: nat, upper: bool, width: int, precision: int, flags: Flags): string
    requires base == 8 || base == 10 || base == 16
  {
    var m := Magnitude(v, signed);
    var digits := Digits(m, base, upper, precision);
    Placed(Sign(v, signed, flags), Prefix(m, base, upper, digits, flags), digits, width, flags.zero && precision < 0,
           flags.minus)
  }

  /** A text in a field of `width` characters, on the left with the flag `-` and on the right without. */
  function InField(text: string, width: int, flags: Flags): string {
    var pad := Repeat(' ', Max(0, width - |text|));
    if flags.minus then text + pad else pad + text
  }

  /** `h` converts the argument to a `short` or an `unsigned short`; `l` changes nothing on 32 bits. */
  function Narrowed(w: Word, modifier: string, signed: bool): Word {
    if modifier != "h" then w
    else if signed && w % 0x1_0000 >= 0x8000 then w % 0x1_0000 + 0xFFFF_0000
    else w % 0x1_0000
  }

  predicate IsInteger(conv: char) {
    conv in "dioxXu"
  }

  predicate IsSigned(conv: char) {
    conv == 'd' || conv == 'i'
  }

  function Base(conv: char): (r: nat)
    ensures r == 8 || r == 10 || r == 16
  {
    if conv == 'o' then 8 else if conv == 'x' || conv == 'X' then 16 else 10
  }

  /** What a directive with an integer conversion prints for a word. */
  function IntegerDirective(fmt: string, i: nat, w: Word): string
    requires i < |fmt| && IsInteger(At(fmt, ConversionPlace(fmt, i)))
  {
    var conv := At(fmt, ConversionPlace(fmt, i));
    IntegerText(Narrowed(w, Modifier(fmt, i), IsSigned(conv)), IsSigned(conv), Base(conv), conv != 'x',
                Width(fmt, i), Precision(fmt, i), FlagsOf(fmt, i))
  }

  /** `c` prints the argument as an `unsigned char`. */
  function CharDirective(fmt: string, i: nat, w: Word): string
    requires i < |fmt|
  {
    InField([(w % 0x100) as char], Width(fmt, i), FlagsOf(fmt, i))
  }

  /** `s` prints a string, no more of it than the precision allows. */
  function StringDirective(fmt: string, i: nat, s: string): string
    requires i < |fmt|
  {
    var p := Precision(fmt, i);
    InField(if 0 <= p < |s| then s[..p] else s, Width(fmt, i), FlagsOf(fmt, i))
  }
}
