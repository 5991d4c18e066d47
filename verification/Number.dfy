/** `number`, the integer layout engine behind `vsprintf` (var/vsprintf.c). */
module Numbers {
  import opened Word32
  import opened Text
  import opened Numerals
  import opened Wrappers

  /** The bits of `type`, one field each. */
  datatype Flags = Flags(
    zeropad: bool, sign: bool, plus: bool, space: bool, left: bool, special: bool, small: bool)

  const NO_FLAGS := Flags(false, false, false, false, false, false, false)

  /** A printed number, field by field in the order the fields are printed. */
  datatype Layout = Layout(
    left: nat, sign: string, prefix: string, zeros: nat, digits: string, right: nat)
  {
    function Text(): string {
      Repeat(' ', left) + sign + prefix + Repeat('0', zeros) + digits + Repeat(' ', right)
    }
  }

  /** The number whose digits are printed. The most negative one is its own magnitude. */
  function Magnitude(num: Word, flags: Flags): Word {
    if flags.sign && Signed(num) < 0 then Negate(num) else num
  }

  function SignText(num: Word, flags: Flags): string {
    if flags.sign && Signed(num) < 0 then "-"
    else if flags.plus then "+"
    else if flags.space then " "
    else ""
  }

  function PrefixText(base: int, flags: Flags): string {
    if !flags.special then ""
    else if base == 8 then "0"
    else if base == 16 then (if flags.small then "0x" else "0X")
    else ""
  }

  /** How the fields share a width: one of the three padding modes takes all that is left over. */
  function Arranged(
      sign: string, prefix: string, digits: string, width: int, precision: int, flags: Flags): Layout
  {
    var zeros := Max(0, precision - |digits|);
    var pad := Max(0, width - |sign| - |prefix| - zeros - |digits|);
    if flags.left then Layout(0, sign, prefix, zeros, digits, pad)
    else if flags.zeropad then Layout(0, sign, prefix, pad + zeros, digits, 0)
    else Layout(pad, sign, prefix, zeros, digits, 0)
  }

  function LayoutOf(num: Word, base: int, width: int, precision: int, flags: Flags): Layout
    requires 2 <= base <= 36
  {
    var digits := Numeral(Magnitude(num, flags), base, flags.small);
    Arranged(SignText(num, flags), PrefixText(base, flags), digits, width, precision, flags)
  }

  function NumberText(num: Word, base: int, width: int, precision: int, flags: Flags): string
    requires 2 <= base <= 36
  {
    LayoutOf(num, base, width, precision, flags).Text()
  }

  /** Exactly max(width, sign + prefix + max(digits, precision)) characters, in every padding mode. */
  lemma NumberTextLength(num: Word, base: int, width: int, precision: int, flags: Flags)
    requires 2 <= base <= 36
    ensures |NumberText(num, base, width, precision, flags)|
         == Max(width,
                |SignText(num, flags)| + |PrefixText(base, flags)|
                + Max(precision, |Numeral(Magnitude(num, flags), base, flags.small)|))
  {
  }

  /** The digits written to `tmp`, least significant first, read backwards. */
  ghost function Reversed(s: string): (r: string)
    ensures |r| == |s|
  {
    seq(|s|, i requires 0 <= i < |s| => s[|s| - 1 - i])
  }

  lemma ReversedSnoc(s: string, c: char)
    ensures Reversed(s + [c]) == [c] + Reversed(s)
  {
  }

  lemma ZeroDigits(base: int, small: bool, none: string)
    requires 2 <= base <= 36 && none == ""
    ensures Numeral(0, base, small) == "0" && Reversed("0") == "0" && Reversed(none) == ""
  {
  }

  /** Lines 71-78: divide until nothing is left, one digit into `tmp` each time. */
  method ExtractDigits(num: Word, base: int, digits: string, ghost small: bool, tmp: array<char>) returns (i: nat)
    requires 2 <= base <= 36
    requires digits == if small then LOWER else UPPER
    requires tmp.Length == 36
    modifies tmp
    ensures i <= 32
    ensures Reversed(tmp[..i]) == Numeral(num, base, small)
  {
    hide Numeral, Digit, Reversed;
    i := 0;
    ghost var whole := Numeral(num, base, small);
    WordDigits(num, base, small);
    ZeroDigits(base, small, tmp[..0]);
    if num == 0 {
      tmp[i] := '0';
      i := i + 1;
      assert tmp[..1] == ['0'];
    } else {
      var n: Word := num;
      while n != 0
        invariant i <= 32
        invariant n == 0 ==> Reversed(tmp[..i]) == whole
        invariant n != 0 ==> Numeral(n, base, small) + Reversed(tmp[..i]) == whole
        decreases n
      {
        UpperTable(n % base);
        LowerTable(n % base);
        DigitStep(n, base, small, tmp[..i]);
        ghost var before := tmp[..i];
        tmp[i] := digits[n % base];
        assert tmp[..i + 1] == before + [digits[n % base]];
        n, i := n / base, i + 1;
      }
    }
  }

  /** One division moves the last digit of what is left to the front of what was taken. */
  lemma {:induction false} DigitStep(n: nat, base: nat, small: bool, taken: string)
    requires 2 <= base <= 36 && 0 < n
    ensures n / base < n
    ensures var more := Reversed(taken + [Digit(n % base, small)]);
      Numeral(n, base, small) + Reversed(taken) == if n < base then more else Numeral(n / base, base, small) + more
    ensures n < base <==> n / base == 0
  {
    if n >= base {
      Quotient(n, base);
      var low := Digit(n % base, small);
      hide Reversed, Digit;
      ReversedSnoc(taken, low);
      AppendInTurn(Numeral(n / base, base, small), [low], Reversed(taken));
    } else {
      SmallQuotient(n, base);
      ReversedSnoc(taken, Digit(n, small));
    }
  }

  lemma SmallQuotient(n: nat, base: nat)
    requires n < base
    ensures n / base == 0 && n % base == n
  {
  }

  lemma AppendInTurn(a: string, b: string, c: string)
    ensures (a + b) + c == a + (b + c)
  {
  }

  /** `while (i < precision--) *str++ = '0';` */
  method EmitZeros(buf: array<char>, str: nat, i: Int32, precision: Int32) returns (next: nat)
    requires INT_MIN < precision && i <= precision
    requires str + (precision - i) <= buf.Length
    modifies buf
    ensures next == str + (precision - i)
    ensures Wrote(old(buf[..]), buf[..], str, Repeat('0', precision - i))
  {
    var n := precision - i;
    next := str;
    var p: Int32 := precision;
    while i < p
      invariant i <= p <= precision
      invariant next - str == precision - p
      invariant forall k :: 0 <= k < buf.Length ==> buf[k] == if str <= k < next then '0' else old(buf[k])
    {
      p := p - 1;
      buf[next] := '0';
      next := next + 1;
    }
  }

  /** `while (i-- > 0) *str++ = tmp[i];` */
  method EmitDigits(buf: array<char>, str: nat, tmp: array<char>, count: nat) returns (next: nat)
    requires count <= tmp.Length && buf != tmp
    requires str + count <= buf.Length
    modifies buf
    ensures next == str + count
    ensures Wrote(old(buf[..]), buf[..], str, Reversed(tmp[..count]))
  {
    var i := count;
    next := str;
    while i > 0
      invariant 0 <= i <= count && next - str == count - i
      invariant forall k :: 0 <= k < buf.Length ==>
        buf[k] == if str <= k < next then tmp[count - 1 - (k - str)] else old(buf[k])
    {
      i := i - 1;
      buf[next] := tmp[i];
      next := next + 1;
    }
  }

  /** Lines 86-93: the prefix. */
  method EmitPrefix(buf: array<char>, str: nat, base: int, flags: Flags, digits: string) returns (next: nat)
    requires digits == if flags.small then LOWER else UPPER
    requires str + |PrefixText(base, flags)| <= buf.Length
    modifies buf
    ensures next == str + |PrefixText(base, flags)|
    ensures Wrote(old(buf[..]), buf[..], str, PrefixText(base, flags))
  {
    next := str;
    if flags.special && base == 8 {
      next := Put(buf, next, '0');
    } else if flags.special && base == 16 {
      ghost var b0 := buf[..];
      next := Put(buf, next, '0');
      ghost var b1 := buf[..];
      next := Put(buf, next, digits[33]);
      WroteThen(b0, b1, buf[..], str, ['0'], [digits[33]]);
      assert ['0'] + [digits[33]] == PrefixText(base, flags);
    } else {
      WroteNothing(buf[..], str);
    }
  }

  /** Lines 84-85. */
  method EmitSign(buf: array<char>, str: nat, sign: string) returns (next: nat)
    requires |sign| <= 1 && str + |sign| <= buf.Length
    modifies buf
    ensures next == str + |sign| && Wrote(old(buf[..]), buf[..], str, sign)
  {
    next := str;
    WroteNothing(buf[..], str);
    if sign != "" {
      next := Put(buf, next, sign[0]);
      assert [sign[0]] == sign;
    }
  }

  /** Lines 84-93: the sign and the prefix. */
  method EmitSignAndPrefix(buf: array<char>, str: nat, sign: string, base: int, flags: Flags, digits: string)
    returns (next: nat)
    requires |sign| <= 1
    requires digits == if flags.small then LOWER else UPPER
    requires str + |sign| + |PrefixText(base, flags)| <= buf.Length
    modifies buf
    ensures next == str + |sign| + |PrefixText(base, flags)|
    ensures Wrote(old(buf[..]), buf[..], str, sign + PrefixText(base, flags))
  {
    hide PrefixText, Wrote;
    ghost var b0 := buf[..];
    next := EmitSign(buf, str, sign);
    ghost var b1 := buf[..];
    next := EmitPrefix(buf, next, base, flags, digits);
    WroteThen(b0, b1, buf[..], str, sign, PrefixText(base, flags));
  }

  /** Three writes, one behind the other, are one write. */
  lemma WroteInTurn(
      b0: seq<char>, b1: seq<char>, b2: seq<char>, b3: seq<char>, at: nat, x: string, y: string, z: string)
    requires Wrote(b0, b1, at, x)
    requires Wrote(b1, b2, at + |x|, y)
    requires Wrote(b2, b3, at + |x| + |y|, z)
    ensures Wrote(b0, b3, at, x + y + z)
  {
    WroteThen(b0, b1, b2, at, x, y);
    WroteThen(b0, b2, b3, at, x + y, z);
  }

  /** The first half of a layout: everything that can pad on the left. */
  function HeadText(spaces: nat, sign: string, prefix: string, zeros: nat): string {
    Repeat(' ', spaces) + (sign + prefix) + Repeat('0', zeros)
  }

  /** The second half: zeros for the precision, the digits, and what pads on the right. */
  function TailText(zeros: nat, digits: string, spaces: nat): string {
    Repeat('0', zeros) + digits + Repeat(' ', spaces)
  }

  /** The two halves of the output make up the layout. */
  lemma Halves(l: Layout, pad: nat)
    requires pad <= l.zeros
    ensures HeadText(l.left, l.sign, l.prefix, pad) + TailText(l.zeros - pad, l.digits, l.right) == l.Text()
  {
    assert Repeat('0', pad) + Repeat('0', l.zeros - pad) == Repeat('0', l.zeros);
    assert HeadText(l.left, l.sign, l.prefix, pad) + TailText(l.zeros - pad, l.digits, l.right)
        == Repeat(' ', l.left) + l.sign + l.prefix + (Repeat('0', pad) + Repeat('0', l.zeros - pad))
         + l.digits + Repeat(' ', l.right);
  }

  /** What is left of the width when every field has its own. */
  function Room(num: Word, base: int, width: int, precision: int, flags: Flags): int
    requires 2 <= base <= 36
  {
    var digits := Numeral(Magnitude(num, flags), base, flags.small);
    width - |SignText(num, flags)| - |PrefixText(base, flags)| - Max(precision, |digits|)
  }

  /** The padding loops that are reached; each takes one more from a `size` that is used up. */
  function LastDecrements(flags: Flags): nat {
    if flags.left then 1 else if flags.zeropad then 2 else 3
  }

  /** No width and precision that a format can hold comes near the end of an `int`. */
  lemma RoomEnough(num: Word, base: int, width: int, precision: int, flags: Flags)
    requires 2 <= base <= 36 && -1 <= width && precision <= INT_MAX - 48
    ensures INT_MIN + LastDecrements(flags) <= Room(num, base, width, precision, flags)
  {
    hide Numeral;
    WordDigits(Magnitude(num, flags), base, flags.small);
  }

  /** `if (on) while (size-- > 0) *str++ = c;` */
  method FillIf(on: bool, buf: array<char>, str: nat, size: Int32, c: char, ghost count: nat)
    returns (next: nat, left: Int32)
    requires INT_MIN < size && count == if on then Max(0, size) else 0
    requires str + count <= buf.Length
    modifies buf
    ensures next == str + count && Wrote(old(buf[..]), buf[..], str, Repeat(c, count))
    ensures left == if on then (if size <= 0 then size else 0) - 1 else size
  {
    next, left := str, size;
    WroteNothing(buf[..], str);
    if on {
      next, left := Fill(buf, str, size, c);
    } else {
      assert Repeat(c, 0) == "";
    }
  }

  /** Lines 81-96: spaces on the left, the sign and the prefix, zeros used as padding. */
  method EmitHead(
      buf: array<char>, str: nat, sign: string, base: int, flags: Flags, digits: string, c: char, fill: Int32,
      ghost spaces: nat, ghost zeros: nat)
    returns (next: nat, left: Int32)
    requires |sign| <= 1 && INT_MIN + LastDecrements(flags) <= fill
    requires digits == if flags.small then LOWER else UPPER
    requires c == if flags.zeropad && !flags.left then '0' else ' '
    requires spaces == if flags.zeropad || flags.left then 0 else Max(0, fill)
    requires zeros == if flags.zeropad && !flags.left then Max(0, fill) else 0
    requires str + |HeadText(spaces, sign, PrefixText(base, flags), zeros)| <= buf.Length
    modifies buf
    ensures INT_MIN < left && if flags.left then left == fill else left < 0
    ensures var text := HeadText(spaces, sign, PrefixText(base, flags), zeros);
      next == str + |text| && Wrote(old(buf[..]), buf[..], str, text)
  {
    hide PrefixText, Wrote;
    ghost var b0 := buf[..];
    next, left := FillIf(!(flags.zeropad || flags.left), buf, str, fill, ' ', spaces);
    ghost var b1 := buf[..];
    next := EmitSignAndPrefix(buf, next, sign, base, flags, digits);
    ghost var b2 := buf[..];
    next, left := FillIf(!flags.left, buf, next, left, c, zeros);
    assert Repeat(c, zeros) == Repeat('0', zeros);
    WroteInTurn(b0, b1, b2, buf[..], str, Repeat(' ', spaces), sign + PrefixText(base, flags), Repeat('0', zeros));
  }

  /** Lines 97-102: zeros for the precision, the digits, spaces on the right. */
  method EmitTail(buf: array<char>, str: nat, tmp: array<char>, i: nat, least: Int32, left: Int32)
    returns (next: nat)
    requires i <= tmp.Length && buf != tmp && i <= least && INT_MIN < left
    requires str + |TailText(least - i, Reversed(tmp[..i]), Max(0, left))| <= buf.Length
    modifies buf
    ensures var text := TailText(least - i, Reversed(tmp[..i]), Max(0, left));
      next == str + |text| && Wrote(old(buf[..]), buf[..], str, text)
  {
    ghost var b0 := buf[..];
    next := EmitZeros(buf, str, i, least);
    ghost var b1 := buf[..];
    next := EmitDigits(buf, next, tmp, i);
    ghost var b2 := buf[..];
    var rest;
    next, rest := Fill(buf, next, left, ' ');
    WroteInTurn(b0, b1, b2, buf[..], str, Repeat('0', least - i), Reversed(tmp[..i]), Repeat(' ', Max(0, left)));
  }

  /** Lines 81-102, given what is left of the width once every field is accounted for. */
  method EmitFields(
      buf: array<char>, str: nat, ghost l: Layout, base: int, flags: Flags,
      fill: Int32, sign: string, digits: string, c: char, tmp: array<char>, i: nat, least: Int32)
    returns (next: nat)
    requires INT_MIN + LastDecrements(flags) <= fill && buf != tmp && i <= tmp.Length && i <= least && |sign| <= 1
    requires digits == if flags.small then LOWER else UPPER
    requires c == if flags.zeropad && !flags.left then '0' else ' '
    requires l.sign == sign && l.prefix == PrefixText(base, flags) && l.digits == Reversed(tmp[..i])
    requires l.left == if flags.zeropad || flags.left then 0 else Max(0, fill)
    requires l.zeros == least - i + if flags.zeropad && !flags.left then Max(0, fill) else 0
    requires l.right == if flags.left then Max(0, fill) else 0
    requires str + |l.Text()| <= buf.Length
    modifies buf
    ensures next == str + |l.Text()| && Wrote(old(buf[..]), buf[..], str, l.Text())
  {
    hide PrefixText, Reversed, Wrote, HeadText, TailText;
    ghost var b0 := buf[..];
    ghost var pad := l.zeros - (least - i);
    Halves(l, pad);
    var left;
    next, left := EmitHead(buf, str, sign, base, flags, digits, c, fill, l.left, pad);
    ghost var b1 := buf[..];
    next := EmitTail(buf, next, tmp, i, least, left);
    WroteThen(b0, b1, buf[..], str,
      HeadText(l.left, l.sign, l.prefix, pad), TailText(l.zeros - pad, l.digits, l.right));
  }

  /** Lines 60-69: the sign is split off, and the width reduced by the sign and the prefix. */
  method TakeSignAndPrefix(num: Word, base: int, size: Int32, flags: Flags)
    returns (sign: string, n: Word, left: Int32)
    requires INT_MIN + |SignText(num, flags)| + |PrefixText(base, flags)| <= size
    ensures sign == SignText(num, flags) && n == Magnitude(num, flags)
    ensures left == size - |sign| - |PrefixText(base, flags)|
    ensures |sign| <= 1 && |PrefixText(base, flags)| <= 2
  {
    sign, n, left := "", num, size;
    if flags.sign && Signed(num) < 0 {
      sign, n := "-", Negate(num);
    } else {
      sign := if flags.plus then "+" else if flags.space then " " else "";
    }
    if sign != "" {
      left := left - 1;
    }
    if flags.special {
      if base == 16 {
        left := left - 2;
      } else if base == 8 {
        left := left - 1;
      }
    }
  }

  /** `number`: None is the null pointer returned for a base it cannot print in. */
  method Number(buf: array<char>, str: nat, num: Word, base: int, size: Int32, precision: Int32, flags: Flags)
    returns (r: Option<nat>)
    requires 2 <= base <= 36 ==> INT_MIN + LastDecrements(flags) <= Room(num, base, size, precision, flags)
    requires 2 <= base <= 36 ==> str + |NumberText(num, base, size, precision, flags)| <= buf.Length
    modifies buf
    ensures r.None? <==> base < 2 || base > 36
    ensures r.None? ==> buf[..] == old(buf[..])
    ensures r.Some? ==>
      var text := NumberText(num, base, size, precision, flags);
      r.value == str + |text| && Wrote(old(buf[..]), buf[..], str, text)
  {
    var tmp := new char[36];
    var digits := if flags.small then LOWER else UPPER;
    var zeropad := flags.zeropad && !flags.left;
    if base < 2 || base > 36 {
      return None;
    }
    var c := if zeropad then '0' else ' ';
    var sign, n, left := TakeSignAndPrefix(num, base, size, flags);
    var i := ExtractDigits(n, base, digits, flags.small, tmp);
    var least: Int32 := if i > precision then i else precision;
    left := left - least;
    ghost var l := LayoutOf(num, base, size, precision, flags);
    var next := EmitFields(buf, str, l, base, flags, left, sign, digits, c, tmp, i, least);
    r := Some(next);
  }
}
