/** The kernel's other two integer printers: `ucvt`/`dcvt` (var/stdlib.c) and `dec2hex` (var/math.c). */
module Ucvt {
  import opened Word32
  import opened Text
  import opened Numerals
  import opened Numbers

  /** The bits of `flag` that `ucvt` looks at. */
  datatype PadFlags = PadFlags(addPlus: bool, spacePad: bool, zeroPad: bool, leftPad: bool)

  /**
   * The `number` flags that mean the same. `ucvt` pads on the left when LEFT_PAD is absent, and prefers spaces to
   * zeros.
   */
  function AsNumberFlags(flag: PadFlags, signed: bool): Flags {
    NO_FLAGS.(
      sign := signed,
      plus := flag.addPlus,
      left := flag.leftPad,
      zeropad := flag.zeroPad && !flag.spacePad)
  }

  /** Without a padding flag on its side of the number, the width is ignored. */
  function EffectiveWidth(flag: PadFlags, width: int): int {
    if flag.spacePad || (flag.zeroPad && !flag.leftPad) then width else 0
  }

  /** `todigit`, which knows sixteen digits; what is larger comes back as a raw character. */
  function ToDigit(c: nat): char {
    if c <= 9 then (c + '0' as int) as char
    else if c <= 15 then (c + 'A' as int - 10) as char
    else (c % 0x100) as char
  }

  /** The digits of `n` from `todigit`, in any base. */
  function RawNumeral(n: nat, base: nat): (s: string)
    requires 2 <= base
    ensures 1 <= |s|
  {
    if n < base then [ToDigit(n)]
    else
      Quotient(n, base);
      RawNumeral(n / base, base) + [ToDigit(n % base)]
  }

  function AbsBase(base: int): nat {
    if base < 0 then -base else base
  }

  /** The fields of the printed text; a base below zero asks for a signed print. */
  function UcvtLayout(v: Word, base: int, width: int, flag: PadFlags): Layout
    requires 2 <= AbsBase(base)
  {
    var flags := AsNumberFlags(flag, base < 0);
    var digits := RawNumeral(Magnitude(v, flags), AbsBase(base));
    Arranged(SignText(v, flags), "", digits, EffectiveWidth(flag, width), 0, flags)
  }

  function UcvtText(v: Word, base: int, width: int, flag: PadFlags): string
    requires 2 <= AbsBase(base)
  {
    UcvtLayout(v, base, width, flag).Text()
  }

  /** A digit that `todigit` does not know comes out as the character with its number. */
  lemma DigitTable(d: nat)
    ensures ToDigit(d) == if d < 16 then "0123456789ABCDEF"[d] else (d % 256) as char
  {
  }

  /**
   * The printed text field by field: the sign of a signed print, or a plus if asked for; and what the width leaves over
   * on the right with LEFT_PAD, else on the left, or between sign and digits if it is zeros.
   */
  lemma UcvtFields(v: Word, base: int, width: int, flag: PadFlags)
    requires 2 <= AbsBase(base)
    ensures var negative := base < 0 && v >= 0x8000_0000;
      var sign := if negative then "-" else if flag.addPlus then "+" else "";
      var digits := RawNumeral(if negative then 0x1_0000_0000 - v else v, if base < 0 then -base else base);
      var room := Max(0, width - |sign| - |digits|);
      UcvtText(v, base, width, flag) ==
        if flag.leftPad then sign + digits + Repeat(' ', if flag.spacePad then room else 0)
        else if flag.spacePad then Repeat(' ', room) + sign + digits
        else if flag.zeroPad then sign + Repeat('0', room) + digits
        else sign + digits
  {
    var flags := AsNumberFlags(flag, base < 0);
    var sign, digits := SignText(v, flags), RawNumeral(Magnitude(v, flags), AbsBase(base));
    hide RawNumeral, Arranged, Layout.Text, Repeat, EffectiveWidth;
    PlacedFields(sign, digits, width, flag, flags);
  }

  lemma PlacedFields(sign: string, digits: string, width: int, flag: PadFlags, flags: Flags)
    requires flags.left == flag.leftPad && flags.zeropad == (flag.zeroPad && !flag.spacePad)
    ensures var room := Max(0, width - |sign| - |digits|);
      Arranged(sign, "", digits, EffectiveWidth(flag, width), 0, flags).Text() ==
        if flag.leftPad then sign + digits + Repeat(' ', if flag.spacePad then room else 0)
        else if flag.spacePad then Repeat(' ', room) + sign + digits
        else if flag.zeroPad then sign + Repeat('0', room) + digits
        else sign + digits
  {
  }

  /** Every digit of `n` is one of the sixteen. */
  predicate SixteenDigits(n: nat, base: nat)
    requires 2 <= base
  {
    if n < base then n < 16
    else
      Quotient(n, base);
      n % base < 16 && SixteenDigits(n / base, base)
  }

  lemma {:induction false} SmallBase(n: nat, base: nat)
    requires 2 <= base <= 16
    ensures SixteenDigits(n, base)
  {
    if n >= base {
      Quotient(n, base);
      SmallBase(n / base, base);
    }
  }

  lemma {:induction false} RawNumeralIs(n: nat, base: nat)
    requires 2 <= base <= 36
    ensures |RawNumeral(n, base)| == |Numeral(n, base, false)|
    ensures RawNumeral(n, base) == Numeral(n, base, false) <==> SixteenDigits(n, base)
  {
    if n >= base {
      Quotient(n, base);
      RawNumeralIs(n / base, base);
      SameEnds(RawNumeral(n / base, base), Numeral(n / base, base, false),
               ToDigit(n % base), Digit(n % base, false));
    } else {
      SmallQuotient(n, base);
      SameEnds("", "", ToDigit(n), Digit(n, false));
      assert "" + [ToDigit(n)] == [ToDigit(n)] && "" + [Digit(n, false)] == [Digit(n, false)];
    }
  }

  lemma SameEnds(a: string, b: string, c: char, d: char)
    requires |a| == |b|
    ensures a + [c] == b + [d] <==> a == b && c == d
  {
    if a + [c] == b + [d] {
      assert (a + [c])[..|a|] == a && (b + [d])[..|a|] == b;
      assert (a + [c])[|a|] == c && (b + [d])[|a|] == d;
    }
  }

  lemma ArrangedDigits(
      sign: string, prefix: string, digits: string, others: string, width: int, precision: int, flags: Flags)
    requires |digits| == |others|
    ensures var l := Arranged(sign, prefix, digits, width, precision, flags);
      l.digits == digits && Arranged(sign, prefix, others, width, precision, flags) == l.(digits := others)
  {
  }

  /** Two layouts that differ in their digits only, and not in how many there are. */
  lemma DigitsShow(l: Layout, digits: string)
    requires |digits| == |l.digits|
    ensures l.(digits := digits).Text() == l.Text() <==> digits == l.digits
  {
    var at := l.left + |l.sign| + |l.prefix| + l.zeros;
    assert l.Text()[at..at + |digits|] == l.digits;
    assert l.(digits := digits).Text()[at..at + |digits|] == digits;
  }

  /**
   * `ucvt` and `dcvt` print what `number` prints under the translated flags exactly when every digit is one of sixteen:
   * always up to base 16, and above it unless `todigit` is asked for a letter it does not have.
   */
  lemma {:induction false} PrintersAgree(v: Word, base: int, width: int, flag: PadFlags)
    requires 2 <= AbsBase(base) <= 36
    ensures var flags := AsNumberFlags(flag, base < 0);
      && (UcvtText(v, base, width, flag) == NumberText(v, AbsBase(base), EffectiveWidth(flag, width), 0, flags)
          <==> SixteenDigits(Magnitude(v, flags), AbsBase(base)))
      && (AbsBase(base) <= 16 ==> SixteenDigits(Magnitude(v, flags), AbsBase(base)))
  {
    var flags := AsNumberFlags(flag, base < 0);
    var m := Magnitude(v, flags);
    RawNumeralIs(m, AbsBase(base));
    if AbsBase(base) <= 16 {
      SmallBase(m, AbsBase(base));
    }
    hide Numeral, RawNumeral, SixteenDigits, SignText, Magnitude, Arranged, EffectiveWidth;
    var l, digits := UcvtLayout(v, base, width, flag), Numeral(m, AbsBase(base), false);
    ArrangedDigits(SignText(v, flags), "", l.digits, digits, EffectiveWidth(flag, width), 0, flags);
    DigitsShow(l, digits);
  }

  /** Sixteen in base 17: `number` prints a G, `ucvt` the character with code 16. */
  lemma SixteenInBaseSeventeen(flag: PadFlags)
    ensures UcvtText(16, 17, 0, flag)
         != NumberText(16, 17, EffectiveWidth(flag, 0), 0, AsNumberFlags(flag, false))
  {
    PrintersAgree(16, 17, 0, flag);
    hide UcvtText, NumberText, AsNumberFlags;
  }

  /** One division moves the last digit of what is left to the front of what was taken. */
  lemma {:induction false} RawStep(n: nat, base: nat, taken: string)
    requires 2 <= base && 0 < n
    ensures n / base < n
    ensures var more := Reversed(taken + [ToDigit(n % base)]);
      RawNumeral(n, base) + Reversed(taken) == if n < base then more else RawNumeral(n / base, base) + more
    ensures n < base <==> n / base == 0
  {
    hide Reversed, ToDigit;
    ReversedSnoc(taken, ToDigit(n % base));
    if n >= base {
      Quotient(n, base);
      AppendInTurn(RawNumeral(n / base, base), [ToDigit(n % base)], Reversed(taken));
    } else {
      SmallQuotient(n, base);
    }
  }

  /** `while (j < width) { *buffer++ = c; ret++; j++; }` with `j` starting at `ret`. */
  method PadTo(buffer: array<char>, pos: nat, ret0: nat, width: Int32, c: char) returns (next: nat, ret: nat)
    requires ret0 <= INT_MAX
    requires pos + Max(0, width - ret0) <= buffer.Length
    modifies buffer
    ensures next == pos + Max(0, width - ret0) && ret == Max(width, ret0)
    ensures Wrote(old(buffer[..]), buffer[..], pos, Repeat(c, Max(0, width - ret0)))
  {
    next, ret := pos, ret0;
    var j: Int32 := ret;
    while j < width
      invariant ret == j && ret0 <= j && (j <= width || j == ret0) && next - pos == j - ret0
      invariant forall k :: 0 <= k < buffer.Length ==> buffer[k] == if pos <= k < next then c else old(buffer[k])
    {
      buffer[next] := c;
      next := next + 1;
      ret := ret + 1;
      j := j + 1;
    }
  }

  lemma EmptyAndZero(base: nat, none: string)
    requires 2 <= base && none == ""
    ensures RawNumeral(0, base) == "0" && Reversed("0") == "0" && Reversed(none) == ""
  {
  }

  /** Lines 280-286: the digits into `tmp`, which has room for twelve. */
  method Extract(v: Word, absV: Word, absBase: int, tmp: array<char>) returns (i: nat)
    requires 2 <= absBase && (v == 0 <==> absV == 0)
    requires tmp.Length == 12 && |RawNumeral(absV, absBase)| <= 12
    modifies tmp
    ensures i <= 12
    ensures Reversed(tmp[..i]) == RawNumeral(absV, absBase)
  {
    hide RawNumeral, ToDigit, Reversed;
    i := 0;
    ghost var whole := RawNumeral(absV, absBase);
    EmptyAndZero(absBase, tmp[..0]);
    if v == 0 {
      tmp[i] := '0';
      i := i + 1;
      assert tmp[..1] == ['0'];
    } else {
      var n: Word := absV;
      while n > 0
        invariant i <= 12
        invariant n == 0 ==> Reversed(tmp[..i]) == whole
        invariant n != 0 ==> RawNumeral(n, absBase) + Reversed(tmp[..i]) == whole
        decreases n
      {
        RawStep(n, absBase, tmp[..i]);
        ghost var before := tmp[..i];
        tmp[i] := ToDigit(n % absBase);
        assert tmp[..i + 1] == before + [ToDigit(n % absBase)];
        n, i := n / absBase, i + 1;
      }
    }
  }

  /** Lines 288-312: spaces on the left, the sign, zeros on the left. */
  method EmitLeft(buffer: array<char>, sign: string, ret0: nat, width: Int32, left: bool, flag: PadFlags,
                  ghost spaces: nat, ghost zeros: nat)
    returns (next: nat, ret: nat)
    requires |sign| <= 1 && ret0 <= INT_MAX
    requires spaces == if left && flag.spacePad then Max(0, width - ret0) else 0
    requires zeros == if left && flag.zeroPad && !flag.spacePad then Max(0, width - ret0) else 0
    requires spaces + |sign| + zeros <= buffer.Length
    modifies buffer
    ensures next == spaces + |sign| + zeros && ret == ret0 + spaces + zeros
    ensures Wrote(old(buffer[..]), buffer[..], 0, Repeat(' ', spaces) + sign + Repeat('0', zeros))
  {
    next, ret := 0, ret0;
    ghost var b0 := buffer[..];
    WroteNothing(b0, 0);
    if left && flag.spacePad {
      next, ret := PadTo(buffer, next, ret, width, ' ');
    }
    ghost var b1 := buffer[..];
    WroteNothing(b1, next);
    if sign != "" {
      next := Put(buffer, next, sign[0]);
    }
    ghost var b2 := buffer[..];
    WroteNothing(b2, next);
    if left && flag.zeroPad {
      next, ret := PadTo(buffer, next, ret, width, '0');
    }
    WroteInTurn(b0, b1, b2, buffer[..], 0, Repeat(' ', spaces), sign, Repeat('0', zeros));
  }

  /** Lines 288-325: the same fields as a layout, in the same order. */
  method EmitAround(
      buffer: array<char>, ghost l: Layout, sign: string, tmp: array<char>, i: nat, width: Int32, left: bool,
      flag: PadFlags)
    returns (next: nat, ret: nat)
    requires buffer != tmp && i <= 12 <= tmp.Length && |sign| <= 1
    requires l.sign == sign && l.prefix == "" && l.digits == Reversed(tmp[..i])
    requires left == !flag.leftPad
    requires var room := Max(0, width - |sign| - i);
      && l.left == (if left && flag.spacePad then room else 0)
      && l.zeros == (if left && flag.zeroPad && !flag.spacePad then room else 0)
      && l.right == (if !left && flag.spacePad then room else 0)
    requires |l.Text()| <= buffer.Length
    modifies buffer
    ensures next == ret == |l.Text()|
    ensures Wrote(old(buffer[..]), buffer[..], 0, l.Text())
  {
    ghost var b0 := buffer[..];
    ghost var head := Repeat(' ', l.left) + l.sign + Repeat('0', l.zeros);
    next, ret := EmitLeft(buffer, sign, |sign| + i, width, left, flag, l.left, l.zeros);
    ghost var b1 := buffer[..];
    next, ret := EmitDigitsAndRight(buffer, next, ret, l, tmp, i, width, !left && flag.spacePad);
    WroteThen(b0, b1, buffer[..], 0, head, l.digits + Repeat(' ', l.right));
    assert head + (l.digits + Repeat(' ', l.right)) == l.Text();
  }

  method EmitDigitsAndRight(
      buffer: array<char>, pos: nat, ret0: nat, ghost l: Layout, tmp: array<char>, i: nat, width: Int32, right: bool)
    returns (next: nat, ret: nat)
    requires buffer != tmp && i <= tmp.Length && ret0 <= INT_MAX
    requires l.digits == Reversed(tmp[..i])
    requires l.right == if right then Max(0, width - ret0) else 0
    requires pos + i + l.right <= buffer.Length
    modifies buffer
    ensures next == pos + i + l.right && ret == ret0 + l.right
    ensures Wrote(old(buffer[..]), buffer[..], pos, l.digits + Repeat(' ', l.right))
  {
    ghost var b0 := buffer[..];
    ret := ret0;
    next := EmitDigits(buffer, pos, tmp, i);
    ghost var b1 := buffer[..];
    WroteNothing(b1, next);
    if right {
      next, ret := PadTo(buffer, next, ret, width, ' ');
    }
    WroteThen(b0, b1, buffer[..], pos, l.digits, Repeat(' ', l.right));
  }

  /** `ucvt`: the text, a terminator, and the number of characters before it. */
  method Ucvt(v: Word, buffer: array<char>, base: Int32, width: Int32, flag: PadFlags) returns (ret: nat)
    requires 2 <= AbsBase(base) <= INT_MAX
    requires |UcvtLayout(v, base, width, flag).digits| <= 12
    requires |UcvtText(v, base, width, flag)| < buffer.Length
    modifies buffer
    ensures ret == |UcvtText(v, base, width, flag)|
    ensures Wrote(old(buffer[..]), buffer[..], 0, UcvtText(v, base, width, flag) + "\0")
  {
    ghost var l := UcvtLayout(v, base, width, flag);
    var tmp := new char[12];
    var left := !flag.leftPad;
    var absBase := if base >= 0 then base else -base;
    var negative := base < 0 && Signed(v) < 0;
    var absV: Word := if negative then Negate(v) else v;
    var i := Extract(v, absV, absBase, tmp);
    var sign := if negative then "-" else if flag.addPlus then "+" else "";
    var next;
    ghost var b0 := buffer[..];
    next, ret := EmitAround(buffer, l, sign, tmp, i, width, left, flag);
    ghost var b1 := buffer[..];
    next := Put(buffer, next, '\0');
    WroteThen(b0, b1, buffer[..], 0, l.Text(), "\0");
  }

  /** `dcvt` */
  method Dcvt(v: Word, buffer: array<char>, base: Int32, width: Int32, flag: PadFlags) returns (ret: nat)
    requires 2 <= AbsBase(base) <= INT_MAX
    requires |UcvtLayout(v, -base, width, flag).digits| <= 12
    requires |UcvtText(v, -base, width, flag)| < buffer.Length
    modifies buffer
    ensures ret == |UcvtText(v, -base, width, flag)|
    ensures Wrote(old(buffer[..]), buffer[..], 0, UcvtText(v, -base, width, flag) + "\0")
  {
    ret := Ucvt(v, buffer, -base, width, flag);
  }

  /** As with any numeral: at most `k` digits exactly when below the `k`-th power of the base. */
  lemma {:induction false} RawNumeralLength(n: nat, base: nat, k: nat)
    requires 2 <= base && 1 <= k
    ensures |RawNumeral(n, base)| <= k <==> n < Power(base, k)
  {
    if n >= base {
      Quotient(n, base);
      if k == 1 {
        assert Power(base, 1) == base;
      } else {
        RawNumeralLength(n / base, base, k - 1);
        DivBelow(n, base, Power(base, k - 1));
      }
    } else {
      PowerAtLeast(base, k);
    }
  }

  /**
   * The twelve digit cells are enough for every value exactly from base 7 on: below it, the largest value overflows
   * them.
   */
  lemma TwelveCells(base: nat)
    requires 2 <= base
    ensures (forall v: Word :: |RawNumeral(v, base)| <= 12) <==> 7 <= base
  {
    PowerOfSixAndSeven();
    if base >= 7 {
      PowerMonotone(7, base, 12);
      forall v: Word ensures |RawNumeral(v, base)| <= 12 {
        RawNumeralLength(v, base, 12);
      }
    } else {
      PowerMonotone(base, 6, 12);
      RawNumeralLength(0xFFFF_FFFF, base, 12);
    }
  }

  lemma PowerOfSixAndSeven()
    ensures Power(6, 12) <= 0xFFFF_FFFF < Power(7, 12)
  {
    assert Power(6, 3) == 216;
    PowerAdd(6, 3, 3);
    PowerAdd(6, 6, 6);
    assert Power(7, 3) == 343;
    PowerAdd(7, 3, 3);
    PowerAdd(7, 6, 6);
  }

  /** `dec2hex`, lines 66-68: at least one digit, until nothing is left. */
  method ExtractHex(x0: Word, tmp: array<char>) returns (cur: nat)
    requires tmp.Length == 50
    modifies tmp
    ensures 1 <= cur <= 32 && Reversed(tmp[..cur]) == Numeral(x0, 16, false)
  {
    var hexchars, x: Word := "0123456789ABCDEF", x0;
    cur := 0;
    ghost var whole := Numeral(x0, 16, false);
    WordDigits(x0, 16, false);
    assert tmp[..0] == [];
    while true
      invariant cur < 32
      invariant Numeral(x, 16, false) + Reversed(tmp[..cur]) == whole
      decreases x
    {
      DigitStepHex(x, tmp[..cur]);
      ghost var before := tmp[..cur];
      tmp[cur] := hexchars[x % 16];
      assert tmp[..cur + 1] == before + [Digit(x % 16, false)];
      cur := cur + 1;
      x := x / 16;
      if x == 0 {
        break;
      }
    }
  }

  /** Lines 70-74: reverse into the caller's buffer; `last` wraps below zero after its last use. */
  method ReverseInto(ret: array<char>, tmp: array<char>, cur: nat)
    requires ret != tmp && 1 <= cur <= 32 && cur <= tmp.Length && cur < ret.Length
    modifies ret
    ensures Wrote(old(ret[..]), ret[..], 0, Reversed(tmp[..cur]) + "\0")
  {
    var last: Word := cur - 1;
    var count := 0;
    while count < cur
      invariant 0 <= count <= cur
      invariant count < cur ==> last == cur - 1 - count
      invariant forall k :: 0 <= k < ret.Length ==>
        ret[k] == if k < count then tmp[cur - 1 - k] else old(ret[k])
    {
      ret[count] := tmp[last];
      last := if last == 0 then 0xFFFF_FFFF else last - 1;
      count := count + 1;
    }
    ret[cur] := '\0';
  }

  /** `dec2hex` prints what `number` prints in base 16 with no flags. */
  method Dec2Hex(x: Word, ret: array<char>)
    requires |NumberText(x, 16, -1, -1, NO_FLAGS)| < ret.Length
    modifies ret
    ensures Wrote(old(ret[..]), ret[..], 0, NumberText(x, 16, -1, -1, NO_FLAGS) + "\0")
  {
    var tmp := new char[50];
    var cur := ExtractHex(x, tmp);
    PlainText(x);
    ReverseInto(ret, tmp, cur);
  }

  lemma PlainText(x: Word)
    ensures NumberText(x, 16, -1, -1, NO_FLAGS) == Numeral(x, 16, false)
  {
    var l := LayoutOf(x, 16, -1, -1, NO_FLAGS);
    assert l.Text() == l.digits;
  }

  lemma DigitStepHex(x: nat, taken: string)
    ensures var more := Reversed(taken + [Digit(x % 16, false)]);
      Numeral(x, 16, false) + Reversed(taken) == if x < 16 then more else Numeral(x / 16, 16, false) + more
  {
    if x > 0 {
      DigitStep(x, 16, false, taken);
    } else {
      ReversedSnoc(taken, '0');
    }
  }
}
