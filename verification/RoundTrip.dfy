/** What `number` prints, `strtol` and `strtoul` read back. */
module RoundTrip {
  import opened Word32
  import opened Text
  import opened Numerals
  import opened Numbers
  import opened Strtol

  /** Printed numbers as a parser sees them: spaces, a sign, `0x`, a run of digits, spaces. */
  datatype Shape = Shape(left: nat, sign: string, hex: string, run: string, right: nat)
  {
    function Text(): string {
      Repeat(' ', left) + sign + hex + run + Repeat(' ', right)
    }

    predicate Valid(base: int) {
      && 2 <= base <= 36
      && (sign == "" || sign == "+" || sign == "-")
      && (hex == "" || ((hex == "0x" || hex == "0X") && base == 16))
      && 1 <= |run| && AllDigits(run, base)
    }

    function Start(): nat {
      left + |sign| + |hex|
    }

    /** The base that base 0 stands for. */
    function OwnBase(): int
      requires 1 <= |run|
    {
      if hex != "" then 16 else if run[0] == '0' then 8 else 10
    }
  }

  lemma {:induction false} SkipsRepeat(s: string, i: nat, n: nat)
    requires i <= n <= |s|
    requires forall k :: i <= k < n ==> s[k] == ' '
    requires !IsSpace(At(s, n))
    ensures SkipSpaces(s, i) == n
    decreases n - i
  {
    if i < n {
      SkipsRepeat(s, i + 1, n);
    }
  }

  lemma {:induction false} RunsTo(s: string, i: nat, n: nat, base: int)
    requires i <= n <= |s|
    requires forall k :: i <= k < n ==> IsDigitOf(s[k], base)
    requires !IsDigitOf(At(s, n), base)
    ensures RunEnd(s, i, base) == n
    decreases n - i
  {
    if i < n {
      RunsTo(s, i + 1, n, base);
    }
  }

  /** Where the fields of a shape lie in its text. */
  lemma ShapeCharacters(p: Shape, base: int)
    requires p.Valid(base)
    ensures var s := p.Text();
      && |s| == p.Start() + |p.run| + p.right
      && (forall k :: 0 <= k < p.left ==> s[k] == ' ')
      && s[p.left..p.left + |p.sign|] == p.sign
      && s[p.left + |p.sign|..p.Start()] == p.hex
      && s[p.Start()..p.Start() + |p.run|] == p.run
      && (forall k :: 0 <= k < |p.run| ==> s[p.Start() + k] == p.run[k])
      && At(s, p.Start() + |p.run|) in [' ', '\0']
  {
    var s := p.Text();
    assert s[p.left..p.left + |p.sign|] == p.sign;
    assert s[p.left + |p.sign|..p.Start()] == p.hex;
    assert s[p.Start()..p.Start() + |p.run|] == p.run;
  }

  lemma ShapeSign(p: Shape, base: int)
    requires p.Valid(base)
    ensures var s := p.Text();
      |s| > p.left && SkipSpaces(s, 0) == p.left
      && (s[p.left] == '-' <==> p.sign == "-") && (s[p.left] == '+' <==> p.sign == "+")
  {
    ShapeCharacters(p, base);
    var s := p.Text();
    if p.sign != "" {
      assert s[p.left] == s[p.left..p.left + |p.sign|][0] == p.sign[0];
    } else if p.hex != "" {
      assert s[p.left] == s[p.left + |p.sign|..p.Start()][0] == p.hex[0];
    } else {
      assert s[p.left] == s[p.Start() + 0] == p.run[0];
    }
    SkipsRepeat(s, 0, p.left);
  }

  lemma ShapeNextTwo(p: Shape, base: int)
    requires p.Valid(base)
    ensures var s, i := p.Text(), p.left + |p.sign|;
      && i + 1 <= |s|
      && (p.hex != "" ==> s[i] == '0' && IsX(At(s, i + 1)))
      && (p.hex == "" ==> s[i] == p.run[0] && (At(s, i + 1) in [' ', '\0'] || IsDigitOf(At(s, i + 1), base)))
  {
    ShapeCharacters(p, base);
    var s, i := p.Text(), p.left + |p.sign|;
    if p.hex != "" {
      assert s[i] == s[i..p.Start()][0] == p.hex[0];
      assert s[i + 1] == s[i..p.Start()][1] == p.hex[1];
    } else {
      assert s[i] == s[p.Start() + 0] == p.run[0];
      if |p.run| > 1 {
        assert s[i + 1] == s[p.Start() + 1] == p.run[1];
      }
    }
  }

  lemma ShapeBase(p: Shape, base: int, base0: int)
    requires p.Valid(base)
    requires base0 == base || (base0 == 0 && base == p.OwnBase())
    ensures |p.Text()| >= p.left + |p.sign|
    ensures ReadBase(p.Text(), p.left + |p.sign|, p.sign == "-", base0) == Header(p.sign == "-", base, p.Start())
  {
    ShapeNextTwo(p, base);
  }

  lemma ParseShape(p: Shape, base: int, base0: int)
    requires p.Valid(base)
    requires base0 == base || (base0 == 0 && base == p.OwnBase())
    ensures var s := p.Text();
      var h := ReadHeader(s, base0);
      && h == Header(p.sign == "-", base, p.Start())
      && RunValue(s, h) == Value(p.run, base)
      && EndOf(s, h) == p.Start() + |p.run|
  {
    hide SkipSpaces, RunEnd, ReadBase, Value;
    var s := p.Text();
    ShapeSign(p, base);
    ShapeBase(p, base, base0);
    ShapeCharacters(p, base);
    RunsTo(s, p.Start(), p.Start() + |p.run|, base);
  }

  /**
   * The shape of a printed number: a space printed for a sign is one more space on the left, an octal prefix is a
   * digit.
   */
  function ShapeFrom(l: Layout, base: int): Shape {
    var run := Repeat('0', l.zeros) + l.digits;
    Shape(if l.sign == " " then l.left + 1 else l.left,
          if l.sign == " " then "" else l.sign,
          if base == 16 then l.prefix else "",
          if base == 16 then run else l.prefix + run,
          l.right)
  }

  lemma ShapeFromText(l: Layout, base: int)
    ensures ShapeFrom(l, base).Text() == l.Text()
  {
    var p := ShapeFrom(l, base);
    SplitText(l);
    JoinShape(p);
    ShapeFromParts(l, base);
  }

  lemma ShapeFromParts(l: Layout, base: int)
    ensures var p := ShapeFrom(l, base);
      && Repeat(' ', p.left) + p.sign == Repeat(' ', l.left) + l.sign
      && p.hex + p.run == l.prefix + (Repeat('0', l.zeros) + l.digits)
      && p.right == l.right
  {
    if l.sign == " " {
      assert Repeat(' ', l.left + 1) + "" == Repeat(' ', l.left) + " ";
    }
  }

  lemma JoinShape(p: Shape)
    ensures p.Text() == (Repeat(' ', p.left) + p.sign) + (p.hex + p.run) + Repeat(' ', p.right)
  {
  }

  lemma SplitText(l: Layout)
    ensures l.Text() ==
      (Repeat(' ', l.left) + l.sign) + (l.prefix + (Repeat('0', l.zeros) + l.digits)) + Repeat(' ', l.right)
  {
  }

  lemma ShapeFromValue(l: Layout, base: int)
    requires 2 <= base <= 36
    requires AllDigits(l.digits, base)
    requires l.prefix == "" || base == 16 || l.prefix == "0"
    ensures var p := ShapeFrom(l, base);
      AllDigits(p.run, base) && Value(p.run, base) == Value(l.digits, base)
  {
    hide Value;
    var run := Repeat('0', l.zeros) + l.digits;
    ValueLeadingZeros(l.zeros, l.digits, base);
    if base != 16 {
      if l.prefix == "0" {
        ValueLeadingZeros(1, run, base);
        assert Repeat('0', 1) == l.prefix;
      } else {
        assert l.prefix + run == run;
      }
    }
  }

  function ShapeOf(num: Word, base: int, width: int, precision: int, flags: Flags): (p: Shape)
    requires 2 <= base <= 36
    ensures 1 <= |p.run|
  {
    ShapeFrom(LayoutOf(num, base, width, precision, flags), base)
  }

  lemma LayoutFields(num: Word, base: int, width: int, precision: int, flags: Flags)
    requires 2 <= base <= 36
    ensures var l := LayoutOf(num, base, width, precision, flags);
      && (l.sign == "" || l.sign == "+" || l.sign == "-" || l.sign == " ")
      && (l.sign == "-" <==> flags.sign && Signed(num) < 0)
      && l.prefix == PrefixText(base, flags)
      && l.digits == Numeral(Magnitude(num, flags), base, flags.small)
  {
  }

  lemma ShapeOfNumber(num: Word, base: int, width: int, precision: int, flags: Flags)
    requires 2 <= base <= 36
    ensures var p := ShapeOf(num, base, width, precision, flags);
      && p.Text() == NumberText(num, base, width, precision, flags)
      && p.Valid(base)
      && Value(p.run, base) == Magnitude(num, flags)
      && (p.sign == "-" <==> flags.sign && Signed(num) < 0)
  {
    var l := LayoutOf(num, base, width, precision, flags);
    LayoutFields(num, base, width, precision, flags);
    NumeralValue(Magnitude(num, flags), base, flags.small);
    ShapeFromValue(l, base);
    ShapeFromText(l, base);
  }

  /** The base a parser given base 0 takes the printed number to be in. */
  function ShownBase(num: Word, base: int, width: int, precision: int, flags: Flags): int
    requires 2 <= base <= 36
  {
    if base == 16 && flags.special then 16
    else if base == 8 && flags.special then 8
    else if LayoutOf(num, base, width, precision, flags).zeros > 0 || num == 0 then 8
    else 10
  }

  /** `base0` can read what was printed in `base`: it is the same base, or 0 and the text shows its base. */
  predicate Readable(num: Word, base: int, width: int, precision: int, flags: Flags, base0: int)
    requires 2 <= base <= 36
  {
    base0 == base || (base0 == 0 && base == ShownBase(num, base, width, precision, flags))
  }

  lemma ReadableBase(num: Word, base: int, width: int, precision: int, flags: Flags)
    requires 2 <= base <= 36
    ensures ShapeOf(num, base, width, precision, flags).OwnBase() == ShownBase(num, base, width, precision, flags)
  {
    NumeralHead(Magnitude(num, flags), base, flags.small);
  }

  lemma PrintThenScan(num: Word, base: int, width: int, precision: int, flags: Flags, base0: int)
    requires 2 <= base <= 36
    requires Readable(num, base, width, precision, flags, base0)
    ensures var s := NumberText(num, base, width, precision, flags);
      var h := ReadHeader(s, base0);
      && h.neg == (flags.sign && Signed(num) < 0)
      && RunValue(s, h) == Magnitude(num, flags)
      && EndOf(s, h) == |s| - LayoutOf(num, base, width, precision, flags).right
  {
    var p := ShapeOf(num, base, width, precision, flags);
    ShapeOfNumber(num, base, width, precision, flags);
    ReadableBase(num, base, width, precision, flags);
    ParseShape(p, base, base0);
    ShapeCharacters(p, base);
  }

  /**
   * `strtol` on the output of `number`: a signed print gives the value back, the most negative one included;
   * an unsigned print gives it back exactly when it is no larger than LONG_MAX.
   * The end pointer is just behind the last digit.
   */
  lemma {:induction false} StrtolReadsBack(num: Word, base: int, width: int, precision: int, flags: Flags, base0: int)
    requires 2 <= base <= 36
    requires Readable(num, base, width, precision, flags, base0)
    ensures var s := NumberText(num, base, width, precision, flags);
      && IsCString(s)
      && (flags.sign ==> Clamp(SignedValue(s, base0)) == Signed(num))
      && (!flags.sign ==> (Clamp(SignedValue(s, base0)) == num <==> num <= INT_MAX))
      && EndOf(s, ReadHeader(s, base0)) == |s| - LayoutOf(num, base, width, precision, flags).right
  {
    hide ReadHeader, RunValue, NumberText, LayoutOf, EndOf, IsCString;
    NoTerminator(num, base, width, precision, flags);
    ShapeOfNumber(num, base, width, precision, flags);
    PrintThenScan(num, base, width, precision, flags, base0);
  }

  /** `strtoul` gives the register contents back, whether they were printed signed or unsigned. */
  lemma {:induction false} StrtoulReadsBack(num: Word, base: int, width: int, precision: int, flags: Flags, base0: int)
    requires 2 <= base <= 36
    requires Readable(num, base, width, precision, flags, base0)
    ensures UnsignedResult(NumberText(num, base, width, precision, flags), base0) == num
  {
    hide ReadHeader, RunValue, NumberText, LayoutOf, EndOf;
    ShapeOfNumber(num, base, width, precision, flags);
    PrintThenScan(num, base, width, precision, flags, base0);
  }

  lemma {:induction false} NoTerminator(num: Word, base: int, width: int, precision: int, flags: Flags)
    requires 2 <= base <= 36
    ensures IsCString(NumberText(num, base, width, precision, flags))
  {
    hide LayoutOf, NumberText;
    ShapeOfNumber(num, base, width, precision, flags);
    ShapeIsCString(ShapeOf(num, base, width, precision, flags), base);
  }

  lemma AppendIsCString(a: string, b: string)
    ensures IsCString(a + b) <==> IsCString(a) && IsCString(b)
  {
  }

  lemma RunIsCString(run: string, base: int)
    requires AllDigits(run, base)
    ensures IsCString(run)
  {
  }

  lemma ShapeIsCString(p: Shape, base: int)
    requires p.Valid(base)
    ensures IsCString(p.Text())
  {
    RunIsCString(p.run, base);
    assert IsCString(p.sign) && IsCString(p.hex) && IsCString(Repeat(' ', p.left)) && IsCString(Repeat(' ', p.right));
    hide IsCString, AllDigits;
    AppendIsCString(Repeat(' ', p.left), p.sign);
    AppendIsCString(Repeat(' ', p.left) + p.sign, p.hex);
    AppendIsCString(Repeat(' ', p.left) + p.sign + p.hex, p.run);
    AppendIsCString(Repeat(' ', p.left) + p.sign + p.hex + p.run, Repeat(' ', p.right));
  }
}
