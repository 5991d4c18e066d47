/**
 * The `*` and the length modifiers of a format: what C99 (section 7.19.6.1) means, and what `vsprintf` makes of them.
 */
module Stars {
  import opened Word32
  import opened Text
  import opened Numbers
  import opened Numerals
  import opened Format
  import C99
  import opened Counting
  import opened Arguments
  import opened Wrappers

  /** A length modifier that the code does not know: one of `j`, `z`, `t`, `hh` and `ll`. */
  predicate UnknownModifierAt(fmt: string, i: nat)
    requires i <= |fmt|
  {
    var c := At(fmt, i);
    c == 'j' || c == 'z' || c == 't' || (c == 'h' && At(fmt, i + 1) == 'h') || (c == 'l' && At(fmt, i + 1) == 'l')
  }

  /** A `*` stands behind the flags, or behind the point that ends the digits of the width. */
  predicate StarAt(fmt: string, i: nat)
    requires i < |fmt|
  {
    var a := C99.FlagsEnd(fmt, i);
    var b := C99.SpanEnd(fmt, a, C99.DECIMAL_DIGITS);
    At(fmt, a) == '*' || (At(fmt, b) == '.' && At(fmt, b + 1) == '*')
  }

  function Joined(flags: Flags, minus: bool, plus: bool, space: bool, hash: bool, zero: bool): Flags {
    flags.(left := flags.left || minus, plus := flags.plus || plus, space := flags.space || space,
      special := flags.special || hash, zeropad := flags.zeropad || zero)
  }

  /** The flags set already and those whose characters are in a run. */
  function WithRun(flags: Flags, run: string): Flags {
    Joined(flags, '-' in run, '+' in run, ' ' in run, '#' in run, '0' in run)
  }

  lemma IsFlag(c: char)
    ensures IsFlagChar(c) <==> c in C99.FLAG_CHARACTERS
  {
  }

  lemma InFront(c: char, run: string, d: char)
    ensures d in [c] + run <==> d == c || d in run
  {
  }

  lemma SetOne(flags: Flags, c: char, minus: bool, plus: bool, space: bool, hash: bool, zero: bool)
    requires IsFlagChar(c)
    ensures Joined(SetFlag(flags, c), minus, plus, space, hash, zero)
         == Joined(flags, c == '-' || minus, c == '+' || plus, c == ' ' || space, c == '#' || hash, c == '0' || zero)
  {
  }

  lemma RunStep(flags: Flags, c: char, run: string)
    requires IsFlagChar(c)
    ensures WithRun(SetFlag(flags, c), run) == WithRun(flags, [c] + run)
  {
    hide Joined, SetFlag;
    InFront(c, run, '-');
    InFront(c, run, '+');
    InFront(c, run, ' ');
    InFront(c, run, '#');
    InFront(c, run, '0');
    SetOne(flags, c, '-' in run, '+' in run, ' ' in run, '#' in run, '0' in run);
  }

  /** The code's run of flags is C99's, and sets the same flags. */
  lemma {:induction false} FlagRun(fmt: string, i: nat, flags: Flags)
    requires i <= |fmt|
    ensures var r := C99.SpanEnd(fmt, i, C99.FLAG_CHARACTERS);
      ScanFlags(fmt, i, flags) == (WithRun(flags, fmt[i..r]), r)
    decreases |fmt| - i
  {
    if i < |fmt| {
      IsFlag(fmt[i]);
    }
    if i < |fmt| && fmt[i] in C99.FLAG_CHARACTERS {
      FlagRun(fmt, i + 1, SetFlag(flags, fmt[i]));
      var r := C99.SpanEnd(fmt, i + 1, C99.FLAG_CHARACTERS);
      assert fmt[i..r] == [fmt[i]] + fmt[i + 1..r];
      RunStep(flags, fmt[i], fmt[i + 1..r]);
      hide WithRun, SetFlag;
    }
  }

  lemma {:induction false} DigitRun(fmt: string, i: nat)
    requires i <= |fmt|
    ensures DecimalEnd(fmt, i) == C99.SpanEnd(fmt, i, C99.DECIMAL_DIGITS)
    decreases |fmt| - i
  {
    if i < |fmt| && fmt[i] in C99.DECIMAL_DIGITS {
      DigitRun(fmt, i + 1);
    }
  }

  lemma {:induction false} DecimalValue(s: string)
    requires forall k :: 0 <= k < |s| ==> s[k] in C99.DECIMAL_DIGITS
    ensures AllDigits(s, 10) && Value(s, 10) == C99.Decimal(s)
  {
    if s != "" {
      DecimalValue(s[..|s| - 1]);
    }
  }

  /** A field without a `*` is read as C99 reads it; at a `*` the code stays where it is. */
  lemma FieldRead(fmt: string, i: nat)
    requires i <= |fmt|
    ensures var f := ScanWidth(fmt, i);
      && (f.star <==> At(fmt, i) == '*')
      && (f.star ==> f.next == i && C99.FieldEnd(fmt, i) == i + 1)
      && (!f.star ==> f == Field(C99.FieldValue(fmt, i), false, C99.FieldEnd(fmt, i)))
      && f.next == C99.SpanEnd(fmt, i, C99.DECIMAL_DIGITS)
  {
    DigitRun(fmt, i);
    DecimalValue(fmt[i..DecimalEnd(fmt, i)]);
  }

  lemma PrecisionRead(fmt: string, b: nat)
    requires b <= |fmt|
    ensures var f := ScanPrecision(fmt, b);
      && (f.star <==> At(fmt, b) == '.' && At(fmt, b + 1) == '*')
      && (f.star ==> f.next == b + 1 && C99.FieldEnd(fmt, b + 1) == b + 2)
      && (!f.star ==> f.next == (if At(fmt, b) == '.' then C99.FieldEnd(fmt, b + 1) else b))
      && (!f.star ==> f.value == if At(fmt, b) == '.' then Max(0, C99.FieldValue(fmt, b + 1)) else -1)
  {
    hide ScanWidth, C99.FieldEnd, C99.FieldValue;
    if At(fmt, b) == '.' {
      FieldRead(fmt, b + 1);
    }
  }

  /** The flags are C99's whatever follows. */
  lemma FlagsRead(fmt: string, i: nat)
    requires i < |fmt|
    ensures var f := C99.FlagsOf(fmt, i);
      ScanFlags(fmt, i + 1, NO_FLAGS) ==
        (Flags(f.zero, false, f.plus, f.space, f.minus, f.hash, false), C99.FlagsEnd(fmt, i))
  {
    FlagRun(fmt, i + 1, NO_FLAGS);
  }

  /** The fields in the order in which the code reads them. */
  lemma FieldsInOrder(fmt: string, i: nat)
    requires i < |fmt|
    ensures var width := ScanWidth(fmt, C99.FlagsEnd(fmt, i));
      var precision := ScanPrecision(fmt, width.next);
      var (d, conv) := ScanDirective(fmt, i);
      var f, e := C99.FlagsOf(fmt, i), precision.next;
      && d.flags == Flags(f.zero, false, f.plus, f.space, f.minus, f.hash, false)
      && d.width == width.value && d.precision == precision.value && d.star == (width.star || precision.star)
      && d.qualifier == (if IsQualifier(At(fmt, e)) then Some(fmt[e]) else None)
      && conv == (if IsQualifier(At(fmt, e)) then e + 1 else e)
      && (d.star ==> d.conv == '*')
  {
    FlagsRead(fmt, i);
    StarIsConversion(fmt, i);
    hide ScanFlags, ScanWidth, ScanPrecision, C99.FlagsOf, C99.FlagsEnd, IsQualifier;
  }

  /** C99's fields, where the code looks for them. */
  lemma C99InOrder(fmt: string, i: nat)
    requires i < |fmt|
    ensures var a := C99.FlagsEnd(fmt, i);
      var b := C99.SpanEnd(fmt, a, C99.DECIMAL_DIGITS);
      var e := if At(fmt, b) == '.' then C99.FieldEnd(fmt, b + 1) else b;
      && (StarAt(fmt, i) <==> At(fmt, a) == '*' || (At(fmt, b) == '.' && At(fmt, b + 1) == '*'))
      && (At(fmt, a) == '*' ==> b == a && a + 1 <= C99.FieldsEnd(fmt, i))
      && (At(fmt, a) != '*' ==> C99.FieldsEnd(fmt, i) == e)
      && C99.Width(fmt, i) == C99.FieldValue(fmt, a)
      && (At(fmt, a) != '*' ==>
           C99.Precision(fmt, i) == if At(fmt, b) == '.' then Max(0, C99.FieldValue(fmt, b + 1)) else -1)
  {
    hide C99.FieldValue;
  }

  lemma NoQualifier()
    ensures !IsQualifier('*')
  {
  }

  /** Both, field by field. */
  lemma {:induction false} NumbersRead(fmt: string, i: nat)
    requires i < |fmt|
    ensures var width := ScanWidth(fmt, C99.FlagsEnd(fmt, i));
      var precision := ScanPrecision(fmt, width.next);
      && (width.star || precision.star <==> StarAt(fmt, i))
      && (StarAt(fmt, i) ==> precision.next < C99.FieldsEnd(fmt, i) && At(fmt, precision.next) == '*')
      && (!StarAt(fmt, i) ==> precision.next == C99.FieldsEnd(fmt, i))
      && (!StarAt(fmt, i) ==> width.value == C99.Width(fmt, i) && precision.value == C99.Precision(fmt, i))
  {
    var a := C99.FlagsEnd(fmt, i);
    var b := ScanWidth(fmt, a).next;
    FieldRead(fmt, a);
    PrecisionRead(fmt, b);
    C99InOrder(fmt, i);
    hide *;
    if At(fmt, a) == '*' {
      assert b == a && At(fmt, b) == '*';
    } else if At(fmt, b) == '.' {
      assert StarAt(fmt, i) <==> At(fmt, b + 1) == '*';
    } else {
      assert !StarAt(fmt, i);
    }
  }

  /** Without a `*`, all fields up to the length modifier are C99's. */
  lemma {:induction false} FieldsRead(fmt: string, i: nat)
    requires i < |fmt|
    ensures ScanDirective(fmt, i).0.star <==> StarAt(fmt, i)
    ensures StarAt(fmt, i) ==> ScanDirective(fmt, i).1 < C99.FieldsEnd(fmt, i)
    ensures !StarAt(fmt, i) ==>
      var (d, conv) := ScanDirective(fmt, i);
      var f, e := C99.FlagsOf(fmt, i), C99.FieldsEnd(fmt, i);
      && d.flags == Flags(f.zero, false, f.plus, f.space, f.minus, f.hash, false)
      && d.width == C99.Width(fmt, i) && d.precision == C99.Precision(fmt, i)
      && d.qualifier == (if IsQualifier(At(fmt, e)) then Some(fmt[e]) else None)
      && conv == (if IsQualifier(At(fmt, e)) then e + 1 else e)
  {
    FieldsInOrder(fmt, i);
    NumbersRead(fmt, i);
    NoQualifier();
    hide *;
  }

  /**
   * At every place of every format: the conversion character is C99's exactly when the directive has no such `*` and no
   * length modifier the code does not know; and then everything read before it is C99's too.
   */
  lemma {:induction false} ConversionIsC99(fmt: string, i: nat)
    requires i < |fmt|
    ensures ScanDirective(fmt, i).0.star <==> StarAt(fmt, i)
    ensures ScanDirective(fmt, i).1 == C99.ConversionPlace(fmt, i) <==>
      !StarAt(fmt, i) && !UnknownModifierAt(fmt, C99.FieldsEnd(fmt, i))
    ensures !StarAt(fmt, i) && !UnknownModifierAt(fmt, C99.FieldsEnd(fmt, i)) ==>
      var d, f := ScanDirective(fmt, i).0, C99.FlagsOf(fmt, i);
      && d.flags == Flags(f.zero, false, f.plus, f.space, f.minus, f.hash, false)
      && d.width == C99.Width(fmt, i) && d.precision == C99.Precision(fmt, i)
      && C99.Modifier(fmt, i) == if d.qualifier.Some? then [d.qualifier.value] else ""
  {
    FieldsRead(fmt, i);
    KnownModifier(fmt, C99.FieldsEnd(fmt, i));
    PlaceAndModifier(fmt, i);
    hide *;
  }

  lemma PlaceAndModifier(fmt: string, i: nat)
    requires i < |fmt|
    ensures var e := C99.FieldsEnd(fmt, i);
      var n := C99.ModifierLength(fmt, e);
      C99.ConversionPlace(fmt, i) == e + n && C99.Modifier(fmt, i) == fmt[e..e + n]
  {
    hide C99.FieldsEnd, C99.ModifierLength;
  }

  lemma KnownModifier(fmt: string, e: nat)
    requires e <= |fmt|
    ensures var n := C99.ModifierLength(fmt, e);
      && (!UnknownModifierAt(fmt, e) <==> n == if IsQualifier(At(fmt, e)) then 1 else 0)
      && (!UnknownModifierAt(fmt, e) ==> fmt[e..e + n] == if IsQualifier(At(fmt, e)) then [fmt[e]] else "")
  {
  }

  /** Outside a directive, characters print themselves. */
  lemma PlainCharacter(fmt: string, i: nat)
    requires i < |fmt| && fmt[i] != '%'
    ensures Parse(fmt, i) == [Literal(fmt[i])] + Parse(fmt, i + 1)
    ensures !TakesArg(Literal(fmt[i])) && RenderItem(Literal(fmt[i]), None) == [fmt[i]]
  {
  }

  /** The conversions that print an `int` argument. */
  predicate PrintsWord(conv: char) {
    conv in "dioxXupc"
  }

  /**
   * What a conversion character asks for, and what is printed for one that no argument belongs to: a percent sign for
   * `%` and for a format that is cut off, the character behind a percent sign for any other. `n` prints nothing.
   */
  lemma ItemAsksFor(d: Item, arg: Arg)
    requires d.Directive? && !d.star
    ensures TakesArg(d) <==> PrintsWord(d.conv) || d.conv == 's' || d.conv == 'n'
    ensures PrintsWord(d.conv) ==> (KindFits(d, arg) <==> arg.Number?)
    ensures d.conv == 's' ==> (KindFits(d, arg) <==> arg.Chars? && IsCString(arg.s) && |arg.s| <= INT_MAX)
    ensures d.conv == 'n' ==> (KindFits(d, arg) <==> arg.Counter?)
    ensures d.conv == 'n' && arg.Counter? ==> RenderItem(d, Some(arg)) == ""
    ensures !TakesArg(d) ==> RenderItem(d, None) == if d.conv == '%' || d.conv == '\0' then "%" else ['%', d.conv]
  {
    hide NumberText;
  }

  /** Where a directive is read as C99 reads it, it is the item for C99's conversion character, and the text goes on. */
  lemma {:induction false} ParsedDirective(fmt: string, i: nat)
    requires i < |fmt| && fmt[i] == '%' && !StarAt(fmt, i) && !UnknownModifierAt(fmt, C99.FieldsEnd(fmt, i))
    ensures var d, at := ScanDirective(fmt, i).0, C99.ConversionPlace(fmt, i);
      && d.Directive? && !d.star && d.conv == At(fmt, at)
      && Parse(fmt, i) == [d] + if at == |fmt| then [] else Parse(fmt, at + 1)
  {
    ConversionIsC99(fmt, i);
    hide ScanDirective, StarAt, UnknownModifierAt, C99.FlagsOf, C99.FieldsEnd, C99.Width, C99.Precision,
      C99.ConversionPlace, C99.Modifier;
  }

  lemma CountsTwo(old_value: int)
    ensures WellTyped(Parse("ab%n", 0), [Counter(0)], 1)
    ensures Count(Parse("ab%n", 0), [Counter(0)], 0, [old_value]) == [2]
  {
  }

  /** A directive with a `*` prints `%*`, whatever its argument, and the format goes on behind the `*`. */
  lemma {:induction false} StarPrintsItself(fmt: string, i: nat, w: Word)
    requires i < |fmt| && fmt[i] == '%' && StarAt(fmt, i)
    ensures var (d, at) := ScanDirective(fmt, i);
      && d.star && TakesArg(d) && RenderItem(d, Some(Number(w))) == "%*"
      && at < |fmt| && fmt[at] == '*' && Parse(fmt, i) == [d] + Parse(fmt, at + 1)
  {
    hide ScanDirective, StarAt;
    ConversionIsC99(fmt, i);
    StarIsConversion(fmt, i);
  }

  lemma ParseFromPercent(fmt: string, i: nat)
    requires i < |fmt| && fmt[i] == '%'
    ensures var (d, at) := ScanDirective(fmt, i);
      && (at < |fmt| ==> Parse(fmt, i) == [d] + Parse(fmt, at + 1))
      && (at == |fmt| ==> Parse(fmt, i) == [d]) && d.conv == At(fmt, at)
  {
    hide ScanDirective;
    assert Parse(fmt, |fmt|) == [];
  }

  lemma UnknownPrints(d: Item, letter: char)
    requires d.Directive? && !d.star && d.conv == letter
    requires letter == 'h' || letter == 'l' || letter == 'j' || letter == 'z' || letter == 't'
    ensures !TakesArg(d) && RenderItem(d, None) == ['%', letter]
  {
    hide NumberText;
  }

  /**
   * A directive with an unknown modifier takes no argument and prints the modifier's last letter behind the percent
   * sign; the format goes on behind that letter, where C99 has the conversion character.
   */
  lemma {:induction false} UnknownModifierPrintsItself(fmt: string, i: nat)
    requires i < |fmt| && fmt[i] == '%' && !StarAt(fmt, i) && UnknownModifierAt(fmt, C99.FieldsEnd(fmt, i))
    ensures var (d, at) := ScanDirective(fmt, i);
      && at + 1 == C99.ConversionPlace(fmt, i) <= |fmt| && !TakesArg(d) && RenderItem(d, None) == ['%', fmt[at]]
      && Parse(fmt, i) == [d] + Parse(fmt, at + 1)
  {
    FieldsRead(fmt, i);
    PlaceAndModifier(fmt, i);
    LastLetter(fmt, C99.FieldsEnd(fmt, i));
    ParseFromPercent(fmt, i);
    hide *;
    var (d, at) := ScanDirective(fmt, i);
    UnknownPrints(d, fmt[at]);
  }

  lemma LastLetter(fmt: string, e: nat)
    requires e <= |fmt| && UnknownModifierAt(fmt, e)
    ensures var at := if IsQualifier(At(fmt, e)) then e + 1 else e;
      && at + 1 == e + C99.ModifierLength(fmt, e) <= |fmt|
      && (fmt[at] == 'h' || fmt[at] == 'l' || fmt[at] == 'j' || fmt[at] == 'z' || fmt[at] == 't')
  {
  }

  lemma LongLongDecimal(w: Word)
    ensures WellTyped(Parse("%lld", 0), [Number(w)], 0)
    ensures Render(Parse("%lld", 0), [Number(w)], 0) == "%ld"
  {
    var d := Directive(NO_FLAGS, -1, -1, false, Some('l'), 'l');
    assert ScanDirective("%lld", 0) == (d, 2);
    assert Parse("%lld", 4) == [];
    assert Parse("%lld", 3) == [Literal('d')];
    assert Parse("%lld", 0) == [d] + Parse("%lld", 3);
    assert [d, Literal('d')][1..] == [Literal('d')];
    assert [Literal('d')][1..] == [];
    assert Render([Literal('d')], [Number(w)], 0) == "d";
    assert Render([d, Literal('d')], [Number(w)], 0) == "%l" + "d";
  }

  lemma StarredDecimal(w: Word)
    ensures WellTyped(Parse("%*d", 0), [Number(w)], 0)
    ensures Render(Parse("%*d", 0), [Number(w)], 0) == "%*d"
  {
    var d := Directive(NO_FLAGS, -1, -1, true, None, '*');
    assert ScanDirective("%*d", 0) == (d, 1);
    assert Parse("%*d", 3) == [];
    assert Parse("%*d", 2) == [Literal('d')];
    assert Parse("%*d", 0) == [d] + Parse("%*d", 2);
    assert [d, Literal('d')][1..] == [Literal('d')];
    assert [Literal('d')][1..] == [];
    assert Render([Literal('d')], [], 0) == "d";
    assert [Number(w)][1..] == [];
    assert Render([d, Literal('d')], [Number(w)], 0) == "%*" + "d";
  }

  lemma FirstFits(items: seq<Item>, args: seq<Arg>, cells: nat)
    requires items != [] && WellTyped(items, args, cells)
    ensures TakesArg(items[0]) ==> args != [] && ArgFits(items[0], args[0], cells)
    ensures IsCounter(items[0]) ==> TakesArg(items[0]) && args[0].Counter? && args[0].cell < cells
  {
  }

  lemma StarTakesAnyWord(item: Item, arg: Arg, w: Word, cells: nat)
    requires TakesArg(item) && item.star && ArgFits(item, arg, cells)
    ensures ArgFits(item, Number(w), cells) && RenderItem(item, Some(Number(w))) == RenderItem(item, Some(arg))
    ensures !IsCounter(item)
  {
  }

  lemma Unfolded(items: seq<Item>, args: seq<Arg>, printed: nat, cells: seq<int>)
    requires items != [] && (TakesArg(items[0]) ==> args != [] && ArgFits(items[0], args[0], |cells|))
    ensures WellTyped(items, args, |cells|) <==> WellTyped(items[1..], ArgsAfter(items[0], args), |cells|)
    ensures WellTyped(items, args, |cells|) ==>
      var text := RenderItem(items[0], FirstArg(items[0], args));
      var stored := if IsCounter(items[0]) then cells[args[0].cell := printed] else cells;
      && Render(items, args, |cells|) == text + Render(items[1..], ArgsAfter(items[0], args), |cells|)
      && Count(items, args, printed, cells)
         == Count(items[1..], ArgsAfter(items[0], args), printed + |text|, stored)
  {
    hide RenderItem, ArgFits;
  }

  lemma {:induction false} FirstStarIsIgnored(
      items: seq<Item>, args: seq<Arg>, printed: nat, cells: seq<int>, w: Word)
    requires items != [] && TakesArg(items[0]) && items[0].star && WellTyped(items, args, |cells|)
    ensures var others := args[0 := Number(w)];
      && WellTyped(items, others, |cells|)
      && Render(items, others, |cells|) == Render(items, args, |cells|)
      && Count(items, others, printed, cells) == Count(items, args, printed, cells)
  {
    var others := args[0 := Number(w)];
    StarTakesAnyWord(items[0], args[0], w, |cells|);
    assert others[1..] == args[1..];
    hide RenderItem, ArgFits, TakesArg, WellTyped, Render, Count, IsCounter;
    Unfolded(items, args, printed, cells);
    Unfolded(items, others, printed, cells);
  }

  lemma ReplacedLater(items: seq<Item>, args: seq<Arg>, k: nat, w: Word)
    requires 0 < k <= |items| && ArgPlace(items, k) < |args|
    ensures var others := args[ArgPlace(items, k) := Number(w)];
      && (TakesArg(items[0]) ==> others[0] == args[0])
      && FirstArg(items[0], others) == FirstArg(items[0], args)
      && ArgPlace(items[1..], k - 1) < |ArgsAfter(items[0], args)|
      && ArgsAfter(items[0], others) == ArgsAfter(items[0], args)[ArgPlace(items[1..], k - 1) := Number(w)]
  {
    hide TakesArg;
  }

  /** The word given to a `*` changes nothing: not the text, and not what any `%n` stores. */
  lemma {:induction false} StarWordIsIgnored(
      items: seq<Item>, args: seq<Arg>, printed: nat, cells: seq<int>, k: nat, w: Word)
    requires k < |items| && TakesArg(items[k]) && items[k].star && WellTyped(items, args, |cells|)
    ensures ArgPlace(items, k) < |args|
    ensures var others := args[ArgPlace(items, k) := Number(w)];
      && WellTyped(items, others, |cells|)
      && Render(items, others, |cells|) == Render(items, args, |cells|)
      && Count(items, others, printed, cells) == Count(items, args, printed, cells)
    decreases k
  {
    hide RenderItem, ArgFits, TakesArg, WellTyped, Render, Count, ArgOf, IsCounter;
    ArgIsAtPlace(items, args, |cells|, k);
    if k == 0 {
      FirstStarIsIgnored(items, args, printed, cells, w);
    } else {
      FirstFits(items, args, |cells|);
      ReplacedLater(items, args, k, w);
      hide ArgPlace, ArgsAfter, FirstArg;
      var others := args[ArgPlace(items, k) := Number(w)];
      var text := RenderItem(items[0], FirstArg(items[0], args));
      var stored := if IsCounter(items[0]) then cells[args[0].cell := printed] else cells;
      Unfolded(items, args, printed, cells);
      StarWordIsIgnored(items[1..], ArgsAfter(items[0], args), printed + |text|, stored, k - 1, w);
      Unfolded(items, others, printed, cells);
    }
  }
}
