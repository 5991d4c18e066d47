/** Whole formats: where `vsprintf` prints what C99's `vsprintf` prints. */
module FormatIso {
  import opened Word32
  import opened Text
  import opened Numbers
  import opened Format
  import opened Stars
  import opened NumberIso
  import C99
  import opened Wrappers

  /** An integer that `h` leaves as it is and `number` does not depart on. */
  predicate IntegerAlike(fmt: string, i: nat, w: Word)
    requires i < |fmt| && C99.IsInteger(At(fmt, C99.ConversionPlace(fmt, i)))
  {
    var conv := At(fmt, C99.ConversionPlace(fmt, i));
    && w == C99.Narrowed(w, C99.Modifier(fmt, i), C99.IsSigned(conv))
    && !Departs(w, C99.Base(conv), C99.Width(fmt, i), C99.Precision(fmt, i), Recorded(C99.FlagsOf(fmt, i), conv))
  }

  /** The directive at `i` with its argument, one that C99 defines and the code prints alike. */
  predicate DirectiveAlike(fmt: string, i: nat, arg: Arg)
    requires i < |fmt|
  {
    var conv := At(fmt, C99.ConversionPlace(fmt, i));
    && ReadAlike(fmt, i)
    && (C99.IsInteger(conv) || conv == 'c' || conv == 's')
    && (C99.IsInteger(conv) ==> arg.Number? && IntegerAlike(fmt, i, arg.w))
    && (conv == 'c' ==> arg.Number? && C99.Modifier(fmt, i) == "")
    && (conv == 's' ==> arg.Chars? && IsCString(arg.s) && |arg.s| <= INT_MAX && C99.Modifier(fmt, i) == "")
  }

  /** What C99 prints for such a directive. */
  function DirectiveOutput(fmt: string, i: nat, arg: Arg): string
    requires i < |fmt| && DirectiveAlike(fmt, i, arg)
  {
    var conv := At(fmt, C99.ConversionPlace(fmt, i));
    if C99.IsInteger(conv) then C99.IntegerDirective(fmt, i, arg.w)
    else if conv == 'c' then C99.CharDirective(fmt, i, arg.w)
    else C99.StringDirective(fmt, i, arg.s)
  }

  /** From `i` on the format has plain characters, `%%`, and such directives, each with its argument. */
  predicate Alike(fmt: string, i: nat, args: seq<Arg>)
    requires i <= |fmt|
    decreases |fmt| - i
  {
    if i == |fmt| then true
    else if fmt[i] != '%' then Alike(fmt, i + 1, args)
    else if At(fmt, i + 1) == '%' then Alike(fmt, i + 2, args)
    else
      var at := C99.ConversionPlace(fmt, i);
      at < |fmt| && args != [] && DirectiveAlike(fmt, i, args[0]) && Alike(fmt, at + 1, args[1..])
  }

  /** What C99 prints for it. */
  function Output(fmt: string, i: nat, args: seq<Arg>): string
    requires i <= |fmt| && Alike(fmt, i, args)
    decreases |fmt| - i
  {
    if i == |fmt| then ""
    else if fmt[i] != '%' then [fmt[i]] + Output(fmt, i + 1, args)
    else if At(fmt, i + 1) == '%' then "%" + Output(fmt, i + 2, args)
    else DirectiveOutput(fmt, i, args[0]) + Output(fmt, C99.ConversionPlace(fmt, i) + 1, args[1..])
  }

  lemma {:induction false} DirectivePrinted(fmt: string, i: nat, arg: Arg)
    requires i < |fmt| && DirectiveAlike(fmt, i, arg)
    ensures var d := ScanDirective(fmt, i).0;
      && TakesArg(d) && KindFits(d, arg) && !arg.Counter?
      && RenderItem(d, Some(arg)) == DirectiveOutput(fmt, i, arg)
  {
    hide ReadAlike, ScanDirective, TakesArg, KindFits, RenderItem, Departs, Recorded, C99.ConversionPlace, C99.Modifier,
      StarAt, UnknownModifierAt, C99.Width, C99.Precision, C99.FlagsOf, C99.Narrowed, C99.IntegerDirective,
      C99.CharDirective, C99.StringDirective,
      C99.IsInteger, C99.IsSigned, C99.Base;
    NotAnInteger();
    if C99.IsInteger(At(fmt, C99.ConversionPlace(fmt, i))) {
      DirectiveIsC99(fmt, i, arg.w);
    } else if At(fmt, C99.ConversionPlace(fmt, i)) == 'c' {
      CharIsC99(fmt, i, arg.w);
    } else {
      StringIsC99(fmt, i, arg.s);
    }
  }

  lemma NotAnInteger()
    ensures !C99.IsInteger('c') && !C99.IsInteger('s')
  {
  }

  /** Two percent signs are one directive, of a percent sign. */
  lemma {:induction false} PercentRead(fmt: string, i: nat)
    requires i < |fmt| && fmt[i] == '%' && At(fmt, i + 1) == '%'
    ensures var d := ScanDirective(fmt, i).0;
      Parse(fmt, i) == [d] + Parse(fmt, i + 2) && !TakesArg(d) && RenderItem(d, None) == "%"
  {
    assert ScanDirective(fmt, i) == (Directive(NO_FLAGS, -1, -1, false, None, '%'), i + 1);
  }

  /** One item in front of what is printed already. */
  lemma OneItem(item: Item, rest: seq<Item>, args: seq<Arg>, cells: nat)
    requires TakesArg(item) ==> args != [] && KindFits(item, args[0]) && !args[0].Counter?
    requires WellTyped(rest, ArgsAfter(item, args), cells)
    ensures WellTyped([item] + rest, args, cells)
    ensures Render([item] + rest, args, cells)
         == RenderItem(item, FirstArg(item, args)) + Render(rest, ArgsAfter(item, args), cells)
  {
    hide RenderItem, TakesArg, KindFits;
    assert ([item] + rest)[1..] == rest;
  }

  /**
   * Every format, from every place: if it is made of such directives and plain characters, then its arguments fit, and
   * what `vsprintf` prints for it is what C99 has it print.
   */
  lemma {:induction false} FormatIsC99(fmt: string, i: nat, args: seq<Arg>, cells: nat)
    requires i <= |fmt| && Alike(fmt, i, args)
    ensures WellTyped(Parse(fmt, i), args, cells)
    ensures Render(Parse(fmt, i), args, cells) == Output(fmt, i, args)
    decreases |fmt| - i
  {
    hide DirectiveAlike, DirectiveOutput, ScanDirective, RenderItem, TakesArg, C99.ConversionPlace;
    if i == |fmt| {
    } else if fmt[i] != '%' {
      FormatIsC99(fmt, i + 1, args, cells);
      hide Parse, Render, WellTyped;
      AfterCharacter(fmt, i, args, cells);
    } else if At(fmt, i + 1) == '%' {
      FormatIsC99(fmt, i + 2, args, cells);
      hide Parse, Render, WellTyped;
      AfterPercent(fmt, i, args, cells);
    } else {
      FormatIsC99(fmt, C99.ConversionPlace(fmt, i) + 1, args[1..], cells);
      hide Parse, Render, WellTyped;
      AfterDirective(fmt, i, args, cells);
    }
  }

  lemma {:induction false} AfterCharacter(fmt: string, i: nat, args: seq<Arg>, cells: nat)
    requires i < |fmt| && fmt[i] != '%' && WellTyped(Parse(fmt, i + 1), args, cells)
    ensures WellTyped(Parse(fmt, i), args, cells)
    ensures Render(Parse(fmt, i), args, cells) == [fmt[i]] + Render(Parse(fmt, i + 1), args, cells)
  {
    PlainCharacter(fmt, i);
    NothingTaken(Literal(fmt[i]), args);
    hide *;
    OneItem(Literal(fmt[i]), Parse(fmt, i + 1), args, cells);
  }

  lemma {:induction false} AfterPercent(fmt: string, i: nat, args: seq<Arg>, cells: nat)
    requires i + 1 < |fmt| && fmt[i] == '%' && At(fmt, i + 1) == '%' && WellTyped(Parse(fmt, i + 2), args, cells)
    ensures WellTyped(Parse(fmt, i), args, cells)
    ensures Render(Parse(fmt, i), args, cells) == "%" + Render(Parse(fmt, i + 2), args, cells)
  {
    PercentRead(fmt, i);
    NothingTaken(ScanDirective(fmt, i).0, args);
    hide *;
    OneItem(ScanDirective(fmt, i).0, Parse(fmt, i + 2), args, cells);
  }

  lemma {:induction false} AfterDirective(fmt: string, i: nat, args: seq<Arg>, cells: nat)
    requires i < |fmt| && fmt[i] == '%' && C99.ConversionPlace(fmt, i) < |fmt|
    requires args != [] && DirectiveAlike(fmt, i, args[0])
    requires WellTyped(Parse(fmt, C99.ConversionPlace(fmt, i) + 1), args[1..], cells)
    ensures WellTyped(Parse(fmt, i), args, cells)
    ensures Render(Parse(fmt, i), args, cells)
         == DirectiveOutput(fmt, i, args[0]) + Render(Parse(fmt, C99.ConversionPlace(fmt, i) + 1), args[1..], cells)
  {
    DirectivePrinted(fmt, i, args[0]);
    AlikeIsRead(fmt, i, args[0]);
    ParsedDirective(fmt, i);
    var d := ScanDirective(fmt, i).0;
    FirstTaken(d, args);
    hide *;
    OneItem(d, Parse(fmt, C99.ConversionPlace(fmt, i) + 1), args, cells);
  }

  lemma AlikeIsRead(fmt: string, i: nat, arg: Arg)
    requires i < |fmt| && DirectiveAlike(fmt, i, arg)
    ensures !StarAt(fmt, i) && !UnknownModifierAt(fmt, C99.FieldsEnd(fmt, i))
  {
    hide IntegerAlike, StarAt, UnknownModifierAt, C99.ConversionPlace, C99.FieldsEnd, C99.Modifier;
  }

  lemma FirstTaken(d: Item, args: seq<Arg>)
    requires TakesArg(d) && args != []
    ensures FirstArg(d, args) == Some(args[0]) && ArgsAfter(d, args) == args[1..]
  {
  }

  lemma NothingTaken(d: Item, args: seq<Arg>)
    requires !TakesArg(d)
    ensures FirstArg(d, args) == None && ArgsAfter(d, args) == args
  {
  }

  lemma PlainHexFields(fmt: string)
    requires fmt == "%x"
    ensures ReadAlike(fmt, 0) && C99.ConversionPlace(fmt, 0) == 1 && C99.Modifier(fmt, 0) == ""
    ensures C99.Width(fmt, 0) == C99.Precision(fmt, 0) == -1
    ensures C99.FlagsOf(fmt, 0) == C99.Flags(false, false, false, false, false)
  {
    assert C99.SpanEnd(fmt, 1, C99.FLAG_CHARACTERS) == 1;
    assert C99.SpanEnd(fmt, 1, C99.DECIMAL_DIGITS) == 1;
    assert C99.FieldsEnd(fmt, 0) == 1;
  }

  lemma HexOf255()
    ensures C99.IntegerText(255, false, 16, false, -1, -1, C99.Flags(false, false, false, false, false)) == "ff"
  {
    assert C99.Numeral(15, 16, C99.LOWER_DIGITS) == "f";
    assert C99.Numeral(255, 16, C99.LOWER_DIGITS) == "f" + "f";
    hide C99.Numeral;
    assert C99.Digits(255, 16, false, -1) == "ff";
  }

  lemma PlainHex(fmt: string)
    requires fmt == "%x"
    ensures DirectiveAlike(fmt, 0, Number(255)) && DirectiveOutput(fmt, 0, Number(255)) == "ff"
  {
    PlainHexFields(fmt);
    HexOf255();
    PlainHexStays();
    hide C99.ConversionPlace, C99.Modifier, C99.Width, C99.Precision, C99.FlagsOf, ReadAlike, C99.IntegerText, Departs,
      Recorded, C99.Narrowed;
  }

  /** `%x` of 255. */
  lemma {:induction false} TwoLowerCaseDigits(cells: nat)
    ensures WellTyped(Parse("%x", 0), [Number(255)], cells)
    ensures Render(Parse("%x", 0), [Number(255)], cells) == "ff"
  {
    var fmt, args := "%x", [Number(255)];
    PlainHex(fmt);
    PlainHexFields(fmt);
    hide C99.ConversionPlace, DirectiveAlike, DirectiveOutput, Render, WellTyped, Parse;
    assert Alike(fmt, 2, args[1..]) && Output(fmt, 2, args[1..]) == "";
    assert Alike(fmt, 0, args) && Output(fmt, 0, args) == "ff" + "";
    FormatIsC99(fmt, 0, args, cells);
  }

  lemma PlainHexStays()
    ensures !Departs(255, 16, -1, -1, Recorded(C99.Flags(false, false, false, false, false), 'x'))
    ensures C99.Narrowed(255, "", false) == 255
  {
  }
}
