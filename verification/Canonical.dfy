/** Formats written out from items, and read back as the same items. */
module Canonical {
  import opened Text
  import opened Numerals
  import opened Numbers
  import opened Format
  import opened Wrappers

  /** Characters that would be read as part of a directive when they follow one of its fields. */
  predicate IsReserved(c: char) {
    IsFlagChar(c) || IsDigit(c) || c == '.' || c == '*' || IsQualifier(c) || c == '\0'
  }

  /** What can be written down: a zero width would be read as a flag, and a bare `%` would start a directive. */
  predicate Writable(item: Item) {
    match item
    case Literal(c) => c != '%' && c != '\0'
    case Directive(flags, width, precision, star, qualifier, conv) =>
      && !flags.sign && !flags.small && !star
      && (width == -1 || 1 <= width) && -1 <= precision
      && (qualifier.Some? ==> IsQualifier(qualifier.value))
      && !IsReserved(conv)
  }

  /** A flag character, printed when the flag is set. */
  datatype Mark = Mark(on: bool, c: char)

  function Marks(flags: Flags): seq<Mark> {
    [Mark(flags.left, '-'), Mark(flags.plus, '+'), Mark(flags.space, ' '), Mark(flags.special, '#'),
     Mark(flags.zeropad, '0')]
  }

  function MarksText(marks: seq<Mark>): string {
    if marks == [] then ""
    else (if marks[0].on then [marks[0].c] else "") + MarksText(marks[1..])
  }

  function FlagsText(flags: Flags): string {
    MarksText(Marks(flags))
  }

  function WidthText(width: int): string {
    if width < 0 then "" else Numeral(width, 10, false)
  }

  function PrecisionText(precision: int): string {
    if precision < 0 then "" else "." + Numeral(precision, 10, false)
  }

  function QualifierText(qualifier: Option<char>): string {
    if qualifier.Some? then [qualifier.value] else ""
  }

  function Write(item: Item): string {
    match item
    case Literal(c) => [c]
    case Directive(flags, width, precision, star, qualifier, conv) =>
      "%" + (FlagsText(flags) + (WidthText(width) + (PrecisionText(precision) + (QualifierText(qualifier) + [conv]))))
  }

  function WriteAll(items: seq<Item>): string {
    if items == [] then "" else Write(items[0]) + WriteAll(items[1..])
  }

  /** `part` stands at place `i` of the text. */
  ghost predicate Holds(fmt: string, i: nat, part: string) {
    i + |part| <= |fmt| && forall k :: 0 <= k < |part| ==> fmt[i + k] == part[k]
  }

  lemma HoldsSplit(fmt: string, i: nat, a: string, b: string)
    requires Holds(fmt, i, a + b)
    ensures Holds(fmt, i, a) && Holds(fmt, i + |a|, b)
  {
    forall k | 0 <= k < |b| ensures fmt[i + |a| + k] == b[k] {
      assert (a + b)[|a| + k] == b[k];
    }
    assert forall k :: 0 <= k < |a| ==> (a + b)[k] == a[k];
  }

  lemma HoldsAt(fmt: string, i: nat, part: string, k: nat)
    requires Holds(fmt, i, part) && k < |part|
    ensures fmt[i + k] == part[k]
  {
  }

  function SetMarks(flags: Flags, marks: seq<Mark>): Flags
    decreases |marks|
  {
    if marks == [] then flags
    else SetMarks(if marks[0].on then SetFlag(flags, marks[0].c) else flags, marks[1..])
  }

  lemma {:induction false} ScanMarks(fmt: string, i: nat, flags: Flags, marks: seq<Mark>)
    requires Holds(fmt, i, MarksText(marks))
    requires forall k :: 0 <= k < |marks| ==> IsFlagChar(marks[k].c)
    requires !IsFlagChar(At(fmt, i + |MarksText(marks)|))
    ensures ScanFlags(fmt, i, flags) == (SetMarks(flags, marks), i + |MarksText(marks)|)
    decreases |marks|
  {
    if marks != [] {
      if marks[0].on {
        HoldsSplit(fmt, i, [marks[0].c], MarksText(marks[1..]));
        HoldsAt(fmt, i, [marks[0].c], 0);
        ScanMarks(fmt, i + 1, SetFlag(flags, marks[0].c), marks[1..]);
      } else {
        assert "" + MarksText(marks[1..]) == MarksText(marks[1..]);
        ScanMarks(fmt, i, flags, marks[1..]);
      }
    }
  }

  lemma SetAllMarks(flags: Flags)
    requires !flags.sign && !flags.small
    ensures SetMarks(NO_FLAGS, Marks(flags)) == flags
  {
    var m := Marks(flags);
    var f1 := NO_FLAGS.(left := flags.left);
    var f2 := f1.(plus := flags.plus);
    var f3 := f2.(space := flags.space);
    var f4 := f3.(special := flags.special);
    assert m[4..][1..] == [];
    assert SetMarks(f4, m[4..]) == flags;
    assert m[3..][1..] == m[4..];
    assert SetMarks(f3, m[3..]) == SetMarks(f4, m[4..]);
    assert m[2..][1..] == m[3..];
    assert SetMarks(f2, m[2..]) == SetMarks(f3, m[3..]);
    assert m[1..][1..] == m[2..];
    assert SetMarks(f1, m[1..]) == SetMarks(f2, m[2..]);
  }

  lemma ScanFlagsText(fmt: string, i: nat, flags: Flags)
    requires Holds(fmt, i, FlagsText(flags)) && !flags.sign && !flags.small
    requires !IsFlagChar(At(fmt, i + |FlagsText(flags)|))
    ensures ScanFlags(fmt, i, NO_FLAGS) == (flags, i + |FlagsText(flags)|)
  {
    ScanMarks(fmt, i, NO_FLAGS, Marks(flags));
    SetAllMarks(flags);
  }

  lemma {:induction false} NumeralIsDecimal(n: nat)
    ensures IsDecimal(Numeral(n, 10, false))
  {
    if n >= 10 {
      Quotient(n, 10);
      NumeralIsDecimal(n / 10);
    }
  }

  lemma {:induction false} DecimalEndsAt(fmt: string, i: nat, n: nat)
    requires i <= n <= |fmt|
    requires forall k :: i <= k < n ==> IsDigit(fmt[k])
    requires !IsDigit(At(fmt, n))
    ensures DecimalEnd(fmt, i) == n
    decreases n - i
  {
    if i < n {
      DecimalEndsAt(fmt, i + 1, n);
    }
  }

  lemma ScanNumeral(fmt: string, i: nat, n: nat)
    requires Holds(fmt, i, Numeral(n, 10, false))
    requires !IsDigit(At(fmt, i + |Numeral(n, 10, false)|))
    ensures i <= |fmt|
    ensures ScanWidth(fmt, i) == Field(n, false, i + |Numeral(n, 10, false)|)
  {
    var s := Numeral(n, 10, false);
    NumeralIsDecimal(n);
    NumeralValue(n, 10, false);
    forall k | i <= k < i + |s| ensures IsDigit(fmt[k]) {
      HoldsAt(fmt, i, s, k - i);
    }
    DecimalEndsAt(fmt, i, i + |s|);
    assert fmt[i..i + |s|] == s;
    HoldsAt(fmt, i, s, 0);
  }

  lemma ScanWidthText(fmt: string, i: nat, width: int)
    requires Holds(fmt, i, WidthText(width)) && -1 <= width
    requires !IsDigit(At(fmt, i + |WidthText(width)|)) && At(fmt, i + |WidthText(width)|) != '*'
    ensures i <= |fmt|
    ensures ScanWidth(fmt, i) == Field(width, false, i + |WidthText(width)|)
  {
    if width >= 0 {
      ScanNumeral(fmt, i, width);
    }
  }

  lemma ScanPrecisionText(fmt: string, i: nat, precision: int)
    requires Holds(fmt, i, PrecisionText(precision)) && -1 <= precision
    requires var c := At(fmt, i + |PrecisionText(precision)|); !IsDigit(c) && c != '*' && c != '.'
    ensures i <= |fmt|
    ensures ScanPrecision(fmt, i) == Field(precision, false, i + |PrecisionText(precision)|)
  {
    if precision >= 0 {
      HoldsSplit(fmt, i, ".", Numeral(precision, 10, false));
      HoldsAt(fmt, i, ".", 0);
      ScanNumeral(fmt, i + 1, precision);
    }
  }

  lemma WidthHead(fmt: string, i: nat, width: int)
    requires Holds(fmt, i, WidthText(width)) && 1 <= width
    ensures i < |fmt| && IsDigit(fmt[i]) && fmt[i] != '0'
  {
    HoldsAt(fmt, i, WidthText(width), 0);
    NumeralIsDecimal(width);
    NumeralHead(width, 10, false);
  }

  lemma PrecisionHead(fmt: string, i: nat, precision: int)
    requires Holds(fmt, i, PrecisionText(precision)) && 0 <= precision
    ensures i < |fmt| && fmt[i] == '.'
  {
    HoldsAt(fmt, i, PrecisionText(precision), 0);
  }

  /** The places of a directive's fields in a format: flags, width, precision, qualifier, conversion. */
  datatype Places = Places(flags: nat, width: nat, precision: nat, qualifier: nat, conv: nat)

  ghost predicate LaidOut(fmt: string, d: Item, at: Places)
    requires d.Directive?
  {
    && at.conv < |fmt|
    && Holds(fmt, at.flags, FlagsText(d.flags)) && at.width == at.flags + |FlagsText(d.flags)|
    && Holds(fmt, at.width, WidthText(d.width)) && at.precision == at.width + |WidthText(d.width)|
    && Holds(fmt, at.precision, PrecisionText(d.precision))
    && at.qualifier == at.precision + |PrecisionText(d.precision)|
    && at.conv == at.qualifier + (if d.qualifier.Some? then 1 else 0)
    && (d.qualifier.Some? ==> fmt[at.qualifier] == d.qualifier.value)
    && fmt[at.conv] == d.conv
  }

  lemma QualifierHead(fmt: string, d: Item, at: Places)
    requires d.Directive? && Writable(d) && LaidOut(fmt, d, at)
    ensures var c := At(fmt, at.qualifier);
      !IsFlagChar(c) && !IsDigit(c) && c != '*' && c != '.' && (IsQualifier(c) <==> d.qualifier.Some?)
  {
  }

  lemma PrecisionNext(fmt: string, d: Item, at: Places)
    requires d.Directive? && Writable(d) && LaidOut(fmt, d, at)
    ensures ScanPrecision(fmt, at.precision) == Field(d.precision, false, at.qualifier)
    ensures var c := At(fmt, at.precision); !IsFlagChar(c) && !IsDigit(c) && c != '*'
  {
    QualifierHead(fmt, d, at);
    ScanPrecisionText(fmt, at.precision, d.precision);
    if d.precision >= 0 {
      PrecisionHead(fmt, at.precision, d.precision);
    }
  }

  lemma WidthNext(fmt: string, d: Item, at: Places)
    requires d.Directive? && Writable(d) && LaidOut(fmt, d, at)
    ensures ScanWidth(fmt, at.width) == Field(d.width, false, at.precision)
    ensures !IsFlagChar(At(fmt, at.width))
  {
    PrecisionNext(fmt, d, at);
    ScanWidthText(fmt, at.width, d.width);
    if d.width >= 1 {
      WidthHead(fmt, at.width, d.width);
    }
  }

  lemma FlagsNext(fmt: string, d: Item, at: Places)
    requires d.Directive? && Writable(d) && LaidOut(fmt, d, at)
    ensures ScanFlags(fmt, at.flags, NO_FLAGS) == (d.flags, at.width)
  {
    WidthNext(fmt, d, at);
    hide ScanFlags, ScanWidth, Holds;
    ScanFlagsText(fmt, at.flags, d.flags);
  }

  lemma ConversionNext(fmt: string, d: Item, at: Places)
    requires d.Directive? && Writable(d) && LaidOut(fmt, d, at)
    ensures at.qualifier <= |fmt| && IsQualifier(At(fmt, at.qualifier)) == d.qualifier.Some?
    ensures d.qualifier.Some? ==> at.conv == at.qualifier + 1 && fmt[at.qualifier] == d.qualifier.value
    ensures d.qualifier.None? ==> at.conv == at.qualifier
    ensures at.conv < |fmt| && At(fmt, at.conv) == d.conv && !d.star
  {
    QualifierHead(fmt, d, at);
    hide Holds, IsQualifier;
  }

  /** Each stage of the scan stops where the next field starts. */
  lemma ScanLaidOut(fmt: string, i: nat, d: Item, at: Places)
    requires i < |fmt| && d.Directive? && Writable(d) && LaidOut(fmt, d, at) && at.flags == i + 1
    ensures ScanDirective(fmt, i) == (d, at.conv)
  {
    hide LaidOut, Writable, ScanFlags, ScanWidth, ScanPrecision, IsQualifier;
    FlagsNext(fmt, d, at);
    WidthNext(fmt, d, at);
    PrecisionNext(fmt, d, at);
    ConversionNext(fmt, d, at);
  }

  lemma HoldsInTurn(fmt: string, i: nat, a: string, b: string, c: string, d: string, e: string)
    requires Holds(fmt, i, a + (b + (c + (d + e))))
    ensures Holds(fmt, i, a) && Holds(fmt, i + |a|, b) && Holds(fmt, i + |a| + |b|, c)
    ensures Holds(fmt, i + |a| + |b| + |c|, d) && Holds(fmt, i + |a| + |b| + |c| + |d|, e)
  {
    HoldsSplit(fmt, i, a, b + (c + (d + e)));
    HoldsSplit(fmt, i + |a|, b, c + (d + e));
    HoldsSplit(fmt, i + |a| + |b|, c, d + e);
    HoldsSplit(fmt, i + |a| + |b| + |c|, d, e);
  }

  /** A directive written into a format is read back as itself, up to its conversion character. */
  lemma ScanWritten(fmt: string, i: nat, d: Item)
    requires d.Directive? && Writable(d) && Holds(fmt, i, Write(d))
    ensures i + 1 < i + |Write(d)| <= |fmt| && fmt[i] == '%'
    ensures ScanDirective(fmt, i) == (d, i + |Write(d)| - 1)
  {
    var at := PlacesOf(fmt, i, d);
    ScanLaidOut(fmt, i, d, at);
  }

  lemma PlacesOf(fmt: string, i: nat, d: Item) returns (at: Places)
    requires d.Directive? && Holds(fmt, i, Write(d))
    ensures i < |fmt| && fmt[i] == '%'
    ensures LaidOut(fmt, d, at) && at.flags == i + 1 && at.conv == i + |Write(d)| - 1
  {
    var f, w, p, q := FlagsText(d.flags), WidthText(d.width), PrecisionText(d.precision), QualifierText(d.qualifier);
    HoldsSplit(fmt, i, "%", f + (w + (p + (q + [d.conv]))));
    HoldsAt(fmt, i, "%", 0);
    HoldsInTurn(fmt, i + 1, f, w, p, q, [d.conv]);
    var a := i + 1 + |f|;
    var b := a + |w|;
    var c := b + |p|;
    HoldsAt(fmt, c + |q|, [d.conv], 0);
    if d.qualifier.Some? {
      HoldsAt(fmt, c, q, 0);
    }
    at := Places(i + 1, a, b, c, c + |q|);
  }

  lemma ParseFirst(fmt: string, i: nat)
    requires i < |fmt|
    ensures fmt[i] != '%' ==> Parse(fmt, i) == [Literal(fmt[i])] + Parse(fmt, i + 1)
    ensures fmt[i] == '%' ==>
      var (d, conv) := ScanDirective(fmt, i);
      Parse(fmt, i) == [d] + Parse(fmt, ItemEnd(fmt, conv))
  {
    hide ScanDirective;
  }

  lemma ParseLiteral(fmt: string, i: nat, c: char)
    requires c != '%' && Holds(fmt, i, [c])
    ensures i + 1 <= |fmt| && Parse(fmt, i) == [Literal(c)] + Parse(fmt, i + 1)
  {
    HoldsAt(fmt, i, [c], 0);
    ParseFirst(fmt, i);
    hide Parse, Holds;
  }

  lemma ParseDirective(fmt: string, i: nat, d: Item)
    requires d.Directive? && Writable(d) && Holds(fmt, i, Write(d))
    ensures i + |Write(d)| <= |fmt| && Parse(fmt, i) == [d] + Parse(fmt, i + |Write(d)|)
  {
    ScanWritten(fmt, i, d);
    ParseFirst(fmt, i);
    hide Parse, Holds, ScanDirective, Write, Writable;
  }

  lemma ParseOne(fmt: string, i: nat, item: Item)
    requires Writable(item) && Holds(fmt, i, Write(item))
    ensures i + |Write(item)| <= |fmt| && Parse(fmt, i) == [item] + Parse(fmt, i + |Write(item)|)
  {
    hide Parse, Holds;
    if item.Literal? {
      ParseLiteral(fmt, i, item.c);
    } else {
      ParseDirective(fmt, i, item);
    }
  }

  /** Parsing inverts writing, for every list of writable items. */
  lemma {:induction false} ParseWritten(fmt: string, i: nat, items: seq<Item>)
    requires forall k :: 0 <= k < |items| ==> Writable(items[k])
    requires Holds(fmt, i, WriteAll(items)) && i + |WriteAll(items)| == |fmt|
    ensures Parse(fmt, i) == items
    decreases |items|
  {
    hide Holds, Writable, Write, ScanDirective;
    if items != [] {
      HoldsSplit(fmt, i, Write(items[0]), WriteAll(items[1..]));
      ParseOne(fmt, i, items[0]);
      ParseWritten(fmt, i + |Write(items[0])|, items[1..]);
      assert items == [items[0]] + items[1..];
    }
  }

  /** What each item prints on its own, given its own argument. */
  function Renderings(items: seq<Item>, args: seq<Arg>, cells: nat): (r: seq<string>)
    requires WellTyped(items, args, cells)
    ensures |r| == |items|
  {
    if items == [] then []
    else [RenderItem(items[0], FirstArg(items[0], args))] + Renderings(items[1..], ArgsAfter(items[0], args), cells)
  }

  function Concat(texts: seq<string>): string {
    if texts == [] then "" else texts[0] + Concat(texts[1..])
  }

  /** The format written for a list of items prints the concatenation of what the items print. */
  lemma {:induction false} WrittenFormatPrints(items: seq<Item>, args: seq<Arg>, cells: nat)
    requires forall k :: 0 <= k < |items| ==> Writable(items[k])
    requires WellTyped(items, args, cells)
    ensures Parse(WriteAll(items), 0) == items
    ensures Render(Parse(WriteAll(items), 0), args, cells) == Concat(Renderings(items, args, cells))
  {
    ParseWritten(WriteAll(items), 0, items);
    RenderConcat(items, args, cells);
  }

  lemma {:induction false} RenderConcat(items: seq<Item>, args: seq<Arg>, cells: nat)
    requires WellTyped(items, args, cells)
    ensures Render(items, args, cells) == Concat(Renderings(items, args, cells))
    decreases |items|
  {
    if items != [] {
      RenderConcat(items[1..], ArgsAfter(items[0], args), cells);
      assert Renderings(items, args, cells)[1..] == Renderings(items[1..], ArgsAfter(items[0], args), cells);
    }
  }

  // ---- what has been parsed can be written ----

  /** A run of digits that does not start with a zero is not zero. */
  lemma {:induction false} LeadingDigit(s: string)
    requires s != "" && AllDigits(s, 10) && s[0] != '0'
    ensures 1 <= Value(s, 10)
  {
    var t := s[..|s| - 1];
    if t != "" {
      LeadingDigit(t);
    } else {
      assert s == [s[0]];
    }
  }

  lemma ParsedWidth(fmt: string, a: nat)
    requires a <= |fmt| && !IsFlagChar(At(fmt, a))
    ensures ScanWidth(fmt, a).value == -1 || 1 <= ScanWidth(fmt, a).value
  {
    if IsDigit(At(fmt, a)) {
      LeadingDigit(fmt[a..DecimalEnd(fmt, a)]);
    }
  }

  /** Of what is parsed, no width is zero and no flag is one that only a conversion sets. */
  lemma {:induction false} ParsedFlags(fmt: string, i: nat, flags: Flags)
    requires i <= |fmt| && !flags.sign && !flags.small
    ensures var f := ScanFlags(fmt, i, flags).0;
      !f.sign && !f.small
    decreases |fmt| - i
  {
    if IsFlagChar(At(fmt, i)) {
      ParsedFlags(fmt, i + 1, SetFlag(flags, fmt[i]));
    }
  }

  /** The conversion character does not run into the fields before it. */
  predicate SetApart(conv: char) {
    conv !in "-+ #0123456789.*hlL\0"
  }

  lemma ApartIsUnreserved(conv: char)
    ensures SetApart(conv) <==> !IsReserved(conv)
  {
  }

  lemma {:induction false} DirectiveIsWritable(fmt: string, i: nat)
    requires i < |fmt|
    ensures var d := ScanDirective(fmt, i).0;
      !d.star && SetApart(d.conv) ==> Writable(d)
  {
    ParsedFlags(fmt, i + 1, NO_FLAGS);
    ParsedWidth(fmt, ScanFlags(fmt, i + 1, NO_FLAGS).1);
    ApartIsUnreserved(ScanDirective(fmt, i).0.conv);
    hide ScanFlags, ScanWidth, IsReserved, SetApart;
  }

  /** An item that stands for itself: a character, or a directive without a `*` whose conversion is set apart. */
  predicate Regular(item: Item) {
    item.Directive? ==> !item.star && SetApart(item.conv)
  }

  /** Whatever a C string is parsed into, its regular items can be written. */
  lemma {:induction false} ParsedIsWritable(fmt: string, i: nat, k: nat)
    requires IsCString(fmt) && i <= |fmt| && k < |Parse(fmt, i)| && Regular(Parse(fmt, i)[k])
    ensures Writable(Parse(fmt, i)[k])
    decreases |fmt| - i
  {
    ParseFirst(fmt, i);
    if fmt[i] == '%' {
      DirectiveIsWritable(fmt, i);
    }
    hide ScanDirective, SetApart, IsReserved, Parse;
    if k > 0 {
      ParsedIsWritable(fmt, if fmt[i] == '%' then ItemEnd(fmt, ScanDirective(fmt, i).1) else i + 1, k - 1);
    }
  }

  /** So parsing a format, writing what it says and parsing that again gives the same: a normal form of the format. */
  lemma {:induction false} NormalForm(fmt: string)
    requires IsCString(fmt) && forall k :: 0 <= k < |Parse(fmt, 0)| ==> Regular(Parse(fmt, 0)[k])
    ensures Parse(WriteAll(Parse(fmt, 0)), 0) == Parse(fmt, 0)
  {
    var items := Parse(fmt, 0);
    forall k | 0 <= k < |items| ensures Writable(items[k]) {
      ParsedIsWritable(fmt, 0, k);
    }
    hide Writable, Parse, Regular;
    ParseWritten(WriteAll(items), 0, items);
  }
}
