/** The little language of `vsprintf` format strings: what a format says, and what it says to print. */
module Format {
  import opened Word32
  import opened Text
  import opened Numerals
  import opened Numbers
  import opened Wrappers

  /**
   * `star` says that the width or the precision was written as `*`: an argument is consumed, but the cursor
   * stays on the `*`, which then becomes the conversion character. A directive cut off by the end of the format
   * has the terminator for its conversion character.
   */
  datatype Item =
    | Literal(c: char)
    | Directive(flags: Flags, width: int, precision: int, star: bool, qualifier: Option<char>, conv: char)

  /** One stage of a directive: what was read, and where the cursor is left. */
  datatype Field = Field(value: int, star: bool, next: nat)

  predicate IsFlagChar(c: char) {
    c == '-' || c == '+' || c == ' ' || c == '#' || c == '0'
  }

  function SetFlag(flags: Flags, c: char): Flags {
    match c
    case '-' => flags.(left := true)
    case '+' => flags.(plus := true)
    case ' ' => flags.(space := true)
    case '#' => flags.(special := true)
    case '0' => flags.(zeropad := true)
    case _ => flags
  }

  function ScanFlags(fmt: string, i: nat, flags: Flags): (r: (Flags, nat))
    requires i <= |fmt|
    ensures i <= r.1 <= |fmt| && !IsFlagChar(At(fmt, r.1))
    decreases |fmt| - i
  {
    if IsFlagChar(At(fmt, i)) then ScanFlags(fmt, i + 1, SetFlag(flags, fmt[i])) else (flags, i)
  }

  /** The end of the decimal digits that start at `i`. */
  function DecimalEnd(fmt: string, i: nat): (r: nat)
    requires i <= |fmt|
    ensures i <= r <= |fmt| && !IsDigit(At(fmt, r))
    ensures forall k :: i <= k < r ==> IsDigit(fmt[k])
    decreases |fmt| - i
  {
    if IsDigit(At(fmt, i)) then DecimalEnd(fmt, i + 1) else i
  }

  predicate IsDecimal(s: string) {
    forall k :: 0 <= k < |s| ==> IsDigit(s[k])
  }

  /** The decimal number at `i`. */
  function DecimalAt(fmt: string, i: nat): nat
    requires i <= |fmt|
  {
    Value(fmt[i..DecimalEnd(fmt, i)], 10)
  }

  function ScanWidth(fmt: string, i: nat): (r: Field)
    requires i <= |fmt|
    ensures i <= r.next <= |fmt| && -1 <= r.value
  {
    if IsDigit(At(fmt, i)) then Field(DecimalAt(fmt, i), false, DecimalEnd(fmt, i))
    else Field(-1, At(fmt, i) == '*', i)
  }

  function ScanPrecision(fmt: string, i: nat): (r: Field)
    requires i <= |fmt|
    ensures i <= r.next <= |fmt| && -1 <= r.value
  {
    if At(fmt, i) != '.' then Field(-1, false, i)
    else
      var f := ScanWidth(fmt, i + 1);
      if f.star then f else f.(value := Max(0, f.value))
  }

  predicate IsQualifier(c: char) {
    c == 'h' || c == 'l' || c == 'L'
  }

  /** The directive behind the `%` at `i`, and the place of its conversion character. */
  function ScanDirective(fmt: string, i: nat): (r: (Item, nat))
    requires i < |fmt|
    ensures i < r.1 <= |fmt| && r.0.Directive? && r.0.conv == At(fmt, r.1)
  {
    var (flags, a) := ScanFlags(fmt, i + 1, NO_FLAGS);
    var width := ScanWidth(fmt, a);
    var precision := ScanPrecision(fmt, width.next);
    var b := precision.next;
    var qualifier := if IsQualifier(At(fmt, b)) then Some(fmt[b]) else None;
    var c := if qualifier.Some? then b + 1 else b;
    (Directive(flags, width.value, precision.value, width.star || precision.star, qualifier, At(fmt, c)), c)
  }

  /** The cursor is left on a `*` that was read as a width or precision. */
  lemma StarIsConversion(fmt: string, i: nat)
    requires i < |fmt|
    ensures var d := ScanDirective(fmt, i).0;
      -1 <= d.width && (d.star ==> d.conv == '*')
  {
  }

  /** Where the next item starts: a directive cut off by the terminator must not step over it. */
  function ItemEnd(fmt: string, conv: nat): (r: nat)
    requires conv <= |fmt|
    ensures conv <= r <= |fmt|
  {
    if conv == |fmt| then conv else conv + 1
  }

  function Parse(fmt: string, i: nat): seq<Item>
    requires i <= |fmt|
    decreases |fmt| - i
  {
    if i == |fmt| then []
    else if fmt[i] != '%' then [Literal(fmt[i])] + Parse(fmt, i + 1)
    else
      var (d, conv) := ScanDirective(fmt, i);
      [d] + Parse(fmt, ItemEnd(fmt, conv))
  }

  /** The arguments behind the format: a word, a string, or the cell that a counter pointer points to. */
  datatype Arg = Number(w: Word) | Chars(s: string) | Counter(cell: nat)

  predicate IsNumeric(conv: char) {
    conv == 'o' || conv == 'p' || conv == 'x' || conv == 'X' || conv == 'd' || conv == 'i' || conv == 'u'
  }

  predicate TakesArg(item: Item) {
    item.Directive? && (item.star || IsNumeric(item.conv) || item.conv == 'c' || item.conv == 's' || item.conv == 'n')
  }

  predicate KindFits(item: Item, arg: Arg)
    requires TakesArg(item)
  {
    if item.star || IsNumeric(item.conv) || item.conv == 'c' then arg.Number?
    else if item.conv == 's' then arg.Chars? && IsCString(arg.s) && |arg.s| <= INT_MAX
    else arg.Counter?
  }

  predicate ArgFits(item: Item, arg: Arg, cells: nat)
    requires TakesArg(item)
  {
    KindFits(item, arg) && (arg.Counter? ==> arg.cell < cells)
  }

  /** Every directive finds an argument of its type, in order; more may follow. */
  predicate WellTyped(items: seq<Item>, args: seq<Arg>, cells: nat) {
    if items == [] then true
    else if TakesArg(items[0]) then
      args != [] && ArgFits(items[0], args[0], cells) && WellTyped(items[1..], args[1..], cells)
    else WellTyped(items[1..], args, cells)
  }

  function NumberFlags(d: Item): Flags
    requires d.Directive?
  {
    if d.conv == 'x' then d.flags.(small := true)
    else if d.conv == 'd' || d.conv == 'i' then d.flags.(sign := true)
    else if d.conv == 'p' && d.width == -1 then d.flags.(zeropad := true)
    else d.flags
  }

  function NumberWidth(d: Item): int
    requires d.Directive?
  {
    if d.conv == 'p' && d.width == -1 then 8 else d.width
  }

  function NumberBase(conv: char): int {
    if conv == 'o' then 8 else if conv == 'p' || conv == 'x' || conv == 'X' then 16 else 10
  }

  /** `text` in a field of `width` characters. */
  function Justify(text: string, width: int, left: bool): (r: string)
    ensures |r| == Max(width, |text|)
  {
    var pad := Repeat(' ', Max(0, width - |text|));
    if left then text + pad else pad + text
  }

  function Truncate(s: string, precision: int): string {
    if 0 <= precision < |s| then s[..precision] else s
  }

  /** What one item prints. A directive it does not know is printed back without its flags and numbers. */
  function RenderItem(item: Item, arg: Option<Arg>): string
    requires TakesArg(item) ==> arg.Some? && KindFits(item, arg.value)
  {
    if item.Literal? then [item.c]
    else if item.conv == '%' then "%"
    else if item.conv == '\0' then "%"
    else if item.star then ['%', item.conv]
    else if IsNumeric(item.conv) then
      NumberText(arg.value.w, NumberBase(item.conv), NumberWidth(item), item.precision, NumberFlags(item))
    else if item.conv == 'c' then Justify([(arg.value.w % 0x100) as char], item.width, item.flags.left)
    else if item.conv == 's' then Justify(Truncate(arg.value.s, item.precision), item.width, item.flags.left)
    else if item.conv == 'n' then ""
    else ['%', item.conv]
  }

  function FirstArg(item: Item, args: seq<Arg>): Option<Arg>
    requires TakesArg(item) ==> args != []
  {
    if TakesArg(item) then Some(args[0]) else None
  }

  function ArgsAfter(item: Item, args: seq<Arg>): seq<Arg>
    requires TakesArg(item) ==> args != []
  {
    if TakesArg(item) then args[1..] else args
  }

  function Render(items: seq<Item>, args: seq<Arg>, cells: nat): string
    requires WellTyped(items, args, cells)
  {
    if items == [] then ""
    else RenderItem(items[0], FirstArg(items[0], args)) + Render(items[1..], ArgsAfter(items[0], args), cells)
  }

  /** The counter cells once every `%n` has stored the number of characters printed before it. */
  function Count(items: seq<Item>, args: seq<Arg>, printed: nat, cells: seq<int>): (r: seq<int>)
    requires WellTyped(items, args, |cells|)
    ensures |r| == |cells|
    decreases items
  {
    if items == [] then cells
    else
      var text := RenderItem(items[0], FirstArg(items[0], args));
      var stored :=
        if items[0].Directive? && !items[0].star && items[0].conv == 'n' then cells[args[0].cell := printed] else cells;
      Count(items[1..], ArgsAfter(items[0], args), printed + |text|, stored)
  }

  /** `skip_atoi` adds the character before it takes '0' off again: 48 more than the number must still fit. */
  predicate InRange(item: Item) {
    item.Directive? ==> item.width <= INT_MAX - 48 && item.precision <= INT_MAX - 48
  }

  predicate AllInRange(items: seq<Item>) {
    forall k :: 0 <= k < |items| ==> InRange(items[k])
  }
}
