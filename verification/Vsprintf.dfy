/** `vsprintf`: the roaming cursor over the format (var/vsprintf.c), proved to print what the parsed format says. */
module Vsprintf {
  import opened Word32
  import opened Text
  import opened Numerals
  import N = Numbers
  import opened Format
  import opened Wrappers

  lemma {:induction false} PrefixValue(s: string, k: nat)
    requires k <= |s| && AllDigits(s, 10)
    ensures AllDigits(s[..k], 10) && Value(s[..k], 10) <= Value(s, 10)
  {
    if k < |s| {
      var t := s[..|s| - 1];
      PrefixValue(t, k);
      assert t[..k] == s[..k];
    } else {
      assert s[..k] == s;
    }
  }

  lemma SumAt(run: string, k: nat)
    requires k < |run| && IsDecimal(run)
    ensures AllDigits(run[..k], 10) && AllDigits(run[..k + 1], 10)
    ensures Value(run[..k], 10) * 10 + run[k] as int == Value(run[..k + 1], 10) + 48
  {
    assert run[..k + 1] == run[..k] + [run[k]];
    ValueSnoc(run[..k], run[k], 10);
  }

  /** The sums `skip_atoi` makes of a run of digits all fit an `int` exactly when its number is at most 2147483599. */
  lemma {:induction false} SumsFit(run: string)
    requires run != "" && IsDecimal(run)
    ensures forall k :: 0 <= k < |run| ==> AllDigits(run[..k], 10)
    ensures (forall k :: 0 <= k < |run| ==> Value(run[..k], 10) * 10 + run[k] as int <= INT_MAX)
      <==> Value(run, 10) <= 2147483599
  {
    hide Value;
    forall k | 0 <= k < |run|
      ensures AllDigits(run[..k], 10) && Value(run[..k], 10) * 10 + run[k] as int <= Value(run, 10) + 48
    {
      SumAt(run, k);
      PrefixValue(run, k + 1);
    }
    var last := |run| - 1;
    SumAt(run, last);
    assert run[..last + 1] == run;
    assert Value(run[..last], 10) * 10 + run[last] as int == Value(run, 10) + 48;
  }

  /** `skip_atoi`. The sum before '0' is taken off again is an `int` too. */
  method SkipAtoi(fmt: string, i: nat) returns (value: Int32, next: nat)
    requires i <= |fmt| && DecimalAt(fmt, i) <= INT_MAX - 48
    ensures next == DecimalEnd(fmt, i) && value == DecimalAt(fmt, i)
  {
    ghost var run := fmt[i..DecimalEnd(fmt, i)];
    value, next := 0, i;
    assert run[..0] == [];
    while IsDigit(At(fmt, next))
      invariant i <= next <= |fmt| && DecimalEnd(fmt, next) == DecimalEnd(fmt, i)
      invariant value == Value(run[..next - i], 10)
      decreases |fmt| - next
    {
      var c := fmt[next];
      assert run[next - i] == c;
      assert run[..next + 1 - i] == run[..next - i] + [c];
      ValueSnoc(run[..next - i], c, 10);
      PrefixValue(run, next + 1 - i);
      next := next + 1;
      var sum: Int32 := value * 10 + c as int;
      value := sum - '0' as int;
    }
    assert run[..next - i] == run;
  }

  /** The next argument, fetched as an `int`. */
  function NextInt(args: seq<Arg>, a: nat): Word
    requires a < |args| && args[a].Number?
  {
    args[a].w
  }

  /** Lines 139-150. */
  method ReadWidth(fmt: string, i: nat, flags0: N.Flags, args: seq<Arg>, a0: nat)
    returns (flags: N.Flags, width: Int32, next: nat, a: nat)
    requires i <= |fmt| && ScanWidth(fmt, i).value <= INT_MAX - 48
    requires ScanWidth(fmt, i).star ==> a0 < |args| && args[a0].Number?
    ensures next == ScanWidth(fmt, i).next
    ensures if ScanWidth(fmt, i).star then a == a0 + 1
            else a == a0 && flags == flags0 && width == ScanWidth(fmt, i).value
  {
    flags, width, next, a := flags0, -1, i, a0;
    if IsDigit(At(fmt, next)) {
      width, next := SkipAtoi(fmt, next);
    } else if At(fmt, next) == '*' {
      var w := NextInt(args, a);
      a := a + 1;
      width := Signed(w);
      if width < 0 {
        width := Signed(Negate(w));
        flags := flags.(left := true);
      }
    }
  }

  /** Lines 152-164. */
  method ReadPrecision(fmt: string, i: nat, args: seq<Arg>, a0: nat) returns (precision: Int32, next: nat, a: nat)
    requires i <= |fmt| && ScanPrecision(fmt, i).value <= INT_MAX - 48
    requires ScanPrecision(fmt, i).star ==> a0 < |args| && args[a0].Number?
    ensures next == ScanPrecision(fmt, i).next
    ensures if ScanPrecision(fmt, i).star then a == a0 + 1 else a == a0 && precision == ScanPrecision(fmt, i).value
  {
    precision, next, a := -1, i, a0;
    if At(fmt, next) == '.' {
      next := next + 1;
      if IsDigit(At(fmt, next)) {
        precision, next := SkipAtoi(fmt, next);
      } else if At(fmt, next) == '*' {
        precision := Signed(NextInt(args, a));
        a := a + 1;
      }
      if precision < 0 {
        precision := 0;
      }
    }
  }

  /** Lines 127-171: everything between the `%` and the conversion character. */
  method ReadDirective(fmt: string, i: nat, args: seq<Arg>, a0: nat)
    returns (flags: N.Flags, width: Int32, precision: Int32, next: nat, a: nat)
    requires IsCString(fmt) && i < |fmt| && InRange(ScanDirective(fmt, i).0)
    requires ScanDirective(fmt, i).0.star ==> a0 < |args| && args[a0].Number?
    ensures var (d, conv) := ScanDirective(fmt, i);
      && next == conv
      && (if d.star then a == a0 + 1
          else a == a0 && flags == d.flags && width == d.width && precision == d.precision)
  {
    flags, next := N.NO_FLAGS, i + 1;
    while IsFlagChar(At(fmt, next))
      invariant i < next <= |fmt|
      invariant ScanFlags(fmt, next, flags) == ScanFlags(fmt, i + 1, N.NO_FLAGS)
      decreases |fmt| - next
    {
      flags := SetFlag(flags, At(fmt, next));
      next := next + 1;
    }
    flags, width, next, a := ReadWidth(fmt, next, flags, args, a0);
    precision, next, a := ReadPrecision(fmt, next, args, a);
    if At(fmt, next) == 'h' || At(fmt, next) == 'l' || At(fmt, next) == 'L' {
      next := next + 1;
    }
  }

  /** `while (--field_width > 0) *str++ = ' ';` */
  method PadAfterDecrement(buf: array<char>, str: nat, width: Int32) returns (next: nat, left: Int32)
    requires INT_MIN < width && str + Max(0, width - 1) <= buf.Length
    modifies buf
    ensures next == str + Max(0, width - 1) && left == Min(0, width - 1)
    ensures Wrote(old(buf[..]), buf[..], str, Repeat(' ', Max(0, width - 1)))
  {
    next, left := str, width - 1;
    while left > 0
      invariant Min(0, width - 1) <= left <= width - 1 && next - str == width - 1 - left
      invariant forall k :: 0 <= k < buf.Length ==> buf[k] == if str <= k < next then ' ' else old(buf[k])
    {
      buf[next] := ' ';
      next := next + 1;
      left := left - 1;
    }
  }

  /** `while (len < field_width--) *str++ = ' ';` */
  method PadToLength(buf: array<char>, str: nat, len: Int32, width: Int32) returns (next: nat, left: Int32)
    requires INT_MIN < width && 0 <= len && str + Max(0, width - len) <= buf.Length
    modifies buf
    ensures next == str + Max(0, width - len) && left == Min(len, width) - 1
    ensures Wrote(old(buf[..]), buf[..], str, Repeat(' ', Max(0, width - len)))
  {
    next, left := str, width;
    while len < left
      invariant Min(len, width) <= left <= width && next - str == width - left
      invariant forall k :: 0 <= k < buf.Length ==> buf[k] == if str <= k < next then ' ' else old(buf[k])
    {
      left := left - 1;
      buf[next] := ' ';
      next := next + 1;
    }
    left := left - 1;
  }

  /** Lines 174-181. */
  method EmitChar(buf: array<char>, str: nat, flags: N.Flags, width: Int32, w: Word) returns (next: nat)
    requires INT_MIN + 2 <= width
    requires str + Max(width, 1) <= buf.Length
    modifies buf
    ensures var text := Justify([(w % 0x100) as char], width, flags.left);
      next == str + |text| && Wrote(old(buf[..]), buf[..], str, text)
  {
    ghost var b0 := buf[..];
    ghost var c := [(w % 0x100) as char];
    ghost var pad := Repeat(' ', Max(0, width - 1));
    var left := width;
    next := str;
    if flags.left {
      next := Put(buf, next, (w % 0x100) as char);
      ghost var b1 := buf[..];
      next, left := PadAfterDecrement(buf, next, left);
      WroteThen(b0, b1, buf[..], str, c, pad);
    } else {
      next, left := PadAfterDecrement(buf, next, left);
      ghost var b1 := buf[..];
      next := Put(buf, next, (w % 0x100) as char);
      WroteThen(b0, b1, buf[..], str, pad, c);
      ghost var b2 := buf[..];
      next, left := PadAfterDecrement(buf, next, left);
      assert buf[..] == b2;
    }
  }

  /** Lines 194-195. */
  method EmitCopy(buf: array<char>, str: nat, s: string, len: nat) returns (next: nat)
    requires len <= |s| && str + len <= buf.Length
    modifies buf
    ensures next == str + len && Wrote(old(buf[..]), buf[..], str, s[..len])
  {
    next := str;
    var i := 0;
    while i < len
      invariant 0 <= i <= len && next == str + i
      invariant forall k :: 0 <= k < buf.Length ==> buf[k] == if str <= k < next then s[k - str] else old(buf[k])
    {
      buf[next] := s[i];
      next := next + 1;
      i := i + 1;
    }
  }

  /** Lines 183-198. */
  method EmitString(buf: array<char>, str: nat, flags: N.Flags, width: Int32, precision: Int32, s: string)
    returns (next: nat)
    requires INT_MIN + 2 <= width && |s| <= INT_MAX
    requires str + Max(width, |Truncate(s, precision)|) <= buf.Length
    modifies buf
    ensures var text := Justify(Truncate(s, precision), width, flags.left);
      next == str + |text| && Wrote(old(buf[..]), buf[..], str, text)
  {
    ghost var b0 := buf[..];
    var len: Int32 := |s|;
    if precision >= 0 && len > precision {
      len := precision;
    }
    ghost var t := Truncate(s, precision);
    assert s[..len] == t;
    ghost var pad := Repeat(' ', Max(0, width - len));
    var left := width;
    next := str;
    if !flags.left {
      next, left := PadToLength(buf, next, len, left);
      ghost var b1 := buf[..];
      next := EmitCopy(buf, next, s, len);
      WroteThen(b0, b1, buf[..], str, pad, t);
      ghost var b2 := buf[..];
      next, left := PadToLength(buf, next, len, left);
      assert buf[..] == b2;
    } else {
      next := EmitCopy(buf, next, s, len);
      ghost var b1 := buf[..];
      next, left := PadToLength(buf, next, len, left);
      WroteThen(b0, b1, buf[..], str, t, pad);
    }
  }

  /** Lines 235-242, without the step back over the terminator, which is the loop's business. */
  method EmitUnknown(buf: array<char>, str: nat, conv: char) returns (next: nat)
    requires str + 2 <= buf.Length || (str + 1 <= buf.Length && (conv == '%' || conv == '\0'))
    modifies buf
    ensures var text := if conv == '%' || conv == '\0' then "%" else ['%', conv];
      next == str + |text| && Wrote(old(buf[..]), buf[..], str, text)
  {
    next := str;
    if conv != '%' {
      next := Put(buf, next, '%');
    }
    if conv != '\0' {
      next := Put(buf, next, conv);
    }
  }

  lemma RenderNumber(d: Item, w: Word)
    requires d.Directive? && IsNumeric(d.conv) && !d.star
    ensures RenderItem(d, Some(Number(w)))
         == N.NumberText(w, NumberBase(d.conv), NumberWidth(d), d.precision, NumberFlags(d))
  {
    hide N.NumberText;
  }

  /** The numeric conversions, lines 200-228. */
  method EmitNumber(
      buf: array<char>, str: nat, ghost d: Item, flags0: N.Flags, width0: Int32, precision: Int32, conv: char, w: Word)
    returns (next: nat)
    requires d.Directive? && IsNumeric(conv) && d.conv == conv && !d.star
    requires flags0 == d.flags && width0 == d.width && precision == d.precision && -1 <= width0 && InRange(d)
    requires str + |RenderItem(d, Some(Number(w)))| <= buf.Length
    modifies buf
    ensures var text := RenderItem(d, Some(Number(w)));
      next == str + |text| && Wrote(old(buf[..]), buf[..], str, text)
  {
    RenderNumber(d, w);
    hide N.Room, N.LastDecrements, N.NumberText, RenderItem;
    var flags, width := flags0, width0;
    var r;
    if conv == 'o' {
      N.RoomEnough(w, 8, width, precision, flags);
      r := N.Number(buf, str, w, 8, width, precision, flags);
    } else if conv == 'p' {
      if width == -1 {
        width := 8;
        flags := flags.(zeropad := true);
      }
      N.RoomEnough(w, 16, width, precision, flags);
      r := N.Number(buf, str, w, 16, width, precision, flags);
    } else if conv == 'x' || conv == 'X' {
      if conv == 'x' {
        flags := flags.(small := true);
      }
      N.RoomEnough(w, 16, width, precision, flags);
      r := N.Number(buf, str, w, 16, width, precision, flags);
    } else {
      if conv == 'd' || conv == 'i' {
        flags := flags.(sign := true);
      }
      N.RoomEnough(w, 10, width, precision, flags);
      r := N.Number(buf, str, w, 10, width, precision, flags);
    }
    next := r.value;
  }

  /** The switch of lines 173-243 for one directive. */
  method EmitDirective(
      buf: array<char>, str: nat, ghost d: Item, ghost arg: Option<Arg>, flags: N.Flags, width: Int32, precision: Int32,
      conv: char, args: seq<Arg>, a0: nat, cells: array<Int32>)
    returns (next: nat, a: nat)
    requires d.Directive? && d.conv == conv && InRange(d) && -1 <= d.width && (d.star ==> conv == '*')
    requires !d.star ==> flags == d.flags && width == d.width && precision == d.precision
    requires TakesArg(d) ==> arg.Some? && ArgFits(d, arg.value, cells.Length)
    requires TakesArg(d) && !d.star ==> a0 < |args| && args[a0] == arg.value
    requires str + |RenderItem(d, arg)| <= buf.Length && str <= INT_MAX
    modifies buf, cells
    ensures next == str + |RenderItem(d, arg)| && Wrote(old(buf[..]), buf[..], str, RenderItem(d, arg))
    ensures a == if TakesArg(d) && !d.star then a0 + 1 else a0
    ensures cells[..] == if conv == 'n' then old(cells[..])[arg.value.cell := str] else old(cells[..])
  {
    next, a := str, a0;
    if conv == 'c' {
      next := EmitChar(buf, next, flags, width, NextInt(args, a));
      a := a + 1;
    } else if conv == 's' {
      next := EmitString(buf, next, flags, width, precision, args[a].s);
      a := a + 1;
    } else if IsNumeric(conv) {
      next := EmitNumber(buf, next, d, flags, width, precision, conv, NextInt(args, a));
      a := a + 1;
    } else if conv == 'n' {
      cells[args[a].cell] := next;
      a := a + 1;
      WroteNothing(buf[..], next);
    } else {
      next := EmitUnknown(buf, next, conv);
    }
  }

  /** What is printed and counted by items still to come, seen from one item further on. */
  lemma ItemStep(item: Item, rest: seq<Item>, args: seq<Arg>, printed: nat, cells: seq<int>)
    requires WellTyped([item] + rest, args, |cells|)
    ensures TakesArg(item) ==> args != [] && ArgFits(item, args[0], |cells|)
    ensures WellTyped(rest, ArgsAfter(item, args), |cells|)
    ensures Render([item] + rest, args, |cells|)
         == RenderItem(item, FirstArg(item, args)) + Render(rest, ArgsAfter(item, args), |cells|)
    ensures var stored :=
        if item.Directive? && !item.star && item.conv == 'n' then cells[args[0].cell := printed] else cells;
      Count([item] + rest, args, printed, cells)
        == Count(rest, ArgsAfter(item, args), printed + |RenderItem(item, FirstArg(item, args))|, stored)
  {
    assert ([item] + rest)[1..] == rest;
  }

  /** What the loop has done, and what is left to do, add up to what the whole format says. */
  ghost predicate OnTrack(
      whole: string, counted: seq<int>, done: string, items: seq<Item>, args: seq<Arg>, cells: seq<int>)
  {
    && WellTyped(items, args, |cells|)
    && AllInRange(items)
    && done + Render(items, args, |cells|) == whole
    && Count(items, args, |done|, cells) == counted
  }

  lemma {:induction false} OnTrackStep(
      whole: string, counted: seq<int>, done: string, item: Item, rest: seq<Item>, args: seq<Arg>, a: nat,
      cells: seq<int>)
    requires a <= |args|
    requires OnTrack(whole, counted, done, [item] + rest, args[a..], cells)
    ensures InRange(item)
    ensures TakesArg(item) ==> a < |args| && ArgFits(item, args[a], |cells|)
    ensures var arg := if TakesArg(item) then Some(args[a]) else None;
      var text := RenderItem(item, arg);
      var stored := if item.Directive? && !item.star && item.conv == 'n' then cells[args[a].cell := |done|] else cells;
      && |done| + |text| <= |whole|
      && OnTrack(whole, counted, done + text, rest, args[if TakesArg(item) then a + 1 else a..], stored)
  {
    hide RenderItem, ArgFits, Count, Render;
    ItemStep(item, rest, args[a..], |done|, cells);
    var text := RenderItem(item, FirstArg(item, args[a..]));
    if TakesArg(item) {
      assert args[a..][1..] == args[a + 1..];
      assert args[a..][0] == args[a];
    }
    assert forall k :: 0 <= k < |rest| ==> rest[k] == ([item] + rest)[k + 1];
    assert (done + text) + Render(rest, ArgsAfter(item, args[a..]), |cells|) == whole;
  }

  /** The argument the directive at `i` is given, and the counter cells once it is done. */
  ghost function ArgAt(d: Item, args: seq<Arg>, a: nat): Option<Arg> {
    if TakesArg(d) && a < |args| then Some(args[a]) else None
  }

  ghost function CellsAfter(d: Item, args: seq<Arg>, a: nat, printed: nat, cells: seq<int>): seq<int> {
    if d.Directive? && !d.star && d.conv == 'n' && a < |args| && args[a].Counter? && args[a].cell < |cells|
    then cells[args[a].cell := printed] else cells
  }

  lemma {:induction false} DirectiveStep(
      fmt: string, i: nat, args: seq<Arg>, a: nat, cells: seq<int>, whole: string, counted: seq<int>, done: string)
    requires i < |fmt| && fmt[i] == '%' && a <= |args|
    requires OnTrack(whole, counted, done, Parse(fmt, i), args[a..], cells)
    ensures var (d, at) := ScanDirective(fmt, i);
      && InRange(d) && -1 <= d.width && (d.star ==> d.conv == '*')
      && (TakesArg(d) ==> a < |args| && ArgFits(d, args[a], |cells|))
      && |done| + |RenderItem(d, ArgAt(d, args, a))| <= |whole|
      && OnTrack(whole, counted, done + RenderItem(d, ArgAt(d, args, a)), Parse(fmt, ItemEnd(fmt, at)),
           args[if TakesArg(d) then a + 1 else a..], CellsAfter(d, args, a, |done|, cells))
  {
    var (d, at) := ScanDirective(fmt, i);
    StarIsConversion(fmt, i);
    OnTrackStep(whole, counted, done, d, Parse(fmt, ItemEnd(fmt, at)), args, a, cells);
  }

  /** One `%` directive: read it, print it, and step back if the format ended inside it. */
  method Step(
      buf: array<char>, fmt: string, args: seq<Arg>, cells: array<Int32>, str: nat, i: nat, a0: nat, ghost room: nat)
    returns (next: nat, j: nat, a: nat)
    requires IsCString(fmt) && i < |fmt| && a0 <= |args|
    requires var d := ScanDirective(fmt, i).0;
      && InRange(d) && -1 <= d.width && (d.star ==> d.conv == '*')
      && (TakesArg(d) ==> a0 < |args| && ArgFits(d, args[a0], cells.Length))
      && str + |RenderItem(d, ArgAt(d, args, a0))| <= room
    requires room < buf.Length <= 0x8000_0000
    modifies buf, cells
    ensures var (d, at) := ScanDirective(fmt, i);
      var text := RenderItem(d, ArgAt(d, args, a0));
      && i <= j && j + 1 == ItemEnd(fmt, at)
      && a == (if TakesArg(d) then a0 + 1 else a0)
      && next == str + |text|
      && Wrote(old(buf[..]), buf[..], str, text)
      && cells[..] == CellsAfter(d, args, a0, str, old(cells[..]))
  {
    ghost var (d, at) := ScanDirective(fmt, i);
    var flags, width, precision;
    flags, width, precision, j, a := ReadDirective(fmt, i, args, a0);
    next, a := EmitDirective(buf, str, d, ArgAt(d, args, a0), flags, width, precision, At(fmt, j), args, a, cells);
    if At(fmt, j) == '\0' {
      j := j - 1;
    }
  }

  method CopyLiteral(
      buf: array<char>, fmt: string, args: seq<Arg>, ghost cells: seq<int>, str: nat, i: nat, a: nat,
      ghost whole: string, ghost counted: seq<int>, ghost done: string)
    returns (next: nat)
    requires i < |fmt| && fmt[i] != '%' && a <= |args|
    requires OnTrack(whole, counted, done, Parse(fmt, i), args[a..], cells)
    requires str == |done| && |whole| < buf.Length
    modifies buf
    ensures next == |done + [fmt[i]]|
    ensures Wrote(old(buf[..]), buf[..], str, [fmt[i]])
    ensures OnTrack(whole, counted, done + [fmt[i]], Parse(fmt, i + 1), args[a..], cells)
  {
    OnTrackStep(whole, counted, done, Literal(fmt[i]), Parse(fmt, i + 1), args, a, cells);
    next := Put(buf, str, fmt[i]);
  }

  method PrintDirective(
      buf: array<char>, fmt: string, args: seq<Arg>, cells: array<Int32>, str0: nat, i0: nat, a0: nat,
      ghost whole: string, ghost counted: seq<int>, ghost done: string)
    returns (str: nat, i: nat, a: nat, ghost text: string)
    requires IsCString(fmt) && i0 < |fmt| && fmt[i0] == '%' && a0 <= |args|
    requires OnTrack(whole, counted, done, Parse(fmt, i0), args[a0..], cells[..])
    requires str0 == |done| && |whole| < buf.Length <= 0x8000_0000
    modifies buf, cells
    ensures i0 <= i < |fmt| && a <= |args| && str == |done + text|
    ensures Wrote(old(buf[..]), buf[..], str0, text)
    ensures OnTrack(whole, counted, done + text, Parse(fmt, i + 1), args[a..], cells[..])
  {
    DirectiveStep(fmt, i0, args, a0, cells[..], whole, counted, done);
    hide OnTrack, ScanDirective, RenderItem, Parse, ArgFits;
    text := RenderItem(ScanDirective(fmt, i0).0, ArgAt(ScanDirective(fmt, i0).0, args, a0));
    str, i, a := Step(buf, fmt, args, cells, str0, i0, a0, |whole|);
  }

  /** One turn of the loop over the format. */
  method Turn(
      buf: array<char>, fmt: string, args: seq<Arg>, cells: array<Int32>, str0: nat, i0: nat, a0: nat,
      ghost b0: seq<char>, ghost whole: string, ghost counted: seq<int>, ghost done0: string)
    returns (str: nat, i: nat, a: nat, ghost done: string)
    requires IsCString(fmt) && i0 < |fmt| && a0 <= |args|
    requires OnTrack(whole, counted, done0, Parse(fmt, i0), args[a0..], cells[..])
    requires str0 == |done0| && |whole| < buf.Length <= 0x8000_0000 && Wrote(b0, buf[..], 0, done0)
    modifies buf, cells
    ensures i0 < i <= |fmt| && a <= |args| && str == |done|
    ensures Wrote(b0, buf[..], 0, done)
    ensures OnTrack(whole, counted, done, Parse(fmt, i), args[a..], cells[..])
  {
    hide Parse, OnTrack;
    ghost var b1 := buf[..];
    if At(fmt, i0) != '%' {
      str := CopyLiteral(buf, fmt, args, cells[..], str0, i0, a0, whole, counted, done0);
      i, a := i0, a0;
      done := done0 + [fmt[i]];
      WroteThen(b0, b1, buf[..], 0, done0, [fmt[i]]);
    } else {
      ghost var text;
      str, i, a, text := PrintDirective(buf, fmt, args, cells, str0, i0, a0, whole, counted, done0);
      done := done0 + text;
      WroteThen(b0, b1, buf[..], 0, done0, text);
    }
    i := i + 1;
  }

  lemma OnTrackEnd(whole: string, counted: seq<int>, done: string, args: seq<Arg>, cells: seq<int>)
    requires OnTrack(whole, counted, done, [], args, cells)
    ensures done == whole && cells == counted
  {
  }

  /** Lines 121-244: the loop over the format. */
  method Interpret(
      buf: array<char>, fmt: string, args: seq<Arg>, cells: array<Int32>, ghost whole: string, ghost counted: seq<int>)
    returns (str: nat)
    requires IsCString(fmt) && |whole| < buf.Length <= 0x8000_0000
    requires OnTrack(whole, counted, "", Parse(fmt, 0), args[0..], cells[..])
    modifies buf, cells
    ensures str == |whole|
    ensures Wrote(old(buf[..]), buf[..], 0, whole)
    ensures cells[..] == counted
  {
    ghost var b0, done := buf[..], "";
    var i: nat, a: nat := 0, 0;
    str := 0;
    WroteNothing(b0, 0);
    while At(fmt, i) != '\0'
      invariant i <= |fmt| && a <= |args| && str == |done|
      invariant OnTrack(whole, counted, done, Parse(fmt, i), args[a..], cells[..])
      invariant Wrote(b0, buf[..], 0, done)
      decreases |fmt| - i
    {
      str, i, a, done := Turn(buf, fmt, args, cells, str, i, a, b0, whole, counted, done);
    }
    OnTrackEnd(whole, counted, done, args[a..], cells[..]);
  }

  /**
   * `vsprintf`: on every format it terminates, stays inside the format, and prints and counts exactly what the
   * parsed format says. A width or precision must leave room for the sums `skip_atoi` makes of it, and the buffer
   * must be one that an `int` can count through.
   */
  method Vsprintf(buf: array<char>, fmt: string, args: seq<Arg>, cells: array<Int32>) returns (len: Int32)
    requires IsCString(fmt)
    requires WellTyped(Parse(fmt, 0), args, cells.Length)
    requires AllInRange(Parse(fmt, 0))
    requires |Render(Parse(fmt, 0), args, cells.Length)| < buf.Length <= 0x8000_0000
    modifies buf, cells
    ensures len == |Render(Parse(fmt, 0), args, cells.Length)|
    ensures Wrote(old(buf[..]), buf[..], 0, Render(Parse(fmt, 0), args, cells.Length) + "\0")
    ensures cells[..] == Count(Parse(fmt, 0), args, 0, old(cells[..]))
  {
    ghost var whole := Render(Parse(fmt, 0), args, cells.Length);
    ghost var counted := Count(Parse(fmt, 0), args, 0, cells[..]);
    ghost var b0 := buf[..];
    assert args[0..] == args;
    var str := Interpret(buf, fmt, args, cells, whole, counted);
    ghost var b2 := buf[..];
    buf[str] := '\0';
    WroteThen(b0, b2, buf[..], 0, whole, "\0");
    len := str;
  }
}
