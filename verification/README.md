# Blueport: a verified model of the kernel's text, string, interrupt, video and keyboard code

Blueport is a small i386 kernel in C and assembler. This project models the parts of it that carry real logic and
proves what they are for. Every loop, in-place buffer, register and global of the modelled functions is kept as such in
a Dafny method or class, and each method is proved against a specification that says what the result means; the
properties that span several calls, or whole runs, are lemmas about those specifications.

* **Numbers to text** (`Word32`, `Text`, `Numerals`, `Number`, `C99`, `NumberIso`, `Ucvt`): `number`, `ucvt`/`dcvt`
  and `dec2hex` on 32-bit registers, and `number` compared with ISO C. `C99` is a reference of its own: it reads a
  directive and prints an integer, a character or a string by the letter of section 7.19.6.1 of C99, with its own
  tables. `int` and `long` are both 32 bits. A C `int` is the subset type `Int32`, so that every assignment to one is
  proved free of signed overflow; a register is the subset type `Word`. Three computations on a C `int` are done on
  the register and wrap. `num = -num` and `field_width = -field_width` overflow exactly for the most negative value
  (`Word32.NegationOverflows`), that is when a signed conversion is given 0x80000000, or a `*` is. The pad code
  `npadch` overflows exactly when the digits typed spell a number above 2147483647 (`Keyboard.PadCodeFits`).
* **Text to numbers** (`Strtol`, `StrtolIso`, `RoundTrip`): `strtol` and `strtoul`, proved to be the clamp of an
  unbounded number, compared with the reader of ISO C, and proved to read back whatever `number` prints.
* **Format strings** (`Format`, `Vsprintf`, `Canonical`, `Counting`, `Arguments`, `Stars`, `FormatIso`, `EndToEnd`): a
  parser and a renderer for the format language, the roaming cursor of `vsprintf` proved equal to parsing and then
  rendering on every format, an inverse for the parser, whole formats compared with C99, and the round trip through a
  format, a printed number and a parsed number.
* **String instructions** (`Strings`, `Strtok`): `memmove`, `strstr` and `strtok` of include/string.historical.h, with
  the registers, counters and flags of their `rep` loops. No file includes that header; the kernel is built with
  include/string.h, which has the same `memmove`, no `strtok`, and a `strstr` in C that is modelled beside the other.
* **Interrupts** (`Pic`, `Interrupts`, `InterruptRuns`, `Stubs`, `Delivery`): the stubs of `asm.S` one instruction at
  a time, two 8259A controllers, the mask caches of `irq.c`, and a thread that calls `enable_irq` and `disable_irq`.
  An interrupt can be taken between any two instructions when the interrupt flag and the controllers allow it. Results
  hold for every run, however deeply interrupts nest; `Delivery` says which requests get through after power-up, and
  which stacks of nested stubs there are.
* **Text pages** (`Terminal`, `TerminalText`, `Video`): the bytes of video memory, the page records and the cursor
  registers, simulated by a terminal that never scrolls: one long tape with one position.
* **Keyboard** (`Keyboard`, `KeyboardEcho`, `KeyboardDriver`, `Console`): the handlers and their globals, compared after
  every scancode with what the history of scancodes says, the text that a history types, and the page that shows it.

What the environment supplies is a parameter or a field: variadic arguments are a sequence of typed arguments, `%n`
pointers are indices into an array of cells, ports and video memory are fields and arrays of a class, `kprint` output is
a sequence, and a scancode is an argument.

A C string is its text without the terminator. The accessor `At` can be given any index up to the length, where it
reads the terminator, and no index beyond; so each method that uses it is proved never to read past the end.

## Where the code departs from its documentation or from ISO C

The model follows the code.

* `vsprintf` fetches an argument for `*` but does not step over the `*`: the directive is printed back, for example
  `%*d` as `%*d` (`Stars.StarredDecimal`), and the argument of a `*` never becomes a width: no run depends on its
  value (`Stars.StarWordIsIgnored`).
* It knows `h`, `l` and `L` but not the length modifiers `hh`, `ll`, `j`, `z` and `t` of C99: such a directive takes
  no argument and is printed back, for example `%lld` as `%ld` (`Stars.LongLongDecimal`). The conversion character is
  at the place where C99 has it exactly when no `*` stands behind the flags or behind the point and the modifier is
  none of those five (`Stars.ConversionIsC99`).
* `h` does not narrow the argument (`NumberIso.ShortIsNotShort`), and `number` departs from C99 for `%#o` and `%#x` of
  0 ("00" and "0x0"), for `%.0d` of 0 ("0"), for `+` and the space on an unsigned conversion, and for the flag `0`
  together with a precision. `NumberIso.DirectiveIsC99` is the exact condition: an integer directive prints the text
  of C99 if and only if its argument survives the narrowing and `NumberIso.Departs` does not hold of flags, width,
  precision and value. A whole format without departing directives prints what C99 has it print
  (`FormatIso.FormatIsC99`).
* `isalpha` holds from `A` to `z`, so the six characters between the cases are digits 4 to 9 in `strtol`: `_` is 8
  (`StrtolIso.UnderscoreIsEight`). And `0x` followed by no digit is read as nothing at all, not as the zero
  (`StrtolIso.DanglingPrefixReadsNothing`). `StrtolIso.AgreesWithIso` says when the number in the text, before any
  clamping, and the end pointer are those of ISO C: exactly when the digits read have none of the six characters among
  them and, for the end pointer, no prefix dangles. The values returned agree in a few more cases, because both
  saturate; `StrtolIso.StrtolReturnsIso` and `StrtolIso.StrtoulReturnsIso` give the exact conditions.
* `strstr` of include/string.h (line 279) finds no empty needle, not even in an empty text (`Strings.StrstrInC`).
* `ucvt` has digits up to base 16 only, `number` up to base 36: the texts are the same exactly when every digit is one
  of the sixteen (`Ucvt.PrintersAgree`; 16 in base 17 is `Ucvt.SixteenInBaseSeventeen`). The twelve digit cells of
  `ucvt` are enough for every value exactly from base 7 on (`Ucvt.TwelveCells`).
* `strtok` with no delimiters returns NULL instead of the whole text: the calls return the tokens exactly when there
  is a delimiter or the text is empty (`Strtok.CallsReturnTokensWhen`).
* `disable_irq` shifts by the number of the line and keeps eight bits, so lines 8 to 15 are never masked by it
  (`InterruptRuns.DisableMasksMasterOnly` gives the exact condition, whatever interrupts land inside the call, and
  `Delivery.DeliveredOnceDisabled` says which requests still get through).
* From a cursor on its page, a tab that starts right of column 72 in the last row writes past the end of the page;
  `Video.SpillCondition` has the exact condition for every cursor.
* The guard of `clear_line` refuses negative lines only. Line 25 of page 0 is the first line of page 1
  (`Video.LineBelowThePage`); the call stays on its own page exactly for lines below 25
  (`Video.ClearLineStaysInside`).
* `set_x` and `set_y` store any value; the cursor stays on its page exactly when the value is on it
  (`Video.Screen.SetX`).
* `new_line` scrolls one row earlier than a printed newline does (`Terminal.NewLineScrollsEarly`).
* The comments in `update_HW_cursor` name the two cursor registers the wrong way round: register 14 takes the high
  byte.

## Model

| member | source | states |
|---|---|---|
| Numbers.Number | var/vsprintf.c:48-104 | for every register value, width, precision and flag set: None exactly for a base outside 2 to 36, and otherwise the laid-out number is written at the cursor, nothing else in the buffer changes, and no `int` overflows but the negation of the most negative value, which wraps |
| Numbers.NumberTextLength | var/vsprintf.c:59-103 | a printed number has exactly max(width, sign + prefix + max(digits, precision)) characters in all three padding modes |
| Numbers.ExtractDigits | var/vsprintf.c:71-78 | the digits left in `tmp`, read backwards, are the numeral of the value, and at most 32 of its 36 places are used |
| Numerals.NumeralValue | var/vsprintf.c:71-78 | the numeral of a number denotes that number, in every base |
| Numerals.NumeralLength | var/vsprintf.c:71-78 | a numeral has at most k digits exactly when its value is below the k-th power of the base |
| Numerals.NumeralHead | var/vsprintf.c:71-78 | only zero's numeral starts with a zero |
| Numerals.WordDigits | var/vsprintf.c:51-78 | no 32-bit value needs more than 32 digits in any base |
| Numerals.ValueLeadingZeros | var/stdlib.c:487-506 | leading zeros do not change the number a run of digits denotes |
| Word32.NegationOverflows | var/vsprintf.c:60-64 | negating an `int` overflows for the most negative value and for no other, and the register then stays as it is |
| NumberIso.AgreesWithC99 | var/vsprintf.c:48-104 | for all pairs of words, the three bases, and every width, precision and flag set: what `number` prints for one word is what C99 prints for the other, with digits, sign and prefix from tables of its own, if and only if they are the same word and none of six departures applies |
| NumberIso.DirectiveIsC99 | var/vsprintf.c:127-228 | at every place of every format: an integer directive that C99 reads alike prints the text C99 gives it, its base, sign and letters told by the conversion character, if and only if `h` would not change its argument and no departure applies |
| NumberIso.NumeralIsC99 | var/vsprintf.c:52-78 | the digits printed, in every base and either case, are the numeral over the thirty-six characters written out |
| NumberIso.CharIsC99 | var/vsprintf.c:174-181 | a `c` directive read alike prints what C99 prints, for every argument |
| NumberIso.StringIsC99 | var/vsprintf.c:183-198 | an `s` directive read alike prints what C99 prints, for every string |
| NumberIso.PointerIsHex | var/vsprintf.c:205-213 | `p` prints what `X` prints, in eight columns filled with zeros if the directive has no width |
| NumberIso.PointerIsEightDigits | var/vsprintf.c:205-213 | `%p` prints eight digits out of 0123456789ABCDEF that denote the argument |
| FormatIso.FormatIsC99 | var/vsprintf.c:106-248 | every format, from every place, that is made of plain characters, `%%` and directives for integers, characters and strings that do not depart: its arguments fit, and the whole text is what C99 has it print |
| FormatIso.TwoLowerCaseDigits | var/vsprintf.c:215-220 | `%x` of 255 is "ff" |
| NumberIso.ShapeIsUnique | var/vsprintf.c:59-103 | padding, sign, hexadecimal prefix, digits and padding can be told apart in the printed text: no two choices of fields have the same text |
| NumberIso.Reckoning | var/vsprintf.c:59-103 | the fields the code lays out match those of C99, a space for a sign counting as padding, exactly when no departure applies |
| NumberIso.OctalZeroTwice | var/vsprintf.c:86-88 | `%#o` of 0 is "00", by C99 "0" |
| NumberIso.PrefixedZero | var/vsprintf.c:89-92 | `%#x` of 0 is "0x0", by C99 "0" |
| NumberIso.ZeroIsNotSilent | var/vsprintf.c:72-73 | `%.0d` of 0 is "0", by C99 nothing |
| NumberIso.UnsignedPlus | var/vsprintf.c:64-65 | `%+u` of 5 is "+5", by C99 "5" |
| NumberIso.ZerosDespitePrecision | var/vsprintf.c:94-96 | `%05.3d` of 7 is "00007", by C99 "  007" |
| NumberIso.ShortIsNotShort | var/vsprintf.c:164-171 | `%hd` of 70000 is not what C99 prints, 4464 |
| Ucvt.Ucvt | var/stdlib.c:246-329 | for every value, base from 2 up or from -2 down, width and flag set: the laid-out text, a NUL, and the length as the return value |
| Ucvt.PrintersAgree | var/stdlib.c:246-329 | that text is what `number` prints under the translated flags if and only if every digit is one of the sixteen `todigit` has, which holds for every value up to base 16 |
| Ucvt.UcvtFields | var/stdlib.c:288-325 | sign and digits, and what the width leaves over: spaces on the right with LEFT_PAD, else spaces on the left, or zeros behind the sign |
| Ucvt.DigitTable | var/stdlib.c:280-286 | sixteen digits; a larger one comes out as the character with its number |
| Ucvt.SixteenInBaseSeventeen | var/stdlib.c:284-284 | 16 in base 17 is printed differently by the two, under every padding flag |
| Ucvt.Dcvt | var/stdlib.c:331-334 | the same text for the other sign of the base: the signed print |
| Ucvt.TwelveCells | var/stdlib.c:251-286 | twelve digit cells suffice for every 32-bit value if and only if the base is at least 7, for every base from 2 up |
| Ucvt.RawNumeralLength | var/stdlib.c:280-286 | the digits of `todigit` number at most k exactly when the value is below the k-th power of the base |
| Ucvt.Dec2Hex | var/math.c:62-75 | `dec2hex` writes what `number` prints in base 16 without flags, and a NUL |
| Strtol.Strtol | var/stdlib.c:438-514 | the result is the clamp to LONG_MIN..LONG_MAX of the unbounded signed value of the longest digit run behind spaces, sign and prefix; the end pointer is behind that run, or the start if it is empty |
| Strtol.Strtoul | var/stdlib.c:516-571 | the result saturates at ULONG_MAX and is negated modulo 2^32 otherwise; the same end pointer |
| Strtol.ReadDigits | var/stdlib.c:487-506 | the loop consumes exactly the longest digit run, the accumulator equals its value while that is within the limit and never wraps, and overflow is flagged exactly when it is not |
| Strtol.CutoffTest | var/stdlib.c:467-499 | the cutoff and cutlim comparison holds exactly when one more digit would pass the limit |
| Strtol.Prologue | var/stdlib.c:446-465 | spaces, one sign, and the base prefix are consumed, and base 0 is settled by what follows |
| StrtolIso.AgreesWithIso | var/stdlib.c:438-571 | for every text and base 0 or 2 to 36, of the number before clamping: it is ISO C's if and only if no digit read lies between the cases of the alphabet, and larger in magnitude otherwise; the end pointer is ISO C's if and only if moreover no `0x` stands without a digit behind it |
| StrtolIso.SignsAgree | var/stdlib.c:451-457 | the code skips the six white-space characters of ISO C and takes the same sign, on every text |
| StrtolIso.SameLimits | var/stdlib.c:467-571 | `strtol` saturates at -2147483648 and 2147483647, `strtoul` at 4294967295, and a number that fits is negated modulo 2^32 |
| StrtolIso.StrtolReturnsIso | var/stdlib.c:507-513 | the value `strtol` returns is ISO C's if and only if no digit read lies between the cases or ISO C's number is at or past LONG_MIN or LONG_MAX |
| StrtolIso.StrtoulReturnsIso | var/stdlib.c:564-570 | the value `strtoul` returns is ISO C's if and only if no digit read lies between the cases, or ISO C's number saturates too, or is ULONG_MAX, or is minus one while the code's saturates |
| StrtolIso.SaturationHidesUnderscore | var/stdlib.c:498-513 | seven `z` and an underscore in base 36: LONG_MAX either way, but the end pointers differ |
| StrtolIso.DigitTestsAgree | var/ctype.c:29-35 | for every character and base the digit test agrees with ISO C's if and only if the character is not between the cases or the base is at most its distance from 'W'; common digits have the same value |
| StrtolIso.ReadsCompared | var/stdlib.c:487-506 | from one place ISO C's run is never longer, is the same exactly without characters between the cases, and denotes the same number exactly then |
| StrtolIso.DanglingPrefixReadsNothing | var/stdlib.c:458-462 | on `0x` the code reads nothing, where ISO C reads the zero |
| StrtolIso.UnderscoreIsEight | var/stdlib.c:490-495 | `_` is the number 8 to the code and no number to ISO C |
| RoundTrip.PrintThenScan | var/stdlib.c:451-513 | scanning a printed number finds its sign, its magnitude, and stops just behind its last digit |
| RoundTrip.ParseShape | var/stdlib.c:451-513 | any text made of spaces, a sign, a hexadecimal prefix, digits and spaces is scanned into exactly those parts |
| RoundTrip.StrtolReadsBack | var/stdlib.c:438-514 | `strtol` inverts signed printing for every value, base 2 to 36, width, precision and flags, LONG_MIN included; unsigned printing exactly up to LONG_MAX; base 0 works whenever the text shows its base |
| RoundTrip.StrtoulReadsBack | var/stdlib.c:516-571 | `strtoul` gives back the register contents, printed signed or unsigned |
| Vsprintf.Vsprintf | var/vsprintf.c:106-248 | on every format and well-typed argument list the loop terminates, never reads past the NUL, writes exactly what rendering the parsed format gives, returns its length, and leaves every `%n` cell as counted; length and counts fit an `int` because the buffer does |
| Vsprintf.ReadDirective | var/vsprintf.c:127-171 | flags, width, precision and qualifier are read as the parser reads them, and a `*` consumes an argument |
| Vsprintf.SkipAtoi | var/vsprintf.c:26-33 | the value of the longest run of decimal digits, without overflow |
| Vsprintf.SumsFit | var/vsprintf.c:26-33 | the sums on the way fit an `int` if and only if the number is at most 2147483599 |
| Vsprintf.EmitDirective | var/vsprintf.c:173-243 | each conversion writes its rendering, consumes its argument, and `%n` stores the count so far |
| Vsprintf.EmitString | var/vsprintf.c:183-198 | at most precision characters, justified in the width |
| Vsprintf.EmitChar | var/vsprintf.c:174-181 | one byte, justified in the width |
| Vsprintf.Step | var/vsprintf.c:122-243 | one directive; at a format that ends inside it the cursor steps back so that the terminator ends the loop |
| Counting.CounterHoldsLength | var/vsprintf.c:230-233 | the cell of a `%n` ends up with the total length of everything printed before it, unless a later `%n` shares the cell |
| Canonical.ParseWritten | var/vsprintf.c:121-171 | parsing inverts writing: every list of literals and directives, written with flags, nonzero width, precision, qualifier and conversion, is parsed back as itself |
| Canonical.ScanWritten | var/vsprintf.c:127-171 | one written directive is read back as itself from any place in any format |
| Canonical.WrittenFormatPrints | var/vsprintf.c:121-246 | the format written for a list of items prints the concatenation of the individual renderings |
| Canonical.ParsedIsWritable | var/vsprintf.c:121-173 | every character, and every directive without a `*` whose conversion character cannot run into its fields, that any C string is parsed into can be written |
| Canonical.NormalForm | var/vsprintf.c:121-173 | so a format of such items, parsed, written and parsed again, says the same |
| Stars.ConversionIsC99 | var/vsprintf.c:127-171 | at every place of every format a directive has a `*` exactly when one stands behind the flags or behind the point, and the conversion character is at C99's place if and only if it has none and no length modifier `hh`, `ll`, `j`, `z` or `t`; then flags, width, precision and modifier are C99's too |
| Stars.PlainCharacter | var/vsprintf.c:121-125 | a character outside directives prints itself |
| Stars.ParsedDirective | var/vsprintf.c:127-173 | a directive read as C99 reads it is handled by the character at C99's place, and the format goes on behind it, or ends with it |
| Stars.ItemAsksFor | var/vsprintf.c:173-242 | the conversions that take a word, a string or a counter, and no other takes anything; `%` and a format cut off print a percent sign, an unknown character is printed behind one |
| Stars.CountsTwo | var/vsprintf.c:230-233 | `ab%n` stores 2 |
| Arguments.WellTypedMeans | var/vsprintf.c:173-233 | arguments fit a format if and only if there are enough and each item that takes one finds one that fits at its place: as many before it as items before it take one |
| Arguments.RenderingAt | var/vsprintf.c:173-233 | each item prints what it prints for the argument at its place |
| Stars.UnknownModifierPrintsItself | var/vsprintf.c:164-171 | a directive with such a modifier takes no argument and prints the modifier's last letter behind a percent sign, and the format goes on where C99 has the conversion character |
| Stars.LongLongDecimal | var/vsprintf.c:164-171 | `%lld` prints `%ld` |
| Stars.StarPrintsItself | var/vsprintf.c:143-161 | a directive with a `*` prints `%*` whatever its argument, and the format goes on behind the `*` |
| Stars.StarWordIsIgnored | var/vsprintf.c:143-161 | in every well-typed run another word for a `*` changes neither the text nor any `%n` count |
| Stars.StarredDecimal | var/vsprintf.c:143-150 | `%*d` consumes an argument and prints `%*d` |
| EndToEnd.PrintedNumberReadsBack | var/vsprintf.c:200-228 | whatever any writable numeric directive prints, `strtoul` reads back as the same register and `strtol` as the same signed number, `o` in base 8, `x`, `X` and `p` in base 16, the others in base 10, and with a prefix in base 0 |
| Strings.MemMove | include/string.historical.h:357-377 | for every overlap and length the destination ends with the source bytes as they were, and nothing else changes |
| Strings.Strstr | include/string.historical.h:238-263 | the first occurrence, or NULL exactly when there is none, the empty needle included, without reading past the haystack |
| Strings.CompareAt | include/string.historical.h:248-257 | the zero flag tells whether the needle occurs here, and a mismatch at the terminator means that it cannot occur later |
| Strings.ScanLength | include/string.historical.h:242-246 | the length, from a counter that runs down from 2^32 - 1 |
| Strtok.Tokenizer.Strtok | include/string.historical.h:279-336 | one call: the next token of the text or of the saved rest, one byte of the buffer overwritten at most, the saved pointer moved behind it |
| Strtok.CallsReturnTokens | include/string.historical.h:279-336 | any number of successive calls return the tokens in order and then NULL for ever, and overwrite exactly the byte behind each token returned |
| Strtok.TokensAreMaximalRuns | include/string.historical.h:297-325 | the tokens are the maximal delimiter-free runs of the text: all of them, nothing else, in order |
| Strtok.CutKeepsTokens | include/string.historical.h:309-323 | after the calls each token ends at a NUL and every other byte is as it was |
| Strtok.NoDelimiters | include/string.historical.h:294-296 | with an empty delimiter string every call returns NULL and the text is untouched |
| Strtok.CallsReturnTokensWhen | include/string.historical.h:279-336 | the calls return the tokens if and only if there is a delimiter or the text is empty |
| Interrupts.NextKeepsInv | asm.S:137-179 | every action of processor, stub, handler or thread keeps the invariant of masks, acknowledgements, stack and caches |
| Interrupts.RunKeepsInv | asm.S:137-179 | so does every run |
| Interrupts.MaskingBegins | asm.S:140-142 | when a stub has written the mask, exactly its own line has joined what was masked |
| Interrupts.MaskingEnds | asm.S:148-150 | when a stub has written the mask back, exactly its own line has left it |
| Interrupts.DeliverKeepsInv | idt.c:85-100 | taking a request that is let through keeps the invariant |
| Interrupts.AcceptedIsFresh | idt.c:85-100 | a request that is let through finds no stub of its own line on the stack, only stubs that can be interrupted, and nothing waiting for acknowledgement |
| Interrupts.ShiftTruncates | irq.c:62-62 | the byte `disable_irq` ors in is the shifted `int` cut to eight bits: nothing for lines 8 to 15 |
| Interrupts.HandlerEoiIsNoOp | dev/keyboard.c:65-65 | an end of interrupt sent inside a handler of lines 1 to 15 changes nothing |
| Pic.SetAndClear | asm.S:141-149 | setting or clearing a line's bit touches no other line |
| Pic.SameBits | irq.c:35-36 | two mask bytes with the same lines are the same byte |
| InterruptRuns.MasksAgree | asm.S:137-172 | in every reachable state a line is masked exactly when the last `enable_irq` or `disable_irq` write masked it or it is being served, also between a cache update and its port write |
| InterruptRuns.MasksRestored | irq.c:41-73 | whenever all handlers have returned the masks are what was last written, and equal the caches when no write is owed |
| InterruptRuns.NestingBounded | asm.S:174-179 | no line is served twice at a time, nesting is at most sixteen deep, and the timer is only ever innermost |
| InterruptRuns.AcknowledgedWhenOpen | asm.S:137-179 | whenever interrupts are on, nothing is in service at either controller |
| InterruptRuns.KeyboardEoiHarmless | dev/keyboard.c:58-79 | so the keyboard handler's own end of interrupt acknowledges no other line, in any run |
| InterruptRuns.InterruptTransparent | asm.S:137-179 | from acceptance to its own return, an interrupt with everything nested inside it gives back masks, caches, requests in service, interrupt flag and stack exactly as they were |
| InterruptRuns.ReturnsOpen | asm.S:119-122 | the return to the interrupted code turns interrupts back on |
| InterruptRuns.CallUndisturbed | irq.c:41-73 | whatever interrupts land between the cache update and the port write, nested to any depth, the call leaves the state it would leave undisturbed |
| InterruptRuns.EnableOpensLine | irq.c:41-56 | `enable_irq` unmasks its line and no other on either controller, over every run of the call |
| InterruptRuns.DisableMasksMasterOnly | irq.c:58-73 | over every run of the call, `disable_irq` masks its line if and only if it is one of 0 to 7, and no other line ever; for 8 to 15 both masks are as they were |
| InterruptRuns.ShutOutStays | irq.c:58-73 | a line masked by the kernel is never delivered in any run in which it is not enabled again |
| Delivery.DeliveredOnceEnabled | irq.c:35-56 | after power-up and calls of `enable_irq` for any lines, with interrupts on: a request gets through if and only if its line was enabled or is the cascade; with interrupts off none does; and that state is reached by a run |
| Delivery.DeliveredOnceDisabled | irq.c:58-73 | and after a call of `disable_irq`: the line is shut out if and only if it is one of 0 to 7, and with line 2 the whole slave |
| Delivery.AcceptedExactly | asm.S:137-179 | in every state that keeps the invariant, so in every reachable one: a request gets through if and only if interrupts are on, its line is unmasked by the kernel and not on the stack of stubs, and for the slave the same of line 2 |
| Delivery.StacksReached | asm.S:137-179 | the stacks of nested stubs that runs from power-up build are exactly these: no line twice, the timer innermost, no line of the slave inside line 2 |
| Delivery.SixteenDeep | asm.S:137-179 | some run nests sixteen stubs |
| Delivery.EoiClearsLowest | asm.S:143-144 | an end of interrupt clears the lowest bit in service and no other |
| Delivery.AdmitsWhenNoneAbove | asm.S:143-144 | a request is admitted if and only if no line of the same or a higher priority is in service |
| Stubs.EntryIsRun | asm.S:137-146 | the stub up to the call of its handler is the run of its instructions, for the timer, the master and the slave |
| Stubs.ExitIsRun | asm.S:147-172 | the stub from its handler's return to `iret` is the run of its instructions |
| Stubs.StubUndoesItself | asm.S:137-172 | the two halves of a stub are inverse: a handler that does nothing leaves the machine exactly as it was |
| Stubs.Machine.Hwint | asm.S:137-179 | the straight-line code on the ports leaves the machine in the state in which the handler is called |
| Stubs.Machine.HwintReturn | asm.S:147-172 | the rest of the stub leaves the machine in the state after `iret` |
| Stubs.Machine.EnableInCache | irq.c:45-54 | the cache update of `enable_irq`, a step of its own behind which an interrupt can be taken |
| Stubs.Machine.DisableInCache | irq.c:62-71 | the cache update of `disable_irq`, likewise |
| Stubs.Machine.OutCache | irq.c:49-54 | the port write that completes either call |
| Stubs.Machine.EnableIrq | irq.c:41-56 | the undisturbed call is those two steps; nothing for a number above 15 |
| Stubs.Machine.DisableIrq | irq.c:58-73 | the undisturbed call is those two steps; nothing for a number above 15 |
| Stubs.Machine.constructor | irq.c:35-36 | the machine starts in the state from which `Delivery.DeliveredOnceEnabled` starts: masks and caches 0xFB and 0xFF, nothing in service |
| Terminal.PageIsWindow | video.c:209-259 | for every stream of characters a page stays a window on an unbounded tape: same cells, same cursor, blank below |
| Terminal.ClearedPageIsWindow | video.c:197-259 | in particular from a cleared page: its cells are the last rows the tape has reached |
| Terminal.PutcKeepsWindow | video.c:209-259 | one character, scrolling and tab spill included |
| Terminal.SameCharacter | video.c:214-251 | row and column arithmetic with wrapping is linear motion on the tape |
| Terminal.BelowStaysBlank | video.c:231-240 | whatever a character writes below its own row is blank |
| Terminal.NewLineScrollsEarly | video.c:189-195 | `new_line` does what a printed newline does if and only if the cursor is not in the row before the last, or scrolling changes no cell |
| TerminalText.TabIsEightSpaces | video.c:231-240 | from every cursor, at the end of a row and of the page too, a tab shows exactly what eight spaces show |
| TerminalText.TabIsEightSpacesOnTape | video.c:231-240 | the same on the tape, at every position |
| TerminalText.TextRubbedOut | video.c:225-230 | a text that ends in its row and as many backspaces: the cursor is back, and the cells of the text hold spaces |
| TerminalText.CharacterPrinted | video.c:241-257 | a printed character stands where the cursor was; the cursor goes on by a column, or a row, or the page moves up by one and its last row holds spaces |
| TerminalText.ControlCharacters | video.c:216-224 | a NUL changes nothing, a return goes to the first column, a new line to the first column of the next row or of the last after scrolling |
| TerminalText.BackspaceErases | video.c:225-230 | a backspace steps left and leaves a space there, and does nothing in the first column |
| TerminalText.NewLineOnPage | video.c:189-195 | `new_line` scrolls from row 23 on |
| Video.Screen.Putc | video.c:209-259 | from any cursor whose cell is mapped: the page changes as the page model says, outside it only the cells of the mark past its end, the cursor is on its page afterwards, and the hardware cursor follows |
| Video.Screen.PutMark | video.c:214-245 | from any cursor whose cell is mapped the switch writes exactly one run of cells and moves the cursor |
| Video.Screen.ScrollUp | video.c:175-187 | rows move up by one, the last is blank, no byte outside the page changes |
| Video.Screen.ClearLine | video.c:155-173 | for every line within the mapped memory: those cells are blank and nothing else changes; a negative line is refused |
| Video.ClearedLine | video.c:155-173 | line 25 k + r of a page is line r of the k-th page behind it: that page has the line blank, every other page is as it was |
| Video.ClearLineStaysInside | video.c:155-173 | nothing outside the page is written, whatever memory held, if and only if the line is below 25 |
| Video.LineBelowThePage | video.c:155-173 | line 25 of page 0 leaves page 0 alone and clears the first line of page 1 |
| Video.Screen.Clrscr | video.c:197-207 | every even byte of the page is 32, every odd byte the sum of text and background; the cursor is home, nothing outside the page changes |
| Video.Screen.NewLine | video.c:189-195 | from any cursor the next row, scrolling as soon as the last row is reached; the cursor is on its page afterwards |
| Video.Screen.ChangeVideopage | video.c:141-153 | wherever the cursors are, the two address registers recombine to the first cell of the page and the cursor registers follow its cursor |
| Video.Screen.UpdateHwCursor | video.c:128-137 | the two cursor registers hold the low sixteen bits of the current page's cursor cell |
| Video.Screen.RegistersHoldCell | video.c:128-137 | while every cursor is on its page, the two registers recombine to the whole cell |
| Video.Screen.CursorShowsNextCell | video.c:128-137 | and it is the cell in which the next printed character appears |
| Video.Screen.SetX | video.c:92-96 | any column is stored and shown; every cursor stays on its page if and only if the column is below 80 |
| Video.Screen.SetY | video.c:98-102 | any row is stored and shown; every cursor stays on its page if and only if the row is below 25 |
| Video.Screen.InitVideo | video.c:59-90 | eight page records, page 0 current and cleared, whatever row the boot loader had reached |
| Video.Screen.Printc | video.c:261-265 | one character to the current page, from any cursor whose cell is mapped; from a cursor on the page what spills over lands on the next page and no further |
| Video.Screen.PrintAll | video.c:261-265 | printing a text, character by character as `kprint` does, from any cursor whose cell is mapped, sends every character to the current page, and from a cursor on the page changes no page but it and the next |
| Video.SpillCondition | video.c:214-245 | for every cursor a character writes past its page if and only if it is a tab that ends there, a backspace whose cell lies there or a printed character there; from a cursor on the page, if and only if it is a tab in the last row right of column 72, and then only blanks, in seven cells at most |
| Video.ScrolledCells | video.c:177-183 | moving 24 rows of bytes up and blanking the last one scrolls the cells |
| Video.ScrolledBytes | video.c:175-187 | a page of cells scrolls if and only if its bytes move down by 160 and the last 160 are spaces with the attribute |
| Video.PrintedBytes | video.c:241-244 | a printed character and its attribute are the bytes at 160 per row and 2 per column, and no other byte of the page changes unless it scrolls |
| Keyboard.FromPowerUp | dev/keyboard.c:58-79 | for every scancode stream: it reboots exactly when CTRL-ALT-DEL is in it, and until then all globals agree with the history |
| Keyboard.StreamAgrees | dev/keyboard.c:58-79 | the same from any agreeing state |
| Keyboard.InterruptedAgrees | dev/keyboard.c:58-79 | one interrupt keeps the agreement |
| Keyboard.HeldMeans | dev/keyboard.c:178-248 | a modifier bit is set exactly when the key was pressed at some time and not released since, left and right told apart by the prefix byte |
| Keyboard.ModifiersStep | dev/keyboard.c:178-248 | the handlers keep each modifier bit at "last event was a press" |
| Keyboard.LedsStep | dev/keyboard.c:250-306 | CAPS is the parity of press edges whatever the repeats, the LED always equals it, NUM and SCROLL are parities of presses, and the mirror equals the LEDs |
| Keyboard.PadStep | dev/keyboard.c:308-332 | the pad code is the decimal number typed since the last flush modulo 2^32, and is nonzero only while the left ALT is held |
| Keyboard.RebootStep | dev/keyboard.c:317-321 | the machine reboots if and only if DEL arrives while a control and an alternate key are held |
| Keyboard.PadCodeFits | dev/keyboard.c:328-331 | the `int` that gathers the pad digits overflows on the way if and only if the number they spell is above INT_MAX |
| Keyboard.Codes | dev/keyboard.c:370-435 | which scancodes press and release the modifiers, the locks and the pad |
| KeyboardEcho.StreamTypes | dev/keyboard.c:58-79 | for every stream up to a reboot the text printed is the one its history types, which looks at the scancodes only through the keys held, the parities of the lock keys, and the pad digits |
| KeyboardEcho.ControlCode | dev/keyboard.c:128-152 | a key with CTRL that types its table entry prints the low five bits of it, of the shifted map or with ALTGR of the third map: of a letter its place in the alphabet, whatever SHIFT and CAPS LOCK |
| KeyboardEcho.AltSetsTopBit | dev/keyboard.c:154-160 | the left ALT changes nothing but the eighth bit, and sets it in everything a key prints |
| KeyboardEcho.CapsLockTypes | dev/keyboard.c:128-147 | without CTRL and ALT a key prints its table entry, and after an odd number of presses of CAPS LOCK its upper case: never lower case, SHIFT or not |
| KeyboardEcho.BackspaceAndFunctions | dev/keyboard.c:174-299 | the backspace key prints character 8, F1 to F12 the twelve strings of the layout, nothing under the left ALT |
| KeyboardEcho.ApplicationKeys | dev/keyboard.c:165-353 | for applications Enter, slash and the operators of the pad print nothing; the slash of the pad prints 47 otherwise |
| KeyboardEcho.PadPrints | dev/keyboard.c:308-338 | the pad prints 789-456+1230, under NUM LOCK, key by key: not the cursor block, not a digit under the left ALT, not a reboot |
| KeyboardEcho.SilentCodes | dev/keyboard.c:178-248 | modifiers, locks and unused codes print nothing |
| KeyboardEcho.PadKeys | include/dev/keymap.h:76-76 | the scancodes of the ten pad digits |
| KeyboardEcho.PadKeyTypes | dev/keyboard.c:308-338 | a pad key prints its digit exactly under NUM LOCK and without the left ALT; under the left ALT it prints nothing and the same digit is gathered |
| KeyboardEcho.AltCode | dev/keyboard.c:235-248 | releasing the left ALT prints the gathered code modulo 256 once, if it is not zero modulo 2^32, and starts over |
| KeyboardEcho.AltCodeTypes | dev/keyboard.c:227-248 | ALT down, any digits typed on the pad, ALT up: exactly the character of the number they spell is printed, or nothing for zero |
| KeyboardEcho.AltTilde | dev/keyboard.c:240-245 | ALT and 1, 2, 6 on the pad print character 126 |
| Console.BackspaceRubsOut | dev/keyboard.c:174-176 | a printed character and then the backspace key: the cursor is back and only that cell has changed, to a space, if and only if the character was not in the last column |
| Console.TypedTextIsShown | dev/keyboard.c:58-79 | from power-up and a cleared page, for every stream of scancodes up to a reboot: the page is the window on a terminal given the text the history has typed |
| KeyboardEcho.ReleasesAreSilent | dev/keyboard.c:403-435 | no release prints anything but that of ALT |
| KeyboardDriver.Driver.KeyboardInterrupt | dev/keyboard.c:58-79 | after every scancode the globals agree with the history or the machine has rebooted, the whole text printed so far is the one the history types, and LEDs are sent exactly when they change |
| KeyboardDriver.Driver.CursorKey | dev/keyboard.c:308-338 | reboot, pad code or pad character, in that order |
| KeyboardDriver.Driver.Dispatch | dev/keyboard.c:370-435 | every scancode reaches a handler and stays inside every table |

## Left out

- Numbers.Number: assumes that no decrement of `size` passes INT_MIN, which a precision of about 2^31 or a width near INT_MIN would bring about, and with it undefined behaviour.
- Vsprintf.Vsprintf: assumes that a width or precision is at most 2147483599, because `skip_atoi` adds the character before it subtracts '0' and a larger field overflows an `int`; assumes a buffer of at most 2^31 characters, because the result and the `%n` cells are of type `int`; assumes that string arguments and `%n` cells do not lie inside the output buffer.
- Ucvt.Ucvt: bases 0, 1 and -1, where the C code divides by zero or does not terminate, and -2147483648, which an `int` cannot negate; digits must fit the twelve cells.
- Strtok.Tokenizer.Strtok: all calls are on one buffer; the delimiter set may change between calls, but the theorems about successive calls are for one set.
- NumberIso.AgreesWithC99: `%p` is left to the implementation by C99, `#` on a decimal conversion and `L` on an integer are undefined there; the floating conversions of C99 are unknown to the code and printed back.
- Strings.Strstr: assumes a needle shorter than 2^32 - 1 characters, as the 32-bit counter does.
- Interrupts.NextKeepsInv: handlers do not execute STI and do not call `enable_irq` or `disable_irq`; they may save the flags, clear the interrupt flag and restore, nested to any depth. Spurious requests of the controllers, and the one-instruction delay of STI, are not modelled.
- Video.Screen.Putc: a cursor that `set_x` or `set_y` has put where the next character would write beyond the memory `init_video` maps.
- Video.Screen.ClearLine: a line beyond the memory `init_video` maps is not modelled.
- Video.Screen.InitVideo: the screen is 80 by 25, which `putc` and `clrscr` have built in; the choice between colour and monochrome addresses and the page mapping are left out.
- KeyboardDriver.Driver.KeyboardInterrupt: the acknowledgement of the keyboard port, the waits for the keyboard controller and the reset pulse are left out; the keymap is a parameter.
- Floating-point printing and parsing, `fmod`, `modf` and the x87 wrappers: rounding depends on control words.
- `strtoi`, `rand`, `pow`, `abs`, `min`, `max`, the character predicates on their own, `errno.c`, `progress.c`, `critical.c`: no property beyond their bodies.
- The other routines of include/string.historical.h: the same loops as the ones modelled.
- The memory manager, the file systems, the ramdisk, multiboot loading, system calls, descriptor tables and boot code.
- The log that `kprint` keeps besides printing.
