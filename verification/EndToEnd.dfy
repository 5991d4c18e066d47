/** From a format string to text and back to the number: `vsprintf`, then `strtol` or `strtoul`. */
module EndToEnd {
  import opened Word32
  import N = Numbers
  import opened Strtol
  import opened RoundTrip
  import opened Format
  import opened Canonical
  import opened Wrappers

  lemma OneDirectivePrints(d: Item, w: Word)
    requires d.Directive? && Writable(d) && IsNumeric(d.conv)
    ensures WellTyped(Parse(WriteAll([d]), 0), [Number(w)], 0)
    ensures Render(Parse(WriteAll([d]), 0), [Number(w)], 0)
         == N.NumberText(w, NumberBase(d.conv), NumberWidth(d), d.precision, NumberFlags(d))
  {
    hide N.NumberText, NumberFlags, NumberWidth, NumberBase;
    WrittenFormatPrints([d], [Number(w)], 0);
    assert [d][1..] == [];
    assert [Number(w)][1..] == [];
    var text := RenderItem(d, Some(Number(w)));
    assert text + "" == text;
  }

  /** The bases to read a conversion back in: its own, or 0 if the text has a prefix to tell it by. */
  predicate ReadsAs(d: Item, base: int)
    requires d.Directive?
  {
    if d.conv == 'o' then base == 8 || (base == 0 && d.flags.special)
    else if d.conv == 'x' || d.conv == 'X' || d.conv == 'p' then base == 16 || (base == 0 && d.flags.special)
    else base == 10
  }

  /**
   * Any numeric directive that can be written down, whatever its flags, width, precision and qualifier: what `vsprintf`
   * prints for it, `strtoul` reads back as the same register contents, and `strtol` as the same signed number if the
   * conversion was signed.
   */
  lemma PrintedNumberReadsBack(d: Item, w: Word, base: int)
    requires d.Directive? && Writable(d) && IsNumeric(d.conv) && ReadsAs(d, base)
    ensures WellTyped(Parse(WriteAll([d]), 0), [Number(w)], 0)
    ensures var text := Render(Parse(WriteAll([d]), 0), [Number(w)], 0);
      && UnsignedResult(text, base) == w
      && (d.conv == 'd' || d.conv == 'i' ==> Clamp(SignedValue(text, base)) == Signed(w))
  {
    OneDirectivePrints(d, w);
    hide N.NumberText, UnsignedResult, SignedValue, Clamp, Render, Parse, WellTyped, WriteAll, Writable;
    StrtoulReadsBack(w, NumberBase(d.conv), NumberWidth(d), d.precision, NumberFlags(d), base);
    StrtolReadsBack(w, NumberBase(d.conv), NumberWidth(d), d.precision, NumberFlags(d), base);
  }
}
