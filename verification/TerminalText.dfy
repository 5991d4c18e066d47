/** What the characters sent to a page make it show: spaces and tabs, control characters, text rubbed out. */
module TerminalText {
  import opened Word32
  import opened Terminal

  function Spaces(n: nat): seq<Byte> {
    seq(n, _ => 32)
  }

  lemma SpacesSplit(a: nat, b: nat)
    ensures Spaces(a + b) == Spaces(a) + Spaces(b)
  {
  }

  lemma {:induction false} PutAllAppend(p: Page, attr: Byte, s: seq<Byte>, t: seq<Byte>)
    requires |p.cells| == PAGE_CELLS
    ensures PutAll(p, attr, s + t) == PutAll(PutAll(p, attr, s), attr, t)
    decreases |s|
  {
    hide PutcPage;
    if s == [] {
      assert [] + t == t;
    } else {
      assert (s + t)[1..] == s[1..] + t;
      PutAllAppend(PutcPage(p, attr, s[0]), attr, s[1..], t);
    }
  }

  /** A row of spaces. */
  function BlankRow(attr: Byte): (r: seq<Cell>)
    ensures |r| == 80 && forall i :: 0 <= i < 80 ==> r[i] == Cell(32, attr)
  {
    seq(80, _ => Cell(32, attr))
  }

  // ---- one character ----

  /** A printed character stands where the cursor was; the cursor goes one column on, or to the row below. */
  lemma CharacterPrinted(p: Page, attr: Byte, ch: Byte)
    requires PageOk(p) && IsPrinted(ch)
    ensures var shown := p.cells[p.y * 80 + p.x := Cell(ch, attr)];
      PutcPage(p, attr, ch) ==
        if p.x < 79 then Page(shown, p.x + 1, p.y)
        else if p.y < 24 then Page(shown, 0, p.y + 1)
        else Page(shown[80..] + BlankRow(attr), 0, 24)
  {
    var shown := p.cells[p.y * 80 + p.x := Cell(ch, attr)];
    assert Marked(p.cells, MarkOf(p.x, p.y, attr, ch)) == shown;
    assert ScrolledUp(shown, attr) == shown[80..] + BlankRow(attr);
  }

  /** Nothing for a NUL, the first column for a return, the row below for a new line. */
  lemma ControlCharacters(p: Page, attr: Byte)
    requires PageOk(p)
    ensures PutcPage(p, attr, 0) == p
    ensures PutcPage(p, attr, 13) == p.(x := 0)
    ensures PutcPage(p, attr, 10) ==
      if p.y < 24 then p.(x := 0, y := p.y + 1) else Page(p.cells[80..] + BlankRow(attr), 0, 24)
  {
    hide ScrolledUp;
    assert Marked(p.cells, MarkOf(p.x, p.y, attr, 0)) == p.cells;
    assert Marked(p.cells, MarkOf(p.x, p.y, attr, 13)) == p.cells;
    assert Marked(p.cells, MarkOf(p.x, p.y, attr, 10)) == p.cells;
    assert ScrolledUp(p.cells, attr) == p.cells[80..] + BlankRow(attr);
  }

  /** `new_line` scrolls from the row before the last already. */
  lemma NewLineOnPage(p: Page, attr: Byte)
    requires PageOk(p)
    ensures NewLinePage(p, attr) ==
      if p.y < 23 then p.(x := 0, y := p.y + 1) else Page(p.cells[80..] + BlankRow(attr), 0, 24)
  {
    hide ScrolledUp;
    assert ScrolledUp(p.cells, attr) == p.cells[80..] + BlankRow(attr);
  }

  /** A backspace steps left and leaves a space there; it does not leave the row. */
  lemma BackspaceErases(p: Page, attr: Byte)
    requires PageOk(p)
    ensures PutcPage(p, attr, 8) ==
      if p.x == 0 then p else Page(p.cells[p.y * 80 + p.x - 1 := Cell(32, attr)], p.x - 1, p.y)
  {
    var cells := Marked(p.cells, MarkOf(p.x, p.y, attr, 8));
    assert p.x == 0 ==> cells == p.cells;
    assert p.x != 0 ==> cells == p.cells[p.y * 80 + p.x - 1 := Cell(32, attr)];
  }

  // ---- a tab is eight spaces ----

  /** Cells in a row replaced by spaces. */
  function Blanked(cells: seq<Cell>, from: nat, count: nat, attr: Byte): (r: seq<Cell>)
    ensures |r| == |cells|
    ensures forall i :: 0 <= i < |r| ==> r[i] == if from <= i < from + count then Cell(32, attr) else cells[i]
  {
    Marked(cells, Mark(from, count, Cell(32, attr)))
  }

  lemma {:induction false} SpacesInRow(p: Page, attr: Byte, n: nat)
    requires PageOk(p) && p.x + n < 80
    ensures PutAll(p, attr, Spaces(n)) == Page(Blanked(p.cells, p.y * 80 + p.x, n, attr), p.x + n, p.y)
    decreases n
  {
    hide PutcPage;
    if n == 0 {
      assert Blanked(p.cells, p.y * 80 + p.x, 0, attr) == p.cells;
    } else {
      CharacterPrinted(p, attr, 32);
      assert Spaces(n)[1..] == Spaces(n - 1);
      var q := PutcPage(p, attr, 32);
      SpacesInRow(q, attr, n - 1);
      assert Blanked(q.cells, p.y * 80 + p.x + 1, n - 1, attr) == Blanked(p.cells, p.y * 80 + p.x, n, attr);
    }
  }

  /** Spaces to the end of the row. */
  lemma {:induction false} SpacesToEnd(p: Page, attr: Byte)
    requires PageOk(p)
    ensures var shown := Blanked(p.cells, p.y * 80 + p.x, 80 - p.x, attr);
      PutAll(p, attr, Spaces(80 - p.x)) ==
        if p.y < 24 then Page(shown, 0, p.y + 1) else Page(shown[80..] + BlankRow(attr), 0, 24)
  {
    var n := 79 - p.x;
    SpacesSplit(n, 1);
    PutAllAppend(p, attr, Spaces(n), Spaces(1));
    SpacesInRow(p, attr, n);
    var q := PutAll(p, attr, Spaces(n));
    OneSpace(q, attr);
    CharacterPrinted(q, attr, 32);
    assert q.cells[p.y * 80 + 79 := Cell(32, attr)] == Blanked(p.cells, p.y * 80 + p.x, 80 - p.x, attr);
  }

  lemma OneSpace(p: Page, attr: Byte)
    requires |p.cells| == PAGE_CELLS
    ensures PutAll(p, attr, Spaces(1)) == PutcPage(p, attr, 32)
  {
    hide PutcPage;
    assert Spaces(1) == [32];
    assert [32][1..] == [];
  }

  /** A tab in the terms of the page. */
  lemma TabOnPage(p: Page, attr: Byte)
    requires PageOk(p)
    ensures var shown := Blanked(p.cells, p.y * 80 + p.x, 8, attr);
      PutcPage(p, attr, 9) ==
        if p.x < 72 then Page(shown, p.x + 8, p.y)
        else if p.y < 24 then Page(shown, p.x - 72, p.y + 1)
        else Page(shown[80..] + BlankRow(attr), p.x - 72, 24)
  {
    var shown := Blanked(p.cells, p.y * 80 + p.x, 8, attr);
    assert Marked(p.cells, MarkOf(p.x, p.y, attr, 9)) == shown;
    assert ScrolledUp(shown, attr) == shown[80..] + BlankRow(attr);
  }

  lemma {:induction false} SpacesAcrossRows(p: Page, attr: Byte)
    requires PageOk(p) && p.x >= 72
    ensures var shown := Blanked(p.cells, p.y * 80 + p.x, 8, attr);
      PutAll(p, attr, Spaces(8)) ==
        if p.y < 24 then Page(shown, p.x - 72, p.y + 1)
        else Page(shown[80..] + BlankRow(attr), p.x - 72, 24)
  {
    var n := p.x - 72;
    SpacesSplit(80 - p.x, n);
    PutAllAppend(p, attr, Spaces(80 - p.x), Spaces(n));
    SpacesToEnd(p, attr);
    hide *;
    var q := PutAll(p, attr, Spaces(80 - p.x));
    SpacesInRow(q, attr, n);
    RowsJoined(p, attr, n);
  }

  lemma EightSpaces()
    ensures Spaces(8) == [32, 32, 32, 32, 32, 32, 32, 32]
  {
  }

  /** From every cursor, at the end of a row and of the page too: a tab shows what eight spaces show. */
  lemma {:induction false} TabIsEightSpaces(p: Page, attr: Byte)
    requires PageOk(p)
    ensures PutcPage(p, attr, 9) == PutAll(p, attr, [32, 32, 32, 32, 32, 32, 32, 32])
  {
    EightSpaces();
    TabOnPage(p, attr);
    hide PutcPage, PutAll, Spaces, Blanked;
    if p.x < 72 {
      SpacesInRow(p, attr, 8);
    } else {
      SpacesAcrossRows(p, attr);
    }
  }

  /** Spaces to the end of a row and `n` on the next are one run of spaces, scrolled or not. */
  lemma RowsJoined(p: Page, attr: Byte, n: nat)
    requires PageOk(p) && p.x == 72 + n
    ensures var here := p.y * 80 + p.x;
      var row, run := Blanked(p.cells, here, 80 - p.x, attr), Blanked(p.cells, here, 8, attr);
      && (p.y < 24 ==> Blanked(row, (p.y + 1) * 80, n, attr) == run)
      && Blanked(row[80..] + BlankRow(attr), 24 * 80, n, attr) == row[80..] + BlankRow(attr)
      && (p.y == 24 ==> row[80..] == run[80..])
  {
    hide Blanked;
  }

  lemma SpaceOnTape(t: Tape, attr: Byte, i: nat)
    ensures var u := PutcTape(t, attr, 32);
      u.pos == t.pos + 1 && Read(u, attr, i) == if i == t.pos then Cell(32, attr) else Read(t, attr, i)
  {
    ReadAfter(t, attr, 32, i);
    hide Read;
  }

  lemma {:induction false} SpacesOnTape(t: Tape, attr: Byte, n: nat, i: nat)
    ensures var u := PutAllTape(t, attr, Spaces(n));
      && u.pos == t.pos + n
      && Read(u, attr, i) == if t.pos <= i < t.pos + n then Cell(32, attr) else Read(t, attr, i)
    decreases n
  {
    hide Read, PutcTape;
    if n > 0 {
      assert Spaces(n)[1..] == Spaces(n - 1);
      SpaceOnTape(t, attr, i);
      SpacesOnTape(PutcTape(t, attr, 32), attr, n - 1, i);
    }
  }

  lemma TabOnTape(t: Tape, attr: Byte, i: nat)
    ensures var u := PutcTape(t, attr, 9);
      u.pos == t.pos + 8 && Read(u, attr, i) == if t.pos <= i < t.pos + 8 then Cell(32, attr) else Read(t, attr, i)
  {
    ReadAfter(t, attr, 9, i);
    hide Read;
  }

  /** The same on the tape, at every position. */
  lemma {:induction false} TabIsEightSpacesOnTape(t: Tape, attr: Byte)
    ensures var u, v := PutcTape(t, attr, 9), PutAllTape(t, attr, [32, 32, 32, 32, 32, 32, 32, 32]);
      u.pos == v.pos && forall i: nat :: Read(u, attr, i) == Read(v, attr, i)
  {
    var eight := [32, 32, 32, 32, 32, 32, 32, 32];
    EightSpaces();
    hide Read, PutcTape, Spaces;
    var u, v := PutcTape(t, attr, 9), PutAllTape(t, attr, eight);
    forall i: nat ensures u.pos == v.pos && Read(u, attr, i) == Read(v, attr, i) {
      TabOnTape(t, attr, i);
      SpacesOnTape(t, attr, 8, i);
    }
    TabOnTape(t, attr, 0);
    SpacesOnTape(t, attr, 8, 0);
  }

  // ---- text rubbed out ----

  function Backspaces(n: nat): seq<Byte> {
    seq(n, _ => 8)
  }

  /** Text that ends in its own row, and as many backspaces: the cursor is back and its cells hold spaces. */
  lemma {:induction false} TextRubbedOut(p: Page, attr: Byte, text: seq<Byte>)
    requires PageOk(p) && (forall k :: 0 <= k < |text| ==> IsPrinted(text[k])) && p.x + |text| < 80
    ensures PutAll(p, attr, text + Backspaces(|text|))
         == Page(Blanked(p.cells, p.y * 80 + p.x, |text|, attr), p.x, p.y)
    decreases |text|
  {
    hide PutcPage, Blanked;
    var n := |text|;
    if n == 0 {
      assert text + Backspaces(0) == [];
      assert Blanked(p.cells, p.y * 80 + p.x, 0, attr) == p.cells;
    } else {
      var q := PutcPage(p, attr, text[0]);
      CharacterPrinted(p, attr, text[0]);
      TextRubbedOut(q, attr, text[1..]);
      var inner := text[1..] + Backspaces(n - 1);
      assert text + Backspaces(n) == [text[0]] + (inner + [8]);
      assert ([text[0]] + (inner + [8]))[1..] == inner + [8];
      PutAllAppend(q, attr, inner, [8]);
      var r := PutAll(q, attr, inner);
      assert PutAll(r, attr, [8]) == PutcPage(r, attr, 8) by {
        assert [8][1..] == [];
      }
      BackspaceErases(r, attr);
      assert r.cells[p.y * 80 + p.x := Cell(32, attr)] == Blanked(p.cells, p.y * 80 + p.x, n, attr);
    }
  }
}
