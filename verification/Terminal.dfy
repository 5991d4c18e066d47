/** One text page as its 80 by 25 cells, and the unbounded terminal it is a window on. */
module Terminal {
  import opened Word32

  const MAX_W: nat := 80
  const MAX_H: nat := 25
  const PAGE_CELLS: nat := 2000
  const TAB_SIZE: nat := 8

  datatype Cell = Cell(ch: Byte, attr: Byte)

  function Blank(attr: Byte): Cell {
    Cell(0x20, attr)
  }

  /** A run of cells written with one value, counted from the first cell of the page or tape. */
  datatype Mark = Mark(from: nat, count: nat, cell: Cell)

  predicate Covers(m: Mark, i: int) {
    m.from <= i < m.from + m.count
  }

  /** A character printed as itself. */
  predicate IsPrinted(ch: Byte) {
    ch != 0 && ch != 8 && ch != 9 && ch != 10 && ch != 13
  }

  /** The cells `putc` writes before it looks at the cursor again. */
  function MarkOf(x: nat, y: nat, attr: Byte, ch: Byte): Mark {
    var here := y * MAX_W + x;
    if ch == 0 || ch == 13 || ch == 10 then Mark(here, 0, Blank(attr))
    else if ch == 8 then if x == 0 then Mark(here, 0, Blank(attr)) else Mark(here - 1, 1, Blank(attr))
    else if ch == 9 then Mark(here, 8, Blank(attr))
    else Mark(here, 1, Cell(ch, attr))
  }

  /** Where the switch of `putc` leaves the cursor, past the end of the row perhaps. */
  function Advance(x: nat, y: nat, ch: Byte): (nat, nat) {
    if ch == 0 then (x, y)
    else if ch == 13 then (0, y)
    else if ch == 10 then (0, (y + 1) % 0x1_0000_0000)
    else if ch == 8 then (if x == 0 then x else x - 1, y)
    else if ch == 9 then (x + TAB_SIZE, y)
    else (x + 1, y)
  }

  /** Where `putc` moves the cursor: a column past the end of the row is taken into the row it belongs to. */
  function Move(x: nat, y: nat, ch: Byte): (nat, nat) {
    Wrap(Advance(x, y, ch).0, Advance(x, y, ch).1)
  }

  function Wrap(x: nat, y: nat): (nat, nat) {
    if x >= MAX_W then (x % MAX_W, (y + x / MAX_W) % 0x1_0000_0000) else (x, y)
  }

  lemma WrapStaysInRow(x: nat, y: nat)
    ensures Wrap(x, y).0 < MAX_W
  {
  }

  lemma MoveStaysNear(x: nat, y: nat, ch: Byte)
    requires x < MAX_W && y < MAX_H
    ensures Move(x, y, ch).0 < MAX_W && y <= Move(x, y, ch).1 <= y + 1
  {
  }

  /** A page in video memory. */
  datatype Page = Page(cells: seq<Cell>, x: nat, y: nat)

  predicate PageOk(p: Page) {
    |p.cells| == PAGE_CELLS && p.x < MAX_W && p.y < MAX_H
  }

  function Cleared(attr: Byte): Page {
    Page(seq(PAGE_CELLS, _ => Blank(attr)), 0, 0)
  }

  /** The part of a mark that lies on the page. */
  function Marked(cells: seq<Cell>, m: Mark): (r: seq<Cell>)
    ensures |r| == |cells|
    ensures forall i :: 0 <= i < |r| ==> r[i] == if Covers(m, i) then m.cell else cells[i]
  {
    seq(|cells|, i requires 0 <= i < |cells| => if Covers(m, i) then m.cell else cells[i])
  }

  /** Every row moves up, the last one is cleared. */
  function ScrolledUp(cells: seq<Cell>, attr: Byte): (r: seq<Cell>)
    requires |cells| == PAGE_CELLS
    ensures |r| == PAGE_CELLS
    ensures forall i :: 0 <= i < PAGE_CELLS - MAX_W ==> r[i] == cells[i + MAX_W]
    ensures forall i :: PAGE_CELLS - MAX_W <= i < PAGE_CELLS ==> r[i] == Blank(attr)
  {
    seq(PAGE_CELLS, i requires 0 <= i < PAGE_CELLS =>
      if i < PAGE_CELLS - MAX_W then cells[i + MAX_W] else Blank(attr))
  }

  /** `putc`, on the cells of its own page. Wherever the cursor was, it is on the page afterwards. */
  function PutcPage(p: Page, attr: Byte, ch: Byte): (r: Page)
    requires |p.cells| == PAGE_CELLS
    ensures PageOk(r)
  {
    var cells := Marked(p.cells, MarkOf(p.x, p.y, attr, ch));
    var (x, y) := Move(p.x, p.y, ch);
    if y >= MAX_H then Page(ScrolledUp(cells, attr), x, MAX_H - 1) else Page(cells, x, y)
  }

  function NewLinePage(p: Page, attr: Byte): (r: Page)
    requires |p.cells| == PAGE_CELLS
    ensures PageOk(r)
  {
    var y := (p.y + 1) % 0x1_0000_0000;
    if y >= MAX_H - 1 then Page(ScrolledUp(p.cells, attr), 0, MAX_H - 1) else Page(p.cells, 0, y)
  }

  /**
   * `new_line` scrolls when it reaches the last row, `putc` of a newline when it leaves it: they do the same except
   * from the row before the last, and there too if scrolling shows no difference.
   */
  lemma {:induction false} NewLineScrollsEarly(p: Page, attr: Byte)
    requires PageOk(p)
    ensures NewLinePage(p, attr) == PutcPage(p, attr, 10) <==> p.y != MAX_H - 2 || ScrolledUp(p.cells, attr) == p.cells
  {
    hide ScrolledUp;
    assert Marked(p.cells, MarkOf(p.x, p.y, attr, 10)) == p.cells;
  }

  /** A terminal that never scrolls: one long tape of cells and a position on it. A cell not in the map is blank. */
  datatype Tape = Tape(cells: map<nat, Cell>, pos: nat)

  function Read(t: Tape, attr: Byte, i: nat): Cell {
    if i in t.cells then t.cells[i] else Blank(attr)
  }

  function TapeMark(pos: nat, attr: Byte, ch: Byte): Mark {
    if ch == 9 then Mark(pos, TAB_SIZE, Blank(attr))
    else if ch == 8 && pos % MAX_W != 0 then Mark(pos - 1, 1, Blank(attr))
    else if ch == 0 || ch == 8 || ch == 10 || ch == 13 then Mark(pos, 0, Blank(attr))
    else Mark(pos, 1, Cell(ch, attr))
  }

  /**
   * Printing moves one cell on, a tab eight; a new line goes to the next multiple of the width, a return back to the
   * last.
   */
  function TapeMove(pos: nat, ch: Byte): nat {
    if ch == 0 then pos
    else if ch == 13 then pos - pos % MAX_W
    else if ch == 10 then pos - pos % MAX_W + MAX_W
    else if ch == 8 then (if pos % MAX_W == 0 then pos else pos - 1)
    else if ch == 9 then pos + TAB_SIZE
    else pos + 1
  }

  function PutcTape(t: Tape, attr: Byte, ch: Byte): Tape {
    var m := TapeMark(t.pos, attr, ch);
    Tape(t.cells + map i: nat | m.from <= i < m.from + m.count && Covers(m, i) :: m.cell, TapeMove(t.pos, ch))
  }

  lemma ReadAfter(t: Tape, attr: Byte, ch: Byte, i: nat)
    ensures var m := TapeMark(t.pos, attr, ch);
      Read(PutcTape(t, attr, ch), attr, i) == if Covers(m, i) then m.cell else Read(t, attr, i)
  {
    hide TapeMark, TapeMove;
  }

  function PutAll(p: Page, attr: Byte, stream: seq<Byte>): (r: Page)
    requires |p.cells| == PAGE_CELLS
    ensures |r.cells| == PAGE_CELLS && (PageOk(p) || stream != [] ==> PageOk(r))
    decreases |stream|
  {
    if stream == [] then p else PutAll(PutcPage(p, attr, stream[0]), attr, stream[1..])
  }

  function PutAllTape(t: Tape, attr: Byte, stream: seq<Byte>): Tape
    decreases |stream|
  {
    if stream == [] then t else PutAllTape(PutcTape(t, attr, stream[0]), attr, stream[1..])
  }

  /** How many rows have left the page by the time the tape's position is in row `y`. */
  function Gone(y: nat): nat {
    if y < MAX_H then 0 else y - (MAX_H - 1)
  }

  function Row(t: Tape): nat {
    t.pos / MAX_W
  }

  /**
   * The page is the tape seen through a window of 25 rows that ends at the row of the position, or at the last row of
   * the page; and the tape is blank below that row.
   */
  ghost predicate Window(p: Page, t: Tape, attr: Byte) {
    && PageOk(p)
    && p.x == t.pos % MAX_W && p.y + Gone(Row(t)) == Row(t)
    && (forall i :: 0 <= i < PAGE_CELLS ==> p.cells[i] == Read(t, attr, Gone(Row(t)) * MAX_W + i))
    && (forall i: nat :: (Row(t) + 1) * MAX_W <= i ==> Read(t, attr, i) == Blank(attr))
  }

  /** The same character, seen from the page and from the tape `k` rows further down. */
  lemma SameCharacter(x: nat, y: nat, k: nat, attr: Byte, ch: Byte)
    requires x < MAX_W && y < MAX_H
    ensures var pos := (y + k) * MAX_W + x;
      var m, n := MarkOf(x, y, attr, ch), TapeMark(pos, attr, ch);
      && n == Mark(m.from + k * MAX_W, m.count, m.cell)
      && TapeMove(pos, ch) == (Move(x, y, ch).1 + k) * MAX_W + Move(x, y, ch).0
  {
    var pos := (y + k) * MAX_W + x;
    assert pos % MAX_W == x;
  }

  /** Anything a character writes below its own row is blank. */
  lemma SpillIsBlank(pos: nat, attr: Byte, ch: Byte)
    ensures var m := TapeMark(pos, attr, ch);
      forall i :: Covers(m, i) && (pos / MAX_W + 1) * MAX_W <= i ==> m.cell == Blank(attr)
  {
  }

  lemma RowNeverFalls(pos: nat, ch: Byte)
    ensures pos / MAX_W <= TapeMove(pos, ch) / MAX_W
  {
    var q, r := pos / MAX_W, pos % MAX_W;
    assert pos == q * MAX_W + r;
    if ch == 13 {
      Position(0, q);
    } else if ch == 8 && r != 0 {
      Position(r - 1, q);
    }
  }

  lemma Position(x: nat, y: nat)
    requires x < MAX_W
    ensures (y * MAX_W + x) % MAX_W == x && (y * MAX_W + x) / MAX_W == y
  {
  }

  lemma BelowStaysBlank(t: Tape, attr: Byte, ch: Byte)
    requires forall i: nat :: (Row(t) + 1) * MAX_W <= i ==> Read(t, attr, i) == Blank(attr)
    ensures var u := PutcTape(t, attr, ch);
      forall i: nat :: (Row(t) + 1) * MAX_W <= i ==> Read(u, attr, i) == Blank(attr)
    ensures Row(t) <= Row(PutcTape(t, attr, ch))
  {
    SpillIsBlank(t.pos, attr, ch);
    RowNeverFalls(t.pos, ch);
    var u := PutcTape(t, attr, ch);
    assert Row(t) <= Row(u);
    hide PutcTape, TapeMark, TapeMove;
    forall i: nat | (Row(t) + 1) * MAX_W <= i ensures Read(u, attr, i) == Blank(attr) {
      ReadAfter(t, attr, ch, i);
    }
  }

  lemma MovedWindow(p: Page, t: Tape, attr: Byte, ch: Byte)
    requires Window(p, t, attr)
    ensures var u := PutcTape(t, attr, ch);
      u.pos % MAX_W == Move(p.x, p.y, ch).0 && Row(u) == Move(p.x, p.y, ch).1 + Gone(Row(t))
  {
    hide Read, MarkOf, TapeMark;
    var k := Gone(Row(t));
    SameCharacter(p.x, p.y, k, attr, ch);
    MoveStaysNear(p.x, p.y, ch);
    hide Move, TapeMove, PageOk;
    Position(Move(p.x, p.y, ch).0, Move(p.x, p.y, ch).1 + k);
    assert t.pos == (p.y + k) * MAX_W + p.x;
  }

  /** Before the row is checked, the page still shows the same window. */
  lemma MarkedWindow(p: Page, t: Tape, attr: Byte, ch: Byte)
    requires Window(p, t, attr)
    ensures var u := PutcTape(t, attr, ch);
      forall i :: 0 <= i < PAGE_CELLS ==>
        Marked(p.cells, MarkOf(p.x, p.y, attr, ch))[i] == Read(u, attr, Gone(Row(t)) * MAX_W + i)
  {
    hide PutcTape, MarkOf, TapeMark, TapeMove, Move, Read;
    var k := Gone(Row(t));
    assert t.pos == (p.y + k) * MAX_W + p.x;
    SameCharacter(p.x, p.y, k, attr, ch);
    var m, u := MarkOf(p.x, p.y, attr, ch), PutcTape(t, attr, ch);
    forall i | 0 <= i < PAGE_CELLS ensures Marked(p.cells, m)[i] == Read(u, attr, k * MAX_W + i) {
      ReadAfter(t, attr, ch, k * MAX_W + i);
    }
  }

  lemma {:induction false} PutcKeepsWindow(p: Page, t: Tape, attr: Byte, ch: Byte)
    requires Window(p, t, attr)
    ensures Window(PutcPage(p, attr, ch), PutcTape(t, attr, ch), attr)
  {
    hide MarkOf, TapeMark, TapeMove, Move, Read, Marked, ScrolledUp, PutcTape;
    MarkedWindow(p, t, attr, ch);
    MovedWindow(p, t, attr, ch);
    MoveStaysNear(p.x, p.y, ch);
    BelowStaysBlank(t, attr, ch);
    var m, q, u := MarkOf(p.x, p.y, attr, ch), PutcPage(p, attr, ch), PutcTape(t, attr, ch);
    if Move(p.x, p.y, ch).1 >= MAX_H {
      forall i | 0 <= i < PAGE_CELLS ensures q.cells[i] == Read(u, attr, Gone(Row(u)) * MAX_W + i) {
        if i < PAGE_CELLS - MAX_W {
          assert q.cells[i] == Marked(p.cells, m)[i + MAX_W];
          assert Gone(Row(u)) * MAX_W + i == Gone(Row(t)) * MAX_W + (i + MAX_W);
        }
      }
    } else {
      assert Gone(Row(u)) == Gone(Row(t));
    }
  }

  /**
   * The window simulation, for every stream of characters sent to a page: the cells are the last rows an unbounded
   * terminal has reached, and the cursor is its cursor.
   */
  lemma {:induction false} PageIsWindow(p: Page, t: Tape, attr: Byte, stream: seq<Byte>)
    requires Window(p, t, attr)
    ensures |p.cells| == PAGE_CELLS && Window(PutAll(p, attr, stream), PutAllTape(t, attr, stream), attr)
    decreases |stream|
  {
    hide PutcPage, PutcTape, Read;
    if stream != [] {
      PutcKeepsWindow(p, t, attr, stream[0]);
      PageIsWindow(PutcPage(p, attr, stream[0]), PutcTape(t, attr, stream[0]), attr, stream[1..]);
    }
  }

  lemma ClearedPageIsWindow(attr: Byte, stream: seq<Byte>)
    ensures Window(PutAll(Cleared(attr), attr, stream), PutAllTape(Tape(map[], 0), attr, stream), attr)
  {
    PageIsWindow(Cleared(attr), Tape(map[], 0), attr, stream);
  }
}
