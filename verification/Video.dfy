/** The text pages of video.c: bytes of video memory, page records, and the two registers of the hardware cursor. */
module Video {
  import opened Word32
  import opened Terminal
  import S = Strings

  const MAX_VIDEOPAGES: nat := 8
  const PAGE_BYTES: nat := 4000
  /** The whole pages `init_video` maps: eight of 4096 bytes. */
  const MAPPED_BYTES: nat := 32768

  /** `struct videopage`; the address is an offset into video memory. */
  datatype VideoPage = VideoPage(addr: nat, x: nat, y: nat, text: nat, back: nat)

  predicate RecordOk(vp: VideoPage, n: nat) {
    vp.addr == PAGE_BYTES * n && vp.text < 16 && vp.back < 16
  }

  /** `vp->text + vp->back`: the two nibbles are added, not packed. */
  function Attr(vp: VideoPage): Byte
    requires vp.text < 16 && vp.back < 16
  {
    vp.text + vp.back
  }

  /** Cell `i` of the page at offset `a`: a character byte and an attribute byte. */
  function CellAt(mem: seq<Byte>, a: nat, i: nat): Cell
    requires a + 2 * i + 1 < |mem|
  {
    Cell(mem[a + 2 * i], mem[a + 2 * i + 1])
  }

  function CellsAt(mem: seq<Byte>, a: nat): (r: seq<Cell>)
    requires a + PAGE_BYTES <= |mem|
    ensures |r| == PAGE_CELLS
    ensures forall i :: 0 <= i < PAGE_CELLS ==> r[i] == CellAt(mem, a, i)
  {
    seq(PAGE_CELLS, i requires 0 <= i < PAGE_CELLS => CellAt(mem, a, i))
  }

  /** `count` cells from byte `at` on now hold `cell`, and no other byte has changed. */
  ghost predicate Filled(before: seq<Byte>, after: seq<Byte>, at: nat, count: nat, cell: Cell) {
    && |after| == |before| && (count == 0 || at + 2 * count <= |before|)
    && (forall i :: 0 <= i < count ==> CellAt(after, at, i) == cell)
    && (forall j :: 0 <= j < |before| && !(at <= j < at + 2 * count) ==> after[j] == before[j])
  }

  lemma FilledNone(mem: seq<Byte>, at: nat, cell: Cell)
    ensures Filled(mem, mem, at, 0, cell)
  {
  }

  lemma FilledCells(before: seq<Byte>, after: seq<Byte>, a: nat, m: Mark)
    requires a + PAGE_BYTES <= |before|
    requires Filled(before, after, a + 2 * m.from, m.count, m.cell)
    ensures CellsAt(after, a) == Marked(CellsAt(before, a), m)
  {
    forall i | 0 <= i < PAGE_CELLS ensures CellAt(after, a, i) == Marked(CellsAt(before, a), m)[i] {
      if Covers(m, i) {
        assert CellAt(after, a + 2 * m.from, i - m.from) == m.cell;
      }
    }
  }

  /** The first byte of a line, counted from the top of page `n`. */
  function LineAt(n: nat, line: nat): nat {
    PAGE_BYTES * n + 2 * MAX_W * line
  }

  /** The cells of a mark on page `n` are in mapped memory, on whichever page they lie. */
  predicate InMemory(n: nat, m: Mark) {
    m.count == 0 || PAGE_BYTES * n + 2 * (m.from + m.count) <= MAPPED_BYTES
  }

  class Screen {
    const mem: array<Byte>
    const videopgs: array<VideoPage>
    /** `cp_index`; `curpage` points at this record. */
    var cpIndex: nat
    /** The registers behind the index port at `ioaddr` and the data port at `ioaddr + 1`. */
    const crtc: array<Byte>
    var crtcIndex: nat

    ghost predicate Shape()
      reads this, mem, videopgs, crtc
    {
      && mem.Length == MAPPED_BYTES && videopgs.Length == MAX_VIDEOPAGES && crtc.Length == 0x100
      && cpIndex < MAX_VIDEOPAGES
      && forall n :: 0 <= n < MAX_VIDEOPAGES ==> RecordOk(videopgs[n], n)
    }

    /** The cell the cursor is on, counted from the start of video memory. */
    ghost function CursorCell(): nat
      requires Shape()
      reads this, mem, videopgs, crtc
    {
      var vp := videopgs[cpIndex];
      vp.addr / 2 + vp.y * MAX_W + vp.x
    }

    /** The hardware cursor is on that cell, as far as the sixteen bits of its two registers go. */
    ghost predicate CursorOk()
      requires Shape()
      reads this, mem, videopgs, crtc
    {
      crtc[14] as int * 0x100 + crtc[15] as int == CursorCell() % 0x1_0000
    }

    /** Every page's cursor is on its page, and the hardware cursor is where the current page's is. */
    ghost predicate Valid()
      reads this, mem, videopgs, crtc
    {
      && Shape()
      && (forall n :: 0 <= n < MAX_VIDEOPAGES ==> videopgs[n].x < MAX_W && videopgs[n].y < MAX_H)
      && CursorOk()
    }

    ghost predicate OnPage(n: nat)
      requires Shape() && n < MAX_VIDEOPAGES
      reads this, mem, videopgs, crtc
    {
      videopgs[n].x < MAX_W && videopgs[n].y < MAX_H
    }

    /** The cells `putc` is about to write. */
    ghost function NextMark(n: nat, ch: Byte): Mark
      requires Shape() && n < MAX_VIDEOPAGES
      reads this, mem, videopgs, crtc
    {
      MarkOf(videopgs[n].x, videopgs[n].y, Attr(videopgs[n]), ch)
    }

    /** With every cursor on its page, sixteen bits hold the whole cell. */
    lemma RegistersHoldCell()
      requires Valid()
      ensures crtc[14] as int * 0x100 + crtc[15] as int == CursorCell()
    {
    }

    /** And there the next printed character goes. */
    lemma CursorShowsNextCell(ch: Byte)
      requires Valid() && IsPrinted(ch)
      ensures NextMark(cpIndex, ch).count == 1
      ensures 2000 * cpIndex + NextMark(cpIndex, ch).from == crtc[14] as int * 0x100 + crtc[15] as int
    {
      RegistersHoldCell();
    }

    ghost function PageOf(n: nat): Page
      requires Shape() && n < MAX_VIDEOPAGES
      reads this, mem, videopgs, crtc
    {
      Page(CellsAt(mem[..], videopgs[n].addr), videopgs[n].x, videopgs[n].y)
    }

    /** `make_videopage` for every page, page 0 current, its row set and scrolled if need be, and cleared. */
    constructor InitVideo(lasty: Word)
      ensures fresh(mem) && fresh(videopgs) && fresh(crtc)
      ensures Valid() && cpIndex == 0
      ensures PageOf(0) == Cleared(7)
      ensures forall n :: 0 <= n < MAX_VIDEOPAGES ==> videopgs[n] == VideoPage(PAGE_BYTES * n, 0, 0, 7, 0)
    {
      mem, videopgs, crtc := new Byte[MAPPED_BYTES], new VideoPage[MAX_VIDEOPAGES], new Byte[0x100];
      cpIndex, crtcIndex := 0, 0;
      new;
      hide CursorOk, CellAt, ScrolledUp, CellsAt, Cleared;
      MakeVideopages();
      StartPage(lasty);
    }

    /** Lines 85-88, on page 0. */
    method StartPage(lasty: Word)
      requires Shape() && cpIndex == 0
      requires forall n :: 0 <= n < MAX_VIDEOPAGES ==> videopgs[n] == VideoPage(PAGE_BYTES * n, 0, 0, 7, 0)
      modifies mem, videopgs, this`crtcIndex, crtc
      ensures Valid()
      ensures PageOf(0) == Cleared(7)
      ensures forall n :: 0 <= n < MAX_VIDEOPAGES ==> videopgs[n] == VideoPage(PAGE_BYTES * n, 0, 0, 7, 0)
    {
      hide CursorOk, CellAt, ScrolledUp, CellsAt;
      var y := (lasty + if lasty != 0 then 1 else 0) % 0x1_0000_0000;
      videopgs[0] := videopgs[0].(y := y);
      if videopgs[0].y >= MAX_H - 1 {
        ScrollUp(0);
      }
      Clrscr(0);
      UpdateHwCursor();
    }

    method MakeVideopages()
      requires videopgs.Length == MAX_VIDEOPAGES
      modifies videopgs
      ensures forall n :: 0 <= n < MAX_VIDEOPAGES ==> videopgs[n] == VideoPage(PAGE_BYTES * n, 0, 0, 7, 0)
    {
      var n := 1;
      while n <= MAX_VIDEOPAGES
        invariant 1 <= n <= MAX_VIDEOPAGES + 1
        invariant forall k :: 0 <= k < n - 1 ==> videopgs[k] == VideoPage(PAGE_BYTES * k, 0, 0, 7, 0)
      {
        videopgs[n - 1] := VideoPage(MAX_W * MAX_H * 2 * (n - 1), 0, 0, 7, 0);
        n := n + 1;
      }
    }

    /** `clrscr` */
    method Clrscr(n: nat)
      requires Shape() && n < MAX_VIDEOPAGES
      modifies mem, videopgs, this`crtcIndex, crtc
      ensures Shape() && CursorOk() && OnlyPage(n) && OnlyCursorOf(n)
      ensures crtc[12] == old(crtc[12]) && crtc[13] == old(crtc[13])
      ensures PageOf(n) == Cleared(Attr(videopgs[n]))
      ensures forall i :: 0 <= i < 2000 ==>
        mem[4000 * n + 2 * i] == 32 && mem[4000 * n + 2 * i + 1] == videopgs[n].text + videopgs[n].back
    {
      ghost var b0 := mem[..];
      var vp := videopgs[n];
      FillCells(vp.addr, 80 * 25, Blank(Attr(vp)));
      FilledCells(b0, mem[..], vp.addr, Mark(0, 2000, Blank(Attr(vp))));
      FilledBytes(b0, mem[..], vp.addr, 2000, Blank(Attr(vp)));
      assert CellsAt(mem[..], vp.addr) == Cleared(Attr(vp)).cells;
      videopgs[n] := vp.(x := 0, y := 0);
      UpdateHwCursor();
    }

    /** `set_x` stores any column; the cursor stays on its page exactly when the column is on it. */
    method SetX(n: nat, x: Word)
      requires Shape() && n < MAX_VIDEOPAGES
      modifies videopgs, this`crtcIndex, crtc
      ensures Shape() && CursorOk()
      ensures OnlyCursorOf(n) && videopgs[n].x == x && videopgs[n].y == old(videopgs[n].y)
      ensures old(Valid()) ==> (Valid() <==> x < MAX_W)
      ensures crtc[12] == old(crtc[12]) && crtc[13] == old(crtc[13])
    {
      videopgs[n] := videopgs[n].(x := x);
      UpdateHwCursor();
    }

    method SetY(n: nat, y: Word)
      requires Shape() && n < MAX_VIDEOPAGES
      modifies videopgs, this`crtcIndex, crtc
      ensures Shape() && CursorOk()
      ensures OnlyCursorOf(n) && videopgs[n].y == y && videopgs[n].x == old(videopgs[n].x)
      ensures old(Valid()) ==> (Valid() <==> y < MAX_H)
      ensures crtc[12] == old(crtc[12]) && crtc[13] == old(crtc[13])
    {
      videopgs[n] := videopgs[n].(y := y);
      UpdateHwCursor();
    }

    /** `new_line`, which scrolls as soon as it reaches the last row. */
    method NewLine(n: nat)
      requires Shape() && n < MAX_VIDEOPAGES
      modifies mem, videopgs, this`crtcIndex, crtc
      ensures Shape() && CursorOk() && OnlyPage(n) && OnlyCursorOf(n)
      ensures old(Valid()) ==> Valid()
      ensures crtc[12] == old(crtc[12]) && crtc[13] == old(crtc[13])
      ensures PageOf(n) == NewLinePage(old(PageOf(n)), Attr(videopgs[n]))
    {
      hide CellAt, ScrolledUp;
      videopgs[n] := videopgs[n].(y := (videopgs[n].y + 1) % 0x1_0000_0000);
      if videopgs[n].y >= MAX_H - 1 {
        ScrollUp(n);
      }
      videopgs[n] := videopgs[n].(x := 0);
      UpdateHwCursor();
    }

    /** `change_videopage`: afterwards the two address registers hold the first cell of the page. */
    method ChangeVideopage(page: nat)
      requires Shape() && 1 <= page <= MAX_VIDEOPAGES
      modifies this`cpIndex, this`crtcIndex, crtc
      ensures Shape() && CursorOk() && cpIndex == page - 1
      ensures old(Valid()) ==> Valid()
      ensures crtc[12] as int * 0x100 + crtc[13] as int == PAGE_CELLS * (page - 1)
    {
      HighAndLow(PAGE_BYTES * (page - 1));
      cpIndex := page - 1;
      WriteRegister(12, videopgs[cpIndex].addr / 0x200);
      WriteRegister(13, videopgs[cpIndex].addr / 2);
      UpdateHwCursor();
    }

    /** `printc`: one character to the current page. What spills lands on the next page, and no further. */
    method Printc(ch: Byte)
      requires Shape() && InMemory(cpIndex, NextMark(cpIndex, ch))
      modifies mem, videopgs, this`crtcIndex, crtc
      ensures Shape() && CursorOk() && OnPage(cpIndex) && OnlyCursorOf(cpIndex)
      ensures old(Valid()) ==> Valid()
      ensures PageOf(cpIndex) == PutcPage(old(PageOf(cpIndex)), Attr(videopgs[cpIndex]), ch)
      ensures crtc[12] == old(crtc[12]) && crtc[13] == old(crtc[13])
      ensures OnlySpilled(old(mem[..]), mem[..], cpIndex, old(NextMark(cpIndex, ch)))
      ensures old(OnPage(cpIndex)) ==>
        forall n :: 0 <= n < MAX_VIDEOPAGES && n != cpIndex && n != cpIndex + 1 ==> PageOf(n) == old(PageOf(n))
    {
      hide CellAt, PutcPage, MarkOf, Covers, CursorOk;
      SpillCondition(videopgs[cpIndex].x, videopgs[cpIndex].y, Attr(videopgs[cpIndex]), ch);
      Putc(cpIndex, ch);
      if old(OnPage(cpIndex)) {
        forall n | 0 <= n < MAX_VIDEOPAGES && n != cpIndex && n != cpIndex + 1 ensures PageOf(n) == old(PageOf(n)) {
          OtherPage(old(mem[..]), mem[..], n);
        }
      }
    }

    /** The loop of `kprint`: every character to the current page. */
    method PrintAll(text: seq<Byte>)
      requires Shape() && (text != [] ==> InMemory(cpIndex, NextMark(cpIndex, text[0])))
      modifies mem, videopgs, this`crtcIndex, crtc
      ensures Shape() && cpIndex == old(cpIndex) && OnlyCursorOf(cpIndex)
      ensures (text != [] ==> CursorOk() && OnPage(cpIndex)) && (old(Valid()) ==> Valid())
      ensures PageOf(cpIndex) == PutAll(old(PageOf(cpIndex)), Attr(videopgs[cpIndex]), text)
      ensures crtc[12] == old(crtc[12]) && crtc[13] == old(crtc[13])
      ensures old(OnPage(cpIndex)) ==>
        forall n :: 0 <= n < MAX_VIDEOPAGES && n != cpIndex && n != cpIndex + 1 ==> PageOf(n) == old(PageOf(n))
    {
      hide CellsAt, PutcPage, CursorOk;
      var i := 0;
      ghost var p0, attr := PageOf(cpIndex), Attr(videopgs[cpIndex]);
      while i < |text|
        invariant 0 <= i <= |text| && Shape() && OnlyCursorOf(cpIndex)
        invariant old(Valid()) ==> Valid()
        invariant i > 0 ==> CursorOk() && OnPage(cpIndex)
        invariant i == 0 ==> mem[..] == old(mem[..]) && videopgs[..] == old(videopgs[..])
        invariant PutAll(PageOf(cpIndex), attr, text[i..]) == PutAll(p0, attr, text)
        invariant crtc[12] == old(crtc[12]) && crtc[13] == old(crtc[13])
        invariant old(OnPage(cpIndex)) ==>
          forall n :: 0 <= n < MAX_VIDEOPAGES && n != cpIndex && n != cpIndex + 1 ==> PageOf(n) == old(PageOf(n))
      {
        assert text[i..][1..] == text[i + 1..];
        if i > 0 {
          MarkInMemory(videopgs[cpIndex], cpIndex, text[i]);
        }
        Printc(text[i]);
        i := i + 1;
      }
    }

    /** `outb(value, port)` to the index port and then the data port. */
    method WriteRegister(index: nat, value: int)
      requires crtc.Length == 0x100 && index < 0x100 && 0 <= value
      modifies this`crtcIndex, crtc
      ensures crtc[..] == old(crtc[..])[index := value % 0x100]
    {
      crtcIndex := index;
      crtc[crtcIndex] := value % 0x100;
    }

    /** `update_HW_cursor`: always the current page's cursor, whichever page was changed. */
    method UpdateHwCursor()
      requires Shape()
      modifies this`crtcIndex, crtc
      ensures Shape() && CursorOk()
      ensures crtc[..] == old(crtc[..])[14 := CursorCell() / 0x100 % 0x100][15 := CursorCell() % 0x100]
    {
      LowSixteenBits(CursorCell());
      var vp := videopgs[cpIndex];
      var cell: Word := (vp.addr / 2 + vp.y * MAX_W + vp.x) % 0x1_0000_0000;
      WriteRegister(14, cell / 0x100);
      WriteRegister(15, cell);
    }

    /** The two byte stores that write one cell. */
    method StoreCell(at: nat, cell: Cell)
      requires at + 2 <= mem.Length
      modifies mem
      ensures mem[..] == old(mem[..])[at := cell.ch][at + 1 := cell.attr]
      ensures Filled(old(mem[..]), mem[..], at, 1, cell)
    {
      mem[at] := cell.ch;
      mem[at + 1] := cell.attr;
    }

    /** A loop over neighbouring cells that gives them all one value. */
    method FillCells(at: nat, count: nat, cell: Cell)
      requires at + 2 * count <= mem.Length
      modifies mem
      ensures Filled(old(mem[..]), mem[..], at, count, cell)
    {
      var i := 0;
      while i < count
        invariant 0 <= i <= count
        invariant forall j :: 0 <= j < i ==> mem[at + 2 * j] == cell.ch && mem[at + 2 * j + 1] == cell.attr
        invariant forall j :: 0 <= j < mem.Length && !(at <= j < at + 2 * i) ==> mem[j] == old(mem[j])
      {
        StoreCell(at + 2 * i, cell);
        i := i + 1;
      }
    }

    /** Nothing but page `n` has changed in video memory. */
    twostate predicate OnlyPage(n: nat)
      requires mem.Length == MAPPED_BYTES && n < MAX_VIDEOPAGES
      reads this, mem
    {
      forall j :: 0 <= j < MAPPED_BYTES && !(PAGE_BYTES * n <= j < PAGE_BYTES * (n + 1)) ==> mem[j] == old(mem[j])
    }

    /** No page record but that of page `n` has changed, and of that one only the cursor. */
    twostate predicate OnlyCursorOf(n: nat)
      requires videopgs.Length == MAX_VIDEOPAGES && n < MAX_VIDEOPAGES
      reads this, videopgs
    {
      && (forall k :: 0 <= k < MAX_VIDEOPAGES && k != n ==> videopgs[k] == old(videopgs[k]))
      && videopgs[n] == old(videopgs[n]).(x := videopgs[n].x, y := videopgs[n].y)
    }

    /**
     * `clear_line`. The guard compares a negative line with an unsigned height, which it always exceeds: a negative
     * line is refused, a line below the page is not, and belongs to one of the pages that follow.
     */
    method ClearLine(n: nat, line: Int32)
      requires Shape() && n < MAX_VIDEOPAGES
      requires PAGE_BYTES * n + 2 * MAX_W * (line + 1) <= MAPPED_BYTES
      modifies mem, this`crtcIndex, crtc
      ensures Shape()
      ensures line < 0 ==> mem[..] == old(mem[..]) && crtc[..] == old(crtc[..])
      ensures line >= 0 ==> CursorOk() && crtc[12] == old(crtc[12]) && crtc[13] == old(crtc[13])
      ensures line >= 0 ==> Filled(old(mem[..]), mem[..], LineAt(n, line), MAX_W, Blank(Attr(videopgs[n])))
    {
      var unsignedLine := if line < 0 then line + 0x1_0000_0000 else line;
      if line < 0 && unsignedLine > MAX_H - 1 {
        return;
      }
      FillCells(LineAt(n, line), MAX_W, Blank(Attr(videopgs[n])));
      UpdateHwCursor();
    }

    /** `scroll_up`, whose cursor may have just left the page. */
    method ScrollUp(n: nat)
      requires Shape() && n < MAX_VIDEOPAGES
      modifies mem, videopgs, this`crtcIndex, crtc
      ensures Shape() && CursorOk() && OnlyPage(n) && OnlyCursorOf(n)
      ensures crtc[12] == old(crtc[12]) && crtc[13] == old(crtc[13])
      ensures PageOf(n).cells == ScrolledUp(old(PageOf(n).cells), Attr(videopgs[n]))
      ensures videopgs[n].x == old(videopgs[n].x) && videopgs[n].y == MAX_H - 1
    {
      hide ScrolledUp, Filled, CellAt, S.Moved;
      ghost var b0, a := mem[..], videopgs[n].addr;
      S.MemMove(mem, videopgs[n].addr, videopgs[n].addr + 2 * MAX_W, 2 * MAX_W * (MAX_H - 1));
      ghost var b1 := mem[..];
      ClearLine(n, MAX_H - 1);
      ScrolledCells(b0, b1, mem[..], a, Attr(videopgs[n]));
      videopgs[n] := videopgs[n].(y := MAX_H - 1);
      UpdateHwCursor();
    }

    /** The switch of `putc`, lines 214-245. */
    method PutMark(n: nat, ch: Byte)
      requires Shape() && n < MAX_VIDEOPAGES && InMemory(n, NextMark(n, ch))
      modifies mem, videopgs
      ensures Shape() && OnlyCursorOf(n)
      ensures (videopgs[n].x, videopgs[n].y) == Advance(old(videopgs[n].x), old(videopgs[n].y), ch)
      ensures var m := old(NextMark(n, ch));
        Filled(old(mem[..]), mem[..], videopgs[n].addr + 2 * m.from, m.count, m.cell)
    {
      hide Filled;
      FilledNone(mem[..], videopgs[n].addr + 2 * (videopgs[n].y * MAX_W + videopgs[n].x), Blank(Attr(videopgs[n])));
      var vp := videopgs[n];
      var blank := Blank(Attr(vp));
      if ch == 0 {
      } else if ch == 13 {
        videopgs[n] := vp.(x := 0);
      } else if ch == 10 {
        videopgs[n] := vp.(y := (vp.y + 1) % 0x1_0000_0000, x := 0);
      } else if ch == 8 {
        if vp.x != 0 {
          vp := vp.(x := vp.x - 1);
          videopgs[n] := vp;
          StoreCell(vp.addr + 2 * vp.x + 160 * vp.y, blank);
        }
      } else if ch == 9 {
        FillCells(vp.addr + 2 * vp.x + 160 * vp.y, 8, blank);
        videopgs[n] := vp.(x := vp.x + TAB_SIZE);
      } else {
        StoreCell(vp.addr + 2 * vp.x + 160 * vp.y, Cell(ch, Attr(vp)));
        videopgs[n] := vp.(x := vp.x + 1);
      }
    }

    /** The same switch, seen from the page. */
    method MarkPage(n: nat, ch: Byte)
      requires Shape() && n < MAX_VIDEOPAGES && InMemory(n, NextMark(n, ch))
      modifies mem, videopgs
      ensures Shape() && OnlyCursorOf(n)
      ensures var m := old(NextMark(n, ch));
        && Filled(old(mem[..]), mem[..], PAGE_BYTES * n + 2 * m.from, m.count, m.cell)
        && PageOf(n) == Page(Marked(old(PageOf(n).cells), m), Advance(old(videopgs[n].x), old(videopgs[n].y), ch).0,
                             Advance(old(videopgs[n].x), old(videopgs[n].y), ch).1)
    {
      hide CellAt, MarkOf, Filled, Advance, Marked;
      ghost var b0, m := mem[..], NextMark(n, ch);
      PutMark(n, ch);
      FilledCells(b0, mem[..], videopgs[n].addr, m);
    }

    /** Lines 247-257. */
    method CheckRow(n: nat)
      requires Shape() && n < MAX_VIDEOPAGES
      modifies mem, videopgs, this`crtcIndex, crtc
      ensures Shape() && CursorOk() && OnlyPage(n) && OnlyCursorOf(n)
      ensures crtc[12] == old(crtc[12]) && crtc[13] == old(crtc[13])
      ensures var (x, y) := Wrap(old(videopgs[n].x), old(videopgs[n].y));
        PageOf(n) == if y >= MAX_H then Page(ScrolledUp(old(PageOf(n).cells), Attr(videopgs[n])), x, MAX_H - 1)
                     else Page(old(PageOf(n).cells), x, y)
    {
      hide ScrolledUp, CellAt, CursorOk;
      var vp := videopgs[n];
      if vp.x >= MAX_W {
        videopgs[n] := vp.(y := (vp.y + vp.x / MAX_W) % 0x1_0000_0000, x := vp.x % MAX_W);
      }
      if videopgs[n].y >= MAX_H {
        ScrollUp(n);
        videopgs[n] := videopgs[n].(y := MAX_H - 1);
      }
      UpdateHwCursor();
    }

    /**
     * `putc`: what the page model says happens to its page, and outside the page nothing but the cells of the mark that
     * lie past its end.
     */
    method Putc(n: nat, ch: Byte)
      requires Shape() && n < MAX_VIDEOPAGES && InMemory(n, NextMark(n, ch))
      modifies mem, videopgs, this`crtcIndex, crtc
      ensures Shape() && CursorOk() && OnPage(n) && OnlyCursorOf(n)
      ensures old(Valid()) ==> Valid()
      ensures crtc[12] == old(crtc[12]) && crtc[13] == old(crtc[13])
      ensures PageOf(n) == PutcPage(old(PageOf(n)), Attr(videopgs[n]), ch)
      ensures OnlySpilled(old(mem[..]), mem[..], n, old(NextMark(n, ch)))
    {
      hide ScrolledUp, CellAt, CursorOk, MarkOf, Filled, Advance, Wrap, Marked, Covers, OnlySpilled;
      ghost var x0, y0, b0 := videopgs[n].x, videopgs[n].y, mem[..];
      ghost var m := NextMark(n, ch);
      WrapStaysInRow(Advance(x0, y0, ch).0, Advance(x0, y0, ch).1);
      MarkPage(n, ch);
      ghost var b1 := mem[..];
      CheckRow(n);
      PutcOutside(b0, b1, mem[..], n, m);
    }
  }

  /** What lies above the lowest 32 bits does not show in the two lowest bytes. */
  lemma TwoBytes(low: nat, q: nat)
    ensures var cell := q * 0x1_0000_0000 + low;
      cell / 0x100 % 0x100 == low / 0x100 % 0x100 && cell % 0x100 == low % 0x100
    ensures low / 0x100 % 0x100 * 0x100 + low % 0x100 == low % 0x1_0000
  {
    var k, b0 := low / 0x100, low % 0x100;
    var m, b1 := k / 0x100, k % 0x100;
    assert low == (m * 0x100 + b1) * 0x100 + b0;
    Remainder(low, m, 0x1_0000, b1 * 0x100 + b0);
    var cell := q * 0x1_0000_0000 + low;
    Remainder(cell, q * 0x100_0000 + k, 0x100, b0);
    Remainder(q * 0x100_0000 + k, q * 0x1_0000 + m, 0x100, b1);
  }

  lemma Remainder(n: nat, q: nat, d: nat, r: nat)
    requires n == q * d + r && r < d
    ensures n / d == q && n % d == r
  {
    var k, s := n / d, n % d;
    assert n == k * d + s && 0 <= s < d;
    assert q < k ==> (q + 1) * d <= k * d;
    assert k < q ==> (k + 1) * d <= q * d;
  }

  lemma LowSixteenBits(cell: nat)
    ensures var low := cell % 0x1_0000_0000;
      low / 0x100 % 0x100 == cell / 0x100 % 0x100 && low % 0x100 == cell % 0x100
    ensures cell / 0x100 % 0x100 * 0x100 + cell % 0x100 == cell % 0x1_0000
  {
    var low, q := cell % 0x1_0000_0000, cell / 0x1_0000_0000;
    TwoBytes(low, q);
    TwoBytes(cell, 0);
  }

  lemma HighAndLow(offset: nat)
    requires offset < 0x2_0000
    ensures (offset / 0x200) % 0x100 * 0x100 + (offset / 2) % 0x100 == offset / 2
  {
    assert offset / 0x200 == offset / 2 / 0x100;
  }

  lemma OtherPage(before: seq<Byte>, after: seq<Byte>, n: nat)
    requires |before| == |after| && PAGE_BYTES * (n + 1) <= |before|
    requires forall j :: PAGE_BYTES * n <= j < PAGE_BYTES * (n + 1) ==> after[j] == before[j]
    ensures CellsAt(after, PAGE_BYTES * n) == CellsAt(before, PAGE_BYTES * n)
  {
  }

  /**
   * For every cursor, on its page or not: a character writes past the end of the page exactly when it is a tab that
   * ends there, a backspace whose cell lies there, or a printed character there. From a cursor on the page it is a tab
   * that starts in the last row right of column 72, and then it is blanks, in the first seven cells at most.
   */
  lemma SpillCondition(x: nat, y: nat, attr: Byte, ch: Byte)
    ensures var m, here := MarkOf(x, y, attr, ch), y * MAX_W + x;
      (exists i :: Covers(m, i) && PAGE_CELLS <= i) <==>
        || (ch == 9 && here + TAB_SIZE > PAGE_CELLS)
        || (ch == 8 && x != 0 && here > PAGE_CELLS)
        || (IsPrinted(ch) && here >= PAGE_CELLS)
    ensures x < MAX_W && y < MAX_H ==>
      var m := MarkOf(x, y, attr, ch);
      && ((exists i :: Covers(m, i) && PAGE_CELLS <= i) <==> ch == 9 && y == MAX_H - 1 && x > MAX_W - TAB_SIZE)
      && (forall i :: Covers(m, i) && PAGE_CELLS <= i ==> m.cell == Blank(attr) && i < PAGE_CELLS + 7)
  {
    var m := MarkOf(x, y, attr, ch);
    if m.count > 0 && m.from + m.count > PAGE_CELLS {
      assert Covers(m, m.from + m.count - 1);
    }
  }

  /** From a cursor on its page every mark lies in mapped memory. */
  lemma MarkInMemory(vp: VideoPage, n: nat, ch: Byte)
    requires RecordOk(vp, n) && n < MAX_VIDEOPAGES && vp.x < MAX_W && vp.y < MAX_H
    ensures InMemory(n, MarkOf(vp.x, vp.y, Attr(vp), ch))
  {
  }

  /** The bytes outside the page that a run of cells covers. */
  lemma FilledOutside(before: seq<Byte>, after: seq<Byte>, a: nat, m: Mark)
    requires a % 2 == 0 && Filled(before, after, a + 2 * m.from, m.count, m.cell)
    ensures forall j :: a <= j < |before| ==>
      after[j] == if Covers(m, (j - a) / 2) then (if j % 2 == 0 then m.cell.ch else m.cell.attr) else before[j]
    ensures forall j :: 0 <= j < a && j < |before| ==> after[j] == before[j]
  {
    forall j | a <= j < |before|
      ensures after[j] == if Covers(m, (j - a) / 2) then (if j % 2 == 0 then m.cell.ch else m.cell.attr) else before[j]
    {
      var i := (j - a) / 2;
      if Covers(m, i) {
        assert CellAt(after, a + 2 * m.from, i - m.from) == m.cell;
      }
    }
  }

  /** Outside page `n` nothing has changed but the cells of the mark that lie past the end of the page. */
  ghost predicate OnlySpilled(before: seq<Byte>, after: seq<Byte>, n: nat, m: Mark) {
    && |before| == |after|
    && (forall j :: PAGE_BYTES * (n + 1) <= j < |after| ==>
          after[j] == if !Covers(m, (j - PAGE_BYTES * n) / 2) then before[j]
                      else if j % 2 == 0 then m.cell.ch else m.cell.attr)
    && (forall j :: 0 <= j < PAGE_BYTES * n && j < |after| ==> after[j] == before[j])
  }

  /** A mark on page `n`, and then changes on that page only. */
  lemma PutcOutside(b0: seq<Byte>, b1: seq<Byte>, b2: seq<Byte>, n: nat, m: Mark)
    requires |b0| == |b1| == |b2| && PAGE_BYTES * (n + 1) <= |b0|
    requires Filled(b0, b1, PAGE_BYTES * n + 2 * m.from, m.count, m.cell)
    requires forall j :: 0 <= j < |b0| && !(PAGE_BYTES * n <= j < PAGE_BYTES * (n + 1)) ==> b2[j] == b1[j]
    ensures OnlySpilled(b0, b2, n, m)
  {
    hide Filled, Covers;
    FilledOutside(b0, b1, PAGE_BYTES * n, m);
  }

  lemma FilledBytes(before: seq<Byte>, after: seq<Byte>, at: nat, count: nat, cell: Cell)
    requires Filled(before, after, at, count, cell)
    ensures forall i :: 0 <= i < count ==> after[at + 2 * i] == cell.ch && after[at + 2 * i + 1] == cell.attr
  {
    forall i | 0 <= i < count ensures after[at + 2 * i] == cell.ch && after[at + 2 * i + 1] == cell.attr {
      assert CellAt(after, at, i) == cell;
    }
  }

  lemma SameCellAt(before: seq<Byte>, after: seq<Byte>, a: nat, attr: Byte, i: nat)
    requires |before| == |after| && a + 4000 <= |before| && i < 2000
    ensures CellsAt(after, a)[i] == ScrolledUp(CellsAt(before, a), attr)[i] <==>
      if i < 1920 then after[a + 2 * i] == before[a + 2 * i + 160] && after[a + 2 * i + 1] == before[a + 2 * i + 161]
      else after[a + 2 * i] == 32 && after[a + 2 * i + 1] == attr
  {
  }

  /** A page scrolls exactly when its bytes move down by 160, and spaces fill the last 160. */
  lemma {:induction false} ScrolledBytes(before: seq<Byte>, after: seq<Byte>, a: nat, attr: Byte)
    requires |before| == |after| && a + 4000 <= |before| && a % 2 == 0
    ensures CellsAt(after, a) == ScrolledUp(CellsAt(before, a), attr) <==>
      && after[a..a + 3840] == before[a + 160..a + 4000]
      && forall j :: a + 3840 <= j < a + 4000 ==> after[j] == if j % 2 == 0 then 32 else attr
  {
    hide CellsAt, ScrolledUp;
    var cells, rows := CellsAt(after, a), ScrolledUp(CellsAt(before, a), attr);
    var now, below := after[a..a + 3840], before[a + 160..a + 4000];
    if cells == rows {
      forall j | 0 <= j < 3840 ensures now[j] == below[j] {
        SameCellAt(before, after, a, attr, j / 2);
      }
      forall j | a + 3840 <= j < a + 4000 ensures after[j] == if j % 2 == 0 then 32 else attr {
        SameCellAt(before, after, a, attr, (j - a) / 2);
      }
    }
    if now == below && (forall j :: a + 3840 <= j < a + 4000 ==> after[j] == if j % 2 == 0 then 32 else attr) {
      forall i | 0 <= i < 2000 ensures cells[i] == rows[i] {
        SameCellAt(before, after, a, attr, i);
        if i < 1920 {
          assert now[2 * i] == below[2 * i] && now[2 * i + 1] == below[2 * i + 1];
        }
      }
    }
  }

  lemma PrintedCells(cells: seq<Cell>, x: nat, y: nat, attr: Byte, ch: Byte)
    requires |cells| == PAGE_CELLS && IsPrinted(ch) && x < 80 && y < 25 && (x < 79 || y < 24)
    ensures PutcPage(Page(cells, x, y), attr, ch).cells == Marked(cells, Mark(80 * y + x, 1, Cell(ch, attr)))
  {
    hide ScrolledUp, Marked;
  }

  /** The two bytes of a printed character, at 160 bytes a row and 2 a column, unless the page scrolls. */
  lemma {:induction false} PrintedBytes(
      before: seq<Byte>, after: seq<Byte>, n: nat, x: nat, y: nat, attr: Byte, ch: Byte)
    requires |before| == |after| == MAPPED_BYTES && n < MAX_VIDEOPAGES
    requires IsPrinted(ch) && x < 80 && y < 25 && (x < 79 || y < 24)
    requires CellsAt(after, 4000 * n) == PutcPage(Page(CellsAt(before, 4000 * n), x, y), attr, ch).cells
    ensures after[4000 * n + 160 * y + 2 * x] == ch && after[4000 * n + 160 * y + 2 * x + 1] == attr
    ensures forall j :: 4000 * n <= j < 4000 * (n + 1) && (j - 4000 * n) / 2 != 80 * y + x ==> after[j] == before[j]
  {
    var here := 80 * y + x;
    var cells := CellsAt(after, 4000 * n);
    PrintedCells(CellsAt(before, 4000 * n), x, y, attr, ch);
    hide PutcPage;
    assert cells[here] == CellAt(after, 4000 * n, here);
    forall j | 4000 * n <= j < 4000 * (n + 1) && (j - 4000 * n) / 2 != here ensures after[j] == before[j] {
      var i := (j - 4000 * n) / 2;
      assert cells[i] == CellAt(after, 4000 * n, i) == CellAt(before, 4000 * n, i);
    }
  }

  /** Moving the rows up and blanking the last one scrolls the cells. */
  lemma ScrolledCells(b0: seq<Byte>, b1: seq<Byte>, b2: seq<Byte>, a: nat, attr: Byte)
    requires a + PAGE_BYTES <= |b0|
    requires b1 == S.Moved(b0, a, a + 2 * MAX_W, 2 * MAX_W * (MAX_H - 1))
    requires Filled(b1, b2, a + 2 * MAX_W * (MAX_H - 1), MAX_W, Blank(attr))
    ensures CellsAt(b2, a) == ScrolledUp(CellsAt(b0, a), attr)
    ensures forall j :: 0 <= j < |b0| && !(a <= j < a + PAGE_BYTES) ==> b2[j] == b0[j]
  {
    forall i | 0 <= i < PAGE_CELLS ensures CellAt(b2, a, i) == ScrolledUp(CellsAt(b0, a), attr)[i] {
      if i < PAGE_CELLS - MAX_W {
        assert CellAt(b2, a, i) == CellAt(b1, a, i) == CellAt(b0, a, i + MAX_W);
      } else {
        assert CellAt(b2, a + 2 * MAX_W * (MAX_H - 1), i - (PAGE_CELLS - MAX_W)) == Blank(attr);
      }
    }
  }

  /** A line cleared from the top of page `n` is a line of the page it lies on, and no other page changes. */
  lemma ClearedLine(before: seq<Byte>, after: seq<Byte>, n: nat, line: nat, attr: Byte, page: nat)
    requires |before| == MAPPED_BYTES && page < MAX_VIDEOPAGES
    requires Filled(before, after, LineAt(n, line), MAX_W, Blank(attr))
    ensures var cells := CellsAt(before, PAGE_BYTES * page);
      CellsAt(after, PAGE_BYTES * page) ==
        if page == n + line / MAX_H then Marked(cells, Mark(line % MAX_H * MAX_W, MAX_W, Blank(attr))) else cells
  {
    if page == n + line / MAX_H {
      FilledCells(before, after, PAGE_BYTES * page, Mark(line % MAX_H * MAX_W, MAX_W, Blank(attr)));
    } else {
      OtherPage(before, after, page);
    }
  }

  /** `clear_line` writes nothing outside its own page exactly when the line is one of the page's. */
  lemma ClearLineStaysInside(n: nat, line: nat, attr: Byte)
    requires n < MAX_VIDEOPAGES && LineAt(n, line + 1) <= MAPPED_BYTES
    ensures line < MAX_H <==>
      forall before: seq<Byte>, after: seq<Byte> ::
        |before| == MAPPED_BYTES && Filled(before, after, LineAt(n, line), MAX_W, Blank(attr)) ==>
          forall j :: 0 <= j < MAPPED_BYTES && !(PAGE_BYTES * n <= j < PAGE_BYTES * (n + 1)) ==> after[j] == before[j]
  {
    if line < MAX_H {
      forall before: seq<Byte>, after: seq<Byte> |
        |before| == MAPPED_BYTES && Filled(before, after, LineAt(n, line), MAX_W, Blank(attr))
        ensures forall j :: 0 <= j < MAPPED_BYTES && !(PAGE_BYTES * n <= j < PAGE_BYTES * (n + 1)) ==>
          after[j] == before[j]
      {
      }
    } else {
      hide Filled;
      var before, after := ZeroedAndFilled(LineAt(n, line), MAX_W, attr);
    }
  }

  /** Some memory, before and after a run of blanks, that shows the first byte written. */
  lemma ZeroedAndFilled(at: nat, count: nat, attr: Byte) returns (before: seq<Byte>, after: seq<Byte>)
    requires at + 2 * count <= MAPPED_BYTES && 0 < count
    ensures |before| == |after| == MAPPED_BYTES && Filled(before, after, at, count, Blank(attr))
    ensures after[at] != before[at]
  {
    before := seq(MAPPED_BYTES, _ => 0);
    after := seq(MAPPED_BYTES, j =>
      if !(at <= j < at + 2 * count) then 0 else if (j - at) % 2 == 0 then 0x20 else attr);
  }

  /** Line 25 of page 0 is the first line of page 1. */
  lemma LineBelowThePage(before: seq<Byte>, after: seq<Byte>, attr: Byte)
    requires |before| == MAPPED_BYTES && Filled(before, after, LineAt(0, 25), MAX_W, Blank(attr))
    ensures CellsAt(after, 0) == CellsAt(before, 0)
    ensures forall i :: 0 <= i < MAX_W ==> CellsAt(after, PAGE_BYTES)[i] == Blank(attr)
  {
    ClearedLine(before, after, 0, 25, attr, 0);
    ClearedLine(before, after, 0, 25, attr, 1);
  }
}
