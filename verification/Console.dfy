/** The keyboard in front of a text page: what is typed, and taken back. */
module Console {
  import opened Word32
  import opened Terminal
  import opened TerminalText
  import opened Keyboard
  import opened KeyboardEcho

  /** A page shows what a key prints. */
  function Shown(p: Page, attr: Byte, st: State, sc: Byte, maps: Keymap, kapplic: bool): (r: Page)
    requires |p.cells| == PAGE_CELLS && KeymapOk(maps)
    ensures |r.cells| == PAGE_CELLS
  {
    PutAll(p, attr, Echo(st, sc, maps, kapplic))
  }

  lemma OneCharacter(p: Page, attr: Byte, ch: Byte)
    requires |p.cells| == PAGE_CELLS
    ensures PutAll(p, attr, [ch]) == PutcPage(p, attr, ch)
  {
    hide PutcPage;
    assert [ch][1..] == [];
  }

  /**
   * A character and then the backspace key: exactly unless the character was printed in the last column, the cursor is
   * back where it was and the page has changed in nothing but a space there.
   */
  lemma {:induction false} BackspaceRubsOut(p: Page, attr: Byte, ch: Byte, st: State, maps: Keymap, kapplic: bool)
    requires PageOk(p) && IsPrinted(ch) && KeymapOk(maps) && st.ke0 != 1
    ensures Shown(PutcPage(p, attr, ch), attr, st, 0x0E, maps, kapplic)
              == Page(p.cells[80 * p.y + p.x := Cell(32, attr)], p.x, p.y)
            <==> p.x < 79
  {
    var q := PutcPage(p, attr, ch);
    BackspaceAndFunctions(st, 0x0E, maps, kapplic);
    OneCharacter(q, attr, 8);
    CharacterPrinted(p, attr, ch);
    BackspaceErases(q, attr);
    hide PutcPage, Echo, PutAll;
  }

  /** The text typed by a stream of scancodes, each printed from the state the ones before have left. */
  function ShownAll(p: Page, attr: Byte, st: State, stream: seq<Byte>, maps: Keymap, kapplic: bool): (r: Page)
    requires |p.cells| == PAGE_CELLS && KeymapOk(maps)
    ensures |r.cells| == PAGE_CELLS
    decreases |stream|
  {
    if stream == [] || st.rebooted then p
    else
      var next := Interrupted(st, stream[0], kapplic);
      ShownAll(Shown(p, attr, st, stream[0], maps, kapplic), attr, next, stream[1..], maps, kapplic)
  }

  lemma {:induction false} ShownIsEcho(
      p: Page, attr: Byte, st: State, stream: seq<Byte>, maps: Keymap, kapplic: bool)
    requires |p.cells| == PAGE_CELLS && KeymapOk(maps)
    ensures ShownAll(p, attr, st, stream, maps, kapplic) == PutAll(p, attr, EchoAll(st, stream, maps, kapplic))
    decreases |stream|
  {
    hide Echo, Interrupted, PutAll;
    if stream == [] || st.rebooted {
      PutNothing(p, attr);
    } else {
      var echo, next := Echo(st, stream[0], maps, kapplic), Interrupted(st, stream[0], kapplic);
      ShownIsEcho(PutAll(p, attr, echo), attr, next, stream[1..], maps, kapplic);
      PutAllAppend(p, attr, echo, EchoAll(next, stream[1..], maps, kapplic));
    }
  }

  lemma PutNothing(p: Page, attr: Byte)
    requires |p.cells| == PAGE_CELLS
    ensures PutAll(p, attr, []) == p
  {
  }

  /**
   * From power-up and a cleared page, for every stream of scancodes up to a reboot: the page is the window on a
   * terminal that has been given the text the history has typed.
   */
  lemma {:induction false} TypedTextIsShown(attr: Byte, stream: seq<Byte>, maps: Keymap, kapplic: bool)
    requires KeymapOk(maps) && !Rebooted(stream)
    ensures Window(ShownAll(Cleared(attr), attr, INITIAL, stream, maps, kapplic),
                   PutAllTape(Tape(map[], 0), attr, Typed(stream, maps, kapplic)), attr)
  {
    assert Agrees(INITIAL, [], kapplic);
    assert [] + stream == stream;
    hide Agrees, Echo, Interrupted, Rebooted, Window, PutAll, PutAllTape;
    StreamTypes(INITIAL, [], stream, maps, kapplic);
    assert Typed([], maps, kapplic) == [];
    assert [] + EchoAll(INITIAL, stream, maps, kapplic) == EchoAll(INITIAL, stream, maps, kapplic);
    ShownIsEcho(Cleared(attr), attr, INITIAL, stream, maps, kapplic);
    ClearedPageIsWindow(attr, EchoAll(INITIAL, stream, maps, kapplic));
  }
}
