/** The handlers of dev/keyboard.c as they change the globals and print, proved against the history of scancodes. */
module KeyboardDriver {
  import opened Word32
  import opened Keyboard
  import opened KeyboardEcho

  class Driver {
    var kmode: Kmode
    var ke0: nat
    var kleds: Leds
    const kapplic: bool
    var oldLeds: Leds
    var npadch: Word
    var rebooted: bool
    const maps: Keymap
    /** The characters given to `kprint`. */
    var printed: seq<Byte>
    /** The LED bytes sent to the keyboard. */
    var ledsSent: seq<Leds>
    /** The scancodes handled so far. */
    ghost var history: seq<Byte>

    ghost function View(): State
      reads this
    {
      State(kmode, ke0, kleds, oldLeds, npadch, rebooted)
    }

    ghost predicate Valid()
      reads this
    {
      KeymapOk(maps) && Agrees(View(), history, kapplic) && printed == Typed(history, maps, kapplic)
    }

    constructor (maps: Keymap, kapplic: bool)
      requires KeymapOk(maps)
      ensures Valid() && history == [] && printed == [] && this.maps == maps && this.kapplic == kapplic
    {
      this.maps, this.kapplic := maps, kapplic;
      kmode := Kmode(Sides(false, false), Sides(false, false), Sides(false, false), false, false);
      ke0, kleds, oldLeds := 0, Leds(false, true, false), Leds(false, true, false);
      npadch, rebooted, printed, ledsSent, history := 0, false, [], [], [];
    }

    method Kprint(text: seq<Byte>)
      modifies this`printed
      ensures printed == old(printed) + text
    {
      printed := printed + text;
    }

    method SetLeds()
      modifies this`oldLeds, this`ledsSent
      ensures oldLeds == kleds
      ensures ledsSent == old(ledsSent) + if kleds != old(oldLeds) then [kleds] else []
    {
      if kleds != oldLeds {
        oldLeds := kleds;
        ledsSent := ledsSent + [kleds];
      }
    }

    method DoSelf(sc: Byte)
      requires KeymapOk(maps) && sc < 97
      modifies this`printed
      ensures printed == old(printed) + SelfEcho(kmode, sc, maps)
    {
      var ch: Byte;
      if kmode.alt.right {
        ch := maps.alt[sc];
      } else if kmode.shift.left || kmode.shift.right || kmode.ctrl.left || kmode.ctrl.right {
        ch := maps.shift[sc];
      } else {
        ch := maps.key[sc];
      }
      if ch == 0 {
        return;
      }
      if kmode.ctrl.left || kmode.ctrl.right || kmode.caps {
        if (97 <= ch <= 122) || (224 <= ch <= 254) {
          ch := ch - 32;
        }
      }
      if kmode.ctrl.left || kmode.ctrl.right {
        ch := ch % 32;
      }
      if kmode.alt.left && ch < 128 {
        ch := ch + 128;
      }
      Kprint([ch]);
    }

    method CtrlKey(down: bool)
      modifies this`kmode
      ensures kmode == old(kmode).(
        ctrl := if ke0 != 0 then old(kmode).ctrl.(right := down) else old(kmode).ctrl.(left := down))
    {
      if ke0 != 0 {
        kmode := kmode.(ctrl := kmode.ctrl.(right := down));
      } else {
        kmode := kmode.(ctrl := kmode.ctrl.(left := down));
      }
    }

    method ShiftKey(right: bool, down: bool)
      modifies this`kmode
      ensures kmode == old(kmode).(
        shift := if right then old(kmode).shift.(right := down) else old(kmode).shift.(left := down))
    {
      kmode := kmode.(shift := if right then kmode.shift.(right := down) else kmode.shift.(left := down));
    }

    method AltDown()
      modifies this`kmode
      ensures kmode == old(kmode).(
        alt := if ke0 != 0 then old(kmode).alt.(right := true) else old(kmode).alt.(left := true))
    {
      if ke0 != 0 {
        kmode := kmode.(alt := kmode.alt.(right := true));
      } else {
        kmode := kmode.(alt := kmode.alt.(left := true));
      }
    }

    method Unalt()
      modifies this`kmode, this`npadch, this`printed
      ensures kmode == old(kmode).(
        alt := if ke0 != 0 then old(kmode).alt.(right := false) else old(kmode).alt.(left := false))
      ensures npadch == if ke0 == 0 then 0 else old(npadch)
      ensures printed == old(printed) + if ke0 == 0 && old(npadch) != 0 then [old(npadch) % 0x100] else []
    {
      if ke0 != 0 {
        kmode := kmode.(alt := kmode.alt.(right := false));
      } else {
        kmode := kmode.(alt := kmode.alt.(left := false));
        if npadch != 0 {
          Kprint([npadch % 0x100]);
          npadch := 0;
        }
      }
    }

    method Caps()
      modifies this`kmode, this`kleds, this`oldLeds, this`ledsSent
      ensures kmode ==
        if old(kmode).capsdown then old(kmode) else old(kmode).(caps := !old(kmode).caps, capsdown := true)
      ensures kleds == if old(kmode).capsdown then old(kleds) else old(kleds).(caps := !old(kleds).caps)
      ensures oldLeds == if old(kmode).capsdown then old(oldLeds) else kleds
      ensures ledsSent == old(ledsSent) + if oldLeds != old(oldLeds) then [oldLeds] else []
    {
      if !kmode.capsdown {
        kleds := kleds.(caps := !kleds.caps);
        kmode := kmode.(caps := !kmode.caps);
        kmode := kmode.(capsdown := true);
        SetLeds();
      }
    }

    method NumKey()
      modifies this`kleds, this`oldLeds, this`ledsSent
      ensures kleds == if kapplic then old(kleds) else old(kleds).(num := !old(kleds).num)
      ensures oldLeds == if kapplic then old(oldLeds) else kleds
      ensures ledsSent == old(ledsSent) + if oldLeds != old(oldLeds) then [oldLeds] else []
    {
      if !kapplic {
        kleds := kleds.(num := !kleds.num);
        SetLeds();
      }
    }

    method ScrollKey()
      modifies this`kleds, this`oldLeds, this`ledsSent
      ensures kleds == old(kleds).(scroll := !old(kleds).scroll) && oldLeds == kleds
      ensures ledsSent == old(ledsSent) + if oldLeds != old(oldLeds) then [oldLeds] else []
    {
      kleds := kleds.(scroll := !kleds.scroll);
      SetLeds();
    }

    method FuncKey(sc0: Byte)
      requires KeymapOk(maps) && KeyTable(sc0) == Func
      modifies this`printed
      ensures printed == old(printed) + Echo(View(), sc0, maps, kapplic)
    {
      var sc: int := sc0;
      if sc < 0x3B {
        return;
      }
      sc := sc - 0x3B;
      if sc > 9 {
        sc := sc - 18;
        if sc < 10 || sc > 11 {
          return;
        }
      }
      if !kmode.alt.left {
        Kprint(maps.func[sc]);
      }
    }

    method CursorKey(sc0: Byte)
      requires KeymapOk(maps) && KeyTable(sc0) == Cursor && !rebooted
      modifies this`npadch, this`printed, this`rebooted
      ensures rebooted == Reboots(kmode, sc0)
      ensures npadch == if rebooted then old(npadch) else PadAfter(old(npadch), kmode, ke0, sc0)
      ensures printed == old(printed) + Echo(old(View()), sc0, maps, kapplic)
    {
      if sc0 < 0x47 || sc0 > 0x53 {
        return;
      }
      var sc := sc0 - 0x47;
      if sc == 12 && (kmode.ctrl.left || kmode.ctrl.right) && (kmode.alt.left || kmode.alt.right) {
        rebooted := true;
        return;
      }
      if ke0 == 1 {
        return;
      }
      if kmode.alt.left && sc != 12 {
        npadch := (npadch * 10 + PAD_MAP[sc]) % 0x1_0000_0000;
        return;
      }
      if kleds.num {
        Kprint([NUM_MAP[sc]]);
      }
    }

    /** The handlers that only print. */
    method PrintKey(sc: Byte)
      requires KeymapOk(maps)
      requires IsPrinter(KeyTable(sc))
      modifies this`printed
      ensures printed == old(printed) + Echo(View(), sc, maps, kapplic)
    {
      var k := KeyTable(sc);
      if k == Handler.DoSelf {
        DoSelf(sc);
      } else if k == Enter {
        if ke0 != 1 || !kapplic {
          DoSelf(sc);
        }
      } else if k == Backspace {
        if ke0 != 1 {
          Kprint([8]);
        }
      } else if k == Slash {
        if ke0 != 1 {
          DoSelf(sc);
        } else if !kapplic {
          Kprint([47]);
        }
      } else if k == Func {
        FuncKey(sc);
      } else if !kapplic {
        DoSelf(sc);
      }
    }

    /** The handlers that only change `kmode`. */
    method ModifierKey(sc: Byte)
      requires var k := KeyTable(sc);
        || k == Ctrl || k == Unctrl || k == Lshift || k == Unlshift
        || k == Rshift || k == Unrshift || k == Alt || k == Uncaps
      modifies this`kmode
      ensures kmode == ModeAfter(old(kmode), ke0, sc)
    {
      Codes(sc);
      hide KeyTable;
      var k := KeyTable(sc);
      if k == Ctrl || k == Unctrl {
        CtrlKey(k == Ctrl);
      } else if k == Lshift || k == Unlshift {
        ShiftKey(false, k == Lshift);
      } else if k == Rshift || k == Unrshift {
        ShiftKey(true, k == Rshift);
      } else if k == Alt {
        AltDown();
      } else {
        kmode := kmode.(capsdown := false);
      }
    }

    method UnaltKey(sc: Byte)
      requires KeyTable(sc) == Handler.Unalt && KeymapOk(maps)
      modifies this`kmode, this`npadch, this`printed
      ensures kmode == ModeAfter(old(kmode), ke0, sc) && npadch == PadAfter(old(npadch), old(kmode), ke0, sc)
      ensures printed == old(printed) + Echo(old(View()), sc, maps, kapplic)
    {
      UnaltMode(View(), sc);
      hide KeyTable, ModeAfter;
      Unalt();
    }

    /** The handlers behind the lock keys. */
    method LockKey(sc: Byte)
      requires KeyTable(sc) == Handler.Caps || KeyTable(sc) == Num || KeyTable(sc) == Scroll
      modifies this`kmode, this`kleds, this`oldLeds, this`ledsSent
      ensures kmode == ModeAfter(old(kmode), ke0, sc) && kleds == LedsAfter(old(kleds), old(kmode), sc, kapplic)
      ensures oldLeds == if SetsLeds(old(kmode), sc, kapplic) then kleds else old(oldLeds)
      ensures ledsSent == old(ledsSent) + if oldLeds != old(oldLeds) then [oldLeds] else []
    {
      Codes(sc);
      hide KeyTable;
      var k := KeyTable(sc);
      if k == Handler.Caps {
        Caps();
      } else if k == Num {
        NumKey();
      } else {
        ScrollKey();
      }
    }

    /** The entries of `key_table` that touch neither the LEDs nor the pad code. */
    method PlainKey(sc: Byte)
      requires KeymapOk(maps)
      requires var k := KeyTable(sc); k != Handler.Caps && k != Num && k != Scroll && k != Handler.Unalt && k != Cursor
      modifies this`kmode, this`printed
      ensures kmode == ModeAfter(old(kmode), ke0, sc)
      ensures printed == old(printed) + Echo(old(View()), sc, maps, kapplic)
    {
      QuietKeys(View(), sc, kapplic);
      SilentKeys(View(), sc, maps, kapplic);
      hide ModeAfter, Echo, KeyTable;
      if IsPrinter(KeyTable(sc)) {
        PrintKey(sc);
      } else if KeyTable(sc) != NoHandler {
        ModifierKey(sc);
      }
    }

    /** `key_table[scancode](scancode)` */
    method Dispatch(sc: Byte)
      requires KeymapOk(maps) && !rebooted
      modifies this`kmode, this`kleds, this`oldLeds, this`npadch, this`rebooted, this`printed, this`ledsSent
      ensures rebooted == Reboots(old(kmode), sc)
      ensures rebooted ==> View() == old(View()).(rebooted := true)
      ensures !rebooted ==>
        && kmode == ModeAfter(old(kmode), ke0, sc) && kleds == LedsAfter(old(kleds), old(kmode), sc, kapplic)
        && oldLeds == (if SetsLeds(old(kmode), sc, kapplic) then kleds else old(oldLeds))
        && npadch == PadAfter(old(npadch), old(kmode), ke0, sc)
      ensures printed == old(printed) + Echo(old(View()), sc, maps, kapplic)
      ensures ledsSent == old(ledsSent) + if oldLeds != old(oldLeds) then [oldLeds] else []
    {
      QuietKeys(View(), sc, kapplic);
      SilentKeys(View(), sc, maps, kapplic);
      RebootKey(kmode, sc);
      hide KeyTable, ModeAfter, LedsAfter, SetsLeds, PadAfter, Echo, Reboots;
      match KeyTable(sc)
      case Caps => LockKey(sc);
      case Num => LockKey(sc);
      case Scroll => LockKey(sc);
      case Unalt => UnaltKey(sc);
      case Cursor => CursorKey(sc);
      case _ => PlainKey(sc);
    }

    /** `keyboard_interrupt`, for a scancode read from port 0x60. */
    method KeyboardInterrupt(scancode: Byte)
      requires Valid()
      modifies this
      ensures history == old(history) + [scancode]
      ensures rebooted <==> Rebooted(history)
      ensures !rebooted ==> Valid()
      ensures printed == old(printed) + Echo(old(View()), scancode, maps, kapplic)
      ensures KeymapOk(maps) && printed == Typed(history, maps, kapplic)
      ensures ledsSent == old(ledsSent) + if oldLeds != old(oldLeds) then [oldLeds] else []
    {
      hide ModeAfter, LedsAfter, PadAfter, SetsLeds, ModifiersAgree, LedsAgree, PadAgrees, Rebooted, Echo,
        Typed, Globals;
      ghost var st := View();
      InterruptedAgrees(st, history, scancode, kapplic);
      AgreesMeans(st, history, kapplic);
      TypedSnoc(history, scancode, maps, kapplic);
      PrefixPrintsNothing(st, scancode, maps, kapplic);
      history := history + [scancode];
      if scancode == 0xE0 {
        ke0 := 1;
      } else if scancode == 0xE1 {
        ke0 := 2;
      } else {
        Dispatch(scancode);
        if !rebooted {
          ke0 := 0;
        }
      }
      assert View() == Interrupted(st, scancode, kapplic);
    }
  }

  /** The handlers that leave `kmode` or the LEDs alone. */
  lemma QuietKeys(st: State, sc: Byte, kapplic: bool)
    ensures var k := KeyTable(sc);
      && (k != Caps && k != Num && k != Scroll ==>
           !SetsLeds(st.kmode, sc, kapplic) && LedsAfter(st.kleds, st.kmode, sc, kapplic) == st.kleds)
      && (IsPrinter(k) || k == NoHandler || k == Cursor ==> ModeAfter(st.kmode, st.ke0, sc) == st.kmode)
      && (k != Unalt && k != Cursor ==> PadAfter(st.npadch, st.kmode, st.ke0, sc) == st.npadch)
  {
    hide KeyTable;
  }

  predicate IsPrinter(k: Handler) {
    k == DoSelf || k == Enter || k == Backspace || k == Slash || k == Star || k == Minus || k == Plus || k == Func
  }

  lemma SilentKeys(st: State, sc: Byte, maps: Keymap, kapplic: bool)
    requires KeymapOk(maps)
    ensures var k := KeyTable(sc);
      !IsPrinter(k) && k != Unalt && k != Cursor ==> Echo(st, sc, maps, kapplic) == []
  {
  }

  lemma RebootKey(m: Kmode, sc: Byte)
    ensures Reboots(m, sc) ==> KeyTable(sc) == Cursor
  {
  }

  lemma UnaltMode(st: State, sc: Byte)
    requires KeyTable(sc) == Unalt
    ensures var p := st.kmode.alt;
      ModeAfter(st.kmode, st.ke0, sc) == st.kmode.(alt := if st.ke0 != 0 then p.(right := false) else p.(left := false))
  {
    hide KeyTable;
  }

  lemma PrefixPrintsNothing(st: State, sc: Byte, maps: Keymap, kapplic: bool)
    requires KeymapOk(maps)
    ensures IsPrefix(sc) ==> Echo(st, sc, maps, kapplic) == []
  {
  }
}
