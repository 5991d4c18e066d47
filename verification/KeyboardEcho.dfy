/** What the keyboard prints: the echo of one scancode, and the text a history of scancodes has typed. */
module KeyboardEcho {
  import opened Word32
  import opened Keyboard

  /** One of the layouts of include/dev/keymap.h. */
  datatype Keymap = Keymap(key: seq<Byte>, shift: seq<Byte>, alt: seq<Byte>, func: seq<seq<Byte>>)

  predicate KeymapOk(maps: Keymap) {
    |maps.key| == 97 && |maps.shift| == 97 && |maps.alt| == 97 && |maps.func| == 12
  }

  /** `num_map`: 789-456+1230, */
  const NUM_MAP: seq<Byte> := [55, 56, 57, 45, 52, 53, 54, 43, 49, 50, 51, 48, 44]

  /** The table entry for a key, zero for none. */
  function Plain(m: Kmode, sc: Byte, maps: Keymap): Byte
    requires KeymapOk(maps) && sc < 97
  {
    if m.alt.right then maps.alt[sc]
    else if m.shift.left || m.shift.right || m.ctrl.left || m.ctrl.right then maps.shift[sc]
    else maps.key[sc]
  }

  /** The lower case of Latin-1 as the handler has it, the division sign (247) included. */
  predicate IsLower(ch: Byte) {
    97 <= ch <= 122 || 224 <= ch <= 254
  }

  /** CTRL and CAPS LOCK take lower case to upper case, CTRL keeps five bits, ALT sets the eighth. */
  function Modified(m: Kmode, ch: Byte): Byte {
    var ctrl := m.ctrl.left || m.ctrl.right;
    var upper := if (ctrl || m.caps) && IsLower(ch) then ch - 32 else ch;
    var control := if ctrl then upper % 32 else upper;
    if m.alt.left && control < 128 then control + 128 else control
  }

  /**
   * What `do_self` prints. A key without a character prints nothing; a character that becomes zero is still printed.
   */
  function SelfEcho(m: Kmode, sc: Byte, maps: Keymap): seq<Byte>
    requires KeymapOk(maps) && sc < 97
  {
    if Plain(m, sc, maps) == 0 then [] else [Modified(m, Plain(m, sc, maps))]
  }

  /** What the handler prints. */
  function Echo(st: State, sc: Byte, maps: Keymap, kapplic: bool): seq<Byte>
    requires KeymapOk(maps)
  {
    var m := st.kmode;
    match KeyTable(sc)
    case DoSelf => SelfEcho(m, sc, maps)
    case Enter => if st.ke0 == 1 && kapplic then [] else SelfEcho(m, sc, maps)
    case Backspace => if st.ke0 != 1 then [8] else []
    case Slash => if st.ke0 != 1 then SelfEcho(m, sc, maps) else if kapplic then [] else [47]
    case Star => if kapplic then [] else SelfEcho(m, sc, maps)
    case Minus => if kapplic then [] else SelfEcho(m, sc, maps)
    case Plus => if kapplic then [] else SelfEcho(m, sc, maps)
    case Unalt => if st.ke0 == 0 && st.npadch != 0 then [st.npadch % 0x100] else []
    case Func => if m.alt.left then [] else maps.func[if sc <= 0x44 then sc - 0x3B else sc - 0x4D]
    case Cursor =>
      if Reboots(m, sc) || st.ke0 == 1 || (m.alt.left && sc != 0x53) || !st.kleds.num then [] else [NUM_MAP[sc - 0x47]]
    case _ => []
  }

  // ---- the text that a history has typed ----

  /**
   * The globals as the history says they should be: which keys are held, how often a lock was pressed, the pad digits.
   */
  function Globals(h: seq<Byte>, kapplic: bool): State {
    var leds := Leds(Count(h, 0x46) % 2 == 1, kapplic || Count(h, 0x45) % 2 == 0, Edges(h, CAPSLOCK) % 2 == 1);
    State(Kmode(Sides(Held(h, LSHIFT), Held(h, RSHIFT)), Sides(Held(h, LCTRL), Held(h, RCTRL)),
                Sides(Held(h, LALT), Held(h, ALTGR)), Edges(h, CAPSLOCK) % 2 == 1, Held(h, CAPSLOCK)),
          PrefixOf(h), leds, leds, Decimal(PadDigits(h)) % 0x1_0000_0000, false)
  }

  function PrefixOf(h: seq<Byte>): nat {
    if h == [] then 0 else if h[|h| - 1] == 0xE0 then 1 else if h[|h| - 1] == 0xE1 then 2 else 0
  }

  /** Agreeing with a history leaves no choice: it determines every global. */
  lemma AgreesMeans(st: State, h: seq<Byte>, kapplic: bool)
    ensures Agrees(st, h, kapplic) ==> st == Globals(h, kapplic) && !st.rebooted
  {
    hide Held, Edges, Count, Decimal, PadDigits, Rebooted;
  }

  /** Everything printed for the scancodes of a history. */
  function Typed(h: seq<Byte>, maps: Keymap, kapplic: bool): seq<Byte>
    requires KeymapOk(maps)
    decreases |h|
  {
    if h == [] then []
    else
      var before := h[..|h| - 1];
      Typed(before, maps, kapplic) + Echo(Globals(before, kapplic), h[|h| - 1], maps, kapplic)
  }

  lemma TypedSnoc(h: seq<Byte>, sc: Byte, maps: Keymap, kapplic: bool)
    requires KeymapOk(maps)
    ensures Typed(h + [sc], maps, kapplic) == Typed(h, maps, kapplic) + Echo(Globals(h, kapplic), sc, maps, kapplic)
  {
    hide Echo, Globals;
    assert (h + [sc])[..|h|] == h;
  }

  /** What the handler prints for a stream, from any state: nothing is handled after a reboot. */
  function EchoAll(st: State, stream: seq<Byte>, maps: Keymap, kapplic: bool): seq<Byte>
    requires KeymapOk(maps)
    decreases |stream|
  {
    if stream == [] || st.rebooted then []
    else Echo(st, stream[0], maps, kapplic) + EchoAll(Interrupted(st, stream[0], kapplic), stream[1..], maps, kapplic)
  }

  /**
   * For every stream up to a reboot, what is printed is what the history has typed: it depends on the scancodes only
   * through the keys held, the parity of the lock presses, and the pad digits.
   */
  lemma {:induction false} StreamTypes(st: State, h: seq<Byte>, stream: seq<Byte>, maps: Keymap, kapplic: bool)
    requires KeymapOk(maps) && Agrees(st, h, kapplic) && !Rebooted(h + stream)
    ensures Typed(h + stream, maps, kapplic) == Typed(h, maps, kapplic) + EchoAll(st, stream, maps, kapplic)
    decreases |stream|
  {
    hide Agrees, Interrupted, Echo, Globals, Rebooted, Typed;
    if stream == [] {
      assert h + [] == h;
    } else {
      var sc, rest := stream[0], stream[1..];
      assert h + stream == (h + [sc]) + rest;
      NoRebootBefore(h + [sc], rest);
      InterruptedAgrees(st, h, sc, kapplic);
      AgreesMeans(st, h, kapplic);
      TypedSnoc(h, sc, maps, kapplic);
      StreamTypes(Interrupted(st, sc, kapplic), h + [sc], rest, maps, kapplic);
    }
  }

  lemma NoRebootBefore(h: seq<Byte>, rest: seq<Byte>)
    requires !Rebooted(h + rest)
    ensures !Rebooted(h)
  {
    hide Rebooted;
    if Rebooted(h) {
      RebootLasts(h, rest);
    }
  }

  // ---- what single keys print ----

  /** The place of a letter in the alphabet, whatever its case; zero for anything else. */
  function LetterPlace(ch: Byte): nat {
    if 'a' as int <= ch <= 'z' as int then ch - 'a' as int + 1
    else if 'A' as int <= ch <= 'Z' as int then ch - 'A' as int + 1
    else 0
  }

  /**
   * The keys that type their table entry: by scancode, and for Enter, the slash and the pad's operators only where no
   * application mode takes them.
   */
  predicate TypesEntry(ke0: nat, sc: Byte, kapplic: bool) {
    || 0x01 <= sc <= 0x0D || 0x0F <= sc <= 0x1B || 0x1E <= sc <= 0x29 || 0x2B <= sc <= 0x34 || sc == 0x39 || sc == 0x56
    || (sc == 0x1C && !(ke0 == 1 && kapplic))
    || (sc == 0x35 && ke0 != 1)
    || ((sc == 0x37 || sc == 0x4A || sc == 0x4E) && !kapplic)
  }

  lemma EntryIsTyped(st: State, sc: Byte, maps: Keymap, kapplic: bool)
    requires KeymapOk(maps) && TypesEntry(st.ke0, sc, kapplic)
    ensures sc < 97 && Echo(st, sc, maps, kapplic) == SelfEcho(st.kmode, sc, maps)
  {
    hide SelfEcho;
  }

  /** Enter, slash and the operators print nothing when an application takes them; the pad's slash is no table entry. */
  lemma ApplicationKeys(st: State, sc: Byte, maps: Keymap)
    requires KeymapOk(maps)
    ensures sc == 0x1C && st.ke0 == 1 ==> Echo(st, sc, maps, true) == []
    ensures sc == 0x35 && st.ke0 == 1 ==> Echo(st, sc, maps, true) == [] && Echo(st, sc, maps, false) == [47]
    ensures sc == 0x37 || sc == 0x4A || sc == 0x4E ==> Echo(st, sc, maps, true) == []
  {
    hide SelfEcho;
  }

  /** Backspace prints a backspace, and F1 to F12 the strings of the layout, none under the left ALT. */
  lemma BackspaceAndFunctions(st: State, sc: Byte, maps: Keymap, kapplic: bool)
    requires KeymapOk(maps)
    ensures sc == 0x0E ==> Echo(st, sc, maps, kapplic) == if st.ke0 == 1 then [] else [8]
    ensures 0x3B <= sc <= 0x44 ==> Echo(st, sc, maps, kapplic) == if st.kmode.alt.left then [] else maps.func[sc - 0x3B]
    ensures sc == 0x57 ==> Echo(st, sc, maps, kapplic) == if st.kmode.alt.left then [] else maps.func[10]
    ensures sc == 0x58 ==> Echo(st, sc, maps, kapplic) == if st.kmode.alt.left then [] else maps.func[11]
  {
    hide SelfEcho;
  }

  /**
   * The keys of the pad but its operators print under NUM LOCK, unless they are the cursor block's or ALT takes their
   * digit; DEL prints a comma, unless it reboots.
   */
  lemma PadPrints(st: State, sc: Byte, maps: Keymap, kapplic: bool)
    requires KeymapOk(maps) && 0x47 <= sc <= 0x53 && sc != 0x4A && sc != 0x4E
    ensures var reboots := sc == 0x53 && (st.kmode.ctrl.left || st.kmode.ctrl.right)
                           && (st.kmode.alt.left || st.kmode.alt.right);
      Echo(st, sc, maps, kapplic) ==
        if st.kleds.num && st.ke0 != 1 && !reboots && (sc == 0x53 || !st.kmode.alt.left)
        then ["789-456+1230,"[sc - 0x47] as int] else []
  {
    hide SelfEcho;
  }

  /** Modifiers, locks and unused codes print nothing, and neither does the release of ALTGR. */
  lemma SilentCodes(st: State, sc: Byte, maps: Keymap, kapplic: bool)
    requires KeymapOk(maps)
    requires sc in [0, 0x1D, 0x2A, 0x36, 0x38, 0x3A, 0x45, 0x46, 0x54, 0x55] || (sc == 0xB8 && st.ke0 != 0)
    ensures Echo(st, sc, maps, kapplic) == []
  {
    hide SelfEcho;
  }

  /** CTRL keeps five bits of the table entry, CAPS LOCK, SHIFT and ALTGR or not: of a letter, its place. */
  lemma {:induction false} ControlCode(h: seq<Byte>, sc: Byte, maps: Keymap, kapplic: bool)
    requires KeymapOk(maps) && TypesEntry(PrefixOf(h), sc, kapplic)
    requires (Held(h, LCTRL) || Held(h, RCTRL)) && !Held(h, LALT)
    ensures var entry := if Held(h, ALTGR) then maps.alt[sc] else maps.shift[sc];
      && Echo(Globals(h, kapplic), sc, maps, kapplic) == (if entry == 0 then [] else [entry % 32])
      && (LetterPlace(entry) != 0 ==> entry % 32 == LetterPlace(entry))
  {
    hide Held, Edges, Count, Decimal, PadDigits;
    EntryIsTyped(Globals(h, kapplic), sc, maps, kapplic);
    hide Echo, TypesEntry;
  }

  lemma TopBit(m: Kmode, sc: Byte, maps: Keymap)
    requires KeymapOk(maps) && sc < 97
    ensures var with, without := m.(alt := m.alt.(left := true)), m.(alt := m.alt.(left := false));
      var a, b := SelfEcho(with, sc, maps), SelfEcho(without, sc, maps);
      && |a| == |b| <= 1
      && forall k :: 0 <= k < |a| ==> 128 <= a[k] && a[k] % 128 == b[k] % 128
  {
  }

  /** The left ALT makes no other difference to what a key prints than to set the eighth bit. */
  lemma {:induction false} AltSetsTopBit(st: State, sc: Byte, maps: Keymap, kapplic: bool)
    requires KeymapOk(maps) && TypesEntry(st.ke0, sc, kapplic)
    ensures var with := st.(kmode := st.kmode.(alt := st.kmode.alt.(left := true)));
      var without := st.(kmode := st.kmode.(alt := st.kmode.alt.(left := false)));
      var a, b := Echo(with, sc, maps, kapplic), Echo(without, sc, maps, kapplic);
      && |a| == |b| <= 1
      && forall k :: 0 <= k < |a| ==> 128 <= a[k] && a[k] % 128 == b[k] % 128
  {
    var with := st.(kmode := st.kmode.(alt := st.kmode.alt.(left := true)));
    var without := st.(kmode := st.kmode.(alt := st.kmode.alt.(left := false)));
    EntryIsTyped(with, sc, maps, kapplic);
    EntryIsTyped(without, sc, maps, kapplic);
    TopBit(st.kmode, sc, maps);
    hide Echo, TypesEntry, SelfEcho;
  }

  /**
   * Without CTRL and ALT a key prints its table entry, and CAPS LOCK makes it upper case: never lower case, even
   * shifted.
   */
  lemma {:induction false} CapsLockTypes(h: seq<Byte>, sc: Byte, maps: Keymap, kapplic: bool)
    requires KeymapOk(maps) && TypesEntry(PrefixOf(h), sc, kapplic)
    requires !Held(h, LCTRL) && !Held(h, RCTRL) && !Held(h, LALT)
    ensures var entry := if Held(h, ALTGR) then maps.alt[sc]
                         else if Held(h, LSHIFT) || Held(h, RSHIFT) then maps.shift[sc] else maps.key[sc];
      var caps := Edges(h, CAPSLOCK) % 2 == 1;
      var lower := 97 <= entry <= 122 || 224 <= entry <= 254;
      var echo := Echo(Globals(h, kapplic), sc, maps, kapplic);
      && (entry == 0 <==> echo == [])
      && (entry != 0 && (!caps || !lower) ==> echo == [entry])
      && (caps && lower ==> echo == [entry - 32])
      && (caps ==> forall c :: c in echo ==> !(97 <= c <= 122 || 224 <= c <= 254))
  {
    hide Held, Edges, Count, Decimal, PadDigits;
    EntryIsTyped(Globals(h, kapplic), sc, maps, kapplic);
    hide Echo, TypesEntry;
  }

  /** Releases print nothing, but for the ALT keys. */
  lemma ReleasesAreSilent(st: State, sc: Byte, maps: Keymap, kapplic: bool)
    requires KeymapOk(maps) && 0x59 <= sc && sc != 0xB8
    ensures Echo(st, sc, maps, kapplic) == []
  {
  }

  /** The key of a pad digit. */
  function PadKey(d: nat): (sc: Byte)
    requires d < 10
    ensures 0x47 <= sc <= 0x52 && sc != 0x4A && sc != 0x4E && PAD_MAP[sc - 0x47] == d
  {
    if d == 0 then 0x52
    else if d <= 3 then 0x4E + d
    else if d <= 6 then 0x47 + d
    else 0x40 + d
  }

  lemma PadKeys(d: nat)
    requires d < 10
    ensures PadKey(d) == [0x52, 0x4F, 0x50, 0x51, 0x4B, 0x4C, 0x4D, 0x47, 0x48, 0x49][d]
  {
  }

  /** A pad key prints its digit under NUM LOCK; under the left ALT it prints nothing and its digit is gathered. */
  lemma {:induction false} PadKeyTypes(h: seq<Byte>, d: nat, maps: Keymap, kapplic: bool)
    requires KeymapOk(maps) && d < 10 && PrefixOf(h) == 0
    ensures PadDigits(h + [PadKey(d)]) == PadDigits(h) + if Held(h, LALT) then [d] else []
    ensures Echo(Globals(h, kapplic), PadKey(d), maps, kapplic) ==
      if !Held(h, LALT) && (kapplic || Count(h, 0x45) % 2 == 0) then ['0' as int + d] else []
  {
    hide Held, Edges, Count, Decimal, PadDigits;
    PadDigitsStep(h, PadKey(d), 0);
  }

  /** Releasing the left ALT prints the code gathered under it, once, and starts the next one from nothing. */
  lemma {:induction false} AltCode(h: seq<Byte>, maps: Keymap, kapplic: bool)
    requires KeymapOk(maps) && PrefixOf(h) == 0
    ensures var code := Decimal(PadDigits(h)) % 0x1_0000_0000;
      Echo(Globals(h, kapplic), 0xB8, maps, kapplic) == if code != 0 then [code % 0x100] else []
    ensures PadDigits(h + [0xB8]) == []
  {
    hide Held, PadDigits, Decimal, Edges, Count;
    PadDigitsStep(h, 0xB8, 0);
  }

  // ---- a code typed on the pad ----

  /** Each digit's key pressed and let go. */
  function PadStrokes(digits: seq<nat>): seq<Byte>
    requires forall k :: 0 <= k < |digits| ==> digits[k] < 10
  {
    if digits == [] then []
    else PadStrokes(digits[..|digits| - 1]) + [PadKey(digits[|digits| - 1]), PadKey(digits[|digits| - 1]) + 0x80]
  }

  /** One digit under the left ALT: nothing is printed, ALT stays held, and the digit is gathered. */
  lemma {:induction false} StrokeUnderAlt(h: seq<Byte>, d: nat, maps: Keymap, kapplic: bool)
    requires KeymapOk(maps) && d < 10 && PrefixOf(h) == 0 && Held(h, LALT)
    ensures var g := h + [PadKey(d), PadKey(d) + 0x80];
      && PrefixOf(g) == 0 && Held(g, LALT) && PadDigits(g) == PadDigits(h) + [d]
      && Typed(g, maps, kapplic) == Typed(h, maps, kapplic)
  {
    hide Held, Globals, Echo, PadDigits, Typed;
    var g := h + [PadKey(d)];
    assert h + [PadKey(d), PadKey(d) + 0x80] == g + [PadKey(d) + 0x80];
    PadKeyTypes(h, d, maps, kapplic);
    LastEvent(h, PadKey(d), 0, LALT);
    TypedSnoc(h, PadKey(d), maps, kapplic);
    PadDigitsStep(g, PadKey(d) + 0x80, 0);
    LastEvent(g, PadKey(d) + 0x80, 0, LALT);
    TypedSnoc(g, PadKey(d) + 0x80, maps, kapplic);
    ReleasesAreSilent(Globals(g, kapplic), PadKey(d) + 0x80, maps, kapplic);
  }

  lemma {:induction false} LastStroke(h: seq<Byte>, ds: seq<nat>, d: nat)
    requires d < 10 && forall k :: 0 <= k < |ds| ==> ds[k] < 10
    ensures h + PadStrokes(ds + [d]) == (h + PadStrokes(ds)) + [PadKey(d), PadKey(d) + 0x80]
  {
    hide PadKey;
    assert (ds + [d])[..|ds|] == ds;
    var last := [PadKey(d), PadKey(d) + 0x80];
    assert PadStrokes(ds + [d]) == PadStrokes(ds) + last;
    assert h + (PadStrokes(ds) + last) == (h + PadStrokes(ds)) + last;
  }

  lemma {:induction false} StrokesUnderAlt(h: seq<Byte>, digits: seq<nat>, maps: Keymap, kapplic: bool)
    requires KeymapOk(maps) && PrefixOf(h) == 0 && Held(h, LALT)
    requires forall k :: 0 <= k < |digits| ==> digits[k] < 10
    ensures var g := h + PadStrokes(digits);
      && PrefixOf(g) == 0 && Held(g, LALT) && PadDigits(g) == PadDigits(h) + digits
      && Typed(g, maps, kapplic) == Typed(h, maps, kapplic)
    decreases |digits|
  {
    hide Held, PadDigits, Typed;
    if digits == [] {
      assert h + [] == h;
    } else {
      var n := |digits| - 1;
      var ds, d := digits[..n], digits[n];
      LastStroke(h, ds, d);
      assert digits == ds + [d];
      hide PadStrokes, PadKey;
      StrokesUnderAlt(h, ds, maps, kapplic);
      StrokeUnderAlt(h + PadStrokes(ds), d, maps, kapplic);
      assert PadDigits(h) + digits == (PadDigits(h) + ds) + [d];
    }
  }

  /** Digits are gathered under the left ALT only. */
  lemma {:induction false} NoDigitsWithoutAlt(h: seq<Byte>)
    ensures PadDigits(h) != [] ==> Held(h, LALT)
    decreases |h|
  {
    if h != [] {
      NoDigitsWithoutAlt(h[..|h| - 1]);
    }
  }

  /**
   * ALT down, any digits on the pad, ALT up: exactly the character of the number they spell is printed, modulo 2^32 and
   * then 256, or nothing if the number is zero modulo 2^32.
   */
  lemma {:induction false} AltCodeTypes(h: seq<Byte>, digits: seq<nat>, maps: Keymap, kapplic: bool)
    requires KeymapOk(maps) && PrefixOf(h) == 0 && !Held(h, LALT)
    requires forall k :: 0 <= k < |digits| ==> digits[k] < 10
    ensures var code := Decimal(digits) % 0x1_0000_0000;
      Typed(h + [0x38] + PadStrokes(digits) + [0xB8], maps, kapplic)
        == Typed(h, maps, kapplic) + if code != 0 then [code % 0x100] else []
  {
    hide Held, PadDigits, Decimal, Globals, Echo, Typed;
    var down := h + [0x38];
    var g := down + PadStrokes(digits);
    NoDigitsWithoutAlt(h);
    PadDigitsStep(h, 0x38, 0);
    LastEvent(h, 0x38, 0, LALT);
    TypedSnoc(h, 0x38, maps, kapplic);
    AltDownIsSilent(Globals(h, kapplic), maps, kapplic);
    assert PrefixOf(down) == 0 && Held(down, LALT) && PadDigits(down) == [];
    assert Typed(down, maps, kapplic) == Typed(h, maps, kapplic);
    StrokesUnderAlt(down, digits, maps, kapplic);
    assert PadDigits(g) == digits;
    TypedSnoc(g, 0xB8, maps, kapplic);
    AltCode(g, maps, kapplic);
  }

  lemma AltDownIsSilent(st: State, maps: Keymap, kapplic: bool)
    requires KeymapOk(maps)
    ensures Echo(st, 0x38, maps, kapplic) == []
  {
  }

  /** ALT and 1, 2, 6 on the pad print `~`. */
  lemma {:induction false} AltTilde(h: seq<Byte>, maps: Keymap, kapplic: bool)
    requires KeymapOk(maps) && PrefixOf(h) == 0 && !Held(h, LALT)
    ensures Typed(h + [0x38, 0x4F, 0xCF, 0x50, 0xD0, 0x4D, 0xCD, 0xB8], maps, kapplic)
         == Typed(h, maps, kapplic) + [126]
  {
    hide Held, Typed, PadDigits, Globals, Echo;
    AltCodeTypes(h, [1, 2, 6], maps, kapplic);
    StrokesOf126();
    assert h + [0x38] + PadStrokes([1, 2, 6]) + [0xB8] == h + [0x38, 0x4F, 0xCF, 0x50, 0xD0, 0x4D, 0xCD, 0xB8];
  }

  lemma StrokesOf126()
    ensures Decimal([1, 2, 6]) == 126
    ensures PadStrokes([1, 2, 6]) == [0x4F, 0xCF, 0x50, 0xD0, 0x4D, 0xCD]
  {
    assert [1, 2, 6][..2] == [1, 2];
    assert [1, 2][..1] == [1];
    assert [1][..0] == [];
  }
}
