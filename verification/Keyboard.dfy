/** The keyboard handler (dev/keyboard.c), and what a history of scancodes says its state must be. */
module Keyboard {
  import opened Word32

  /** The bits of a modifier that has a left and a right key; ALTGR is the right ALT. */
  datatype Sides = Sides(left: bool, right: bool)

  /** The bits of `kmode`. */
  datatype Kmode = Kmode(shift: Sides, ctrl: Sides, alt: Sides, caps: bool, capsdown: bool)

  /** The bits of `kleds`. */
  datatype Leds = Leds(scroll: bool, num: bool, caps: bool)

  /** The globals; `rebooted` stands for a processor that has been told to reset and never returns. */
  datatype State = State(kmode: Kmode, ke0: nat, kleds: Leds, oldLeds: Leds, npadch: Word, rebooted: bool)

  const INITIAL := State(
    Kmode(Sides(false, false), Sides(false, false), Sides(false, false), false, false), 0,
    Leds(false, true, false), Leds(false, true, false), 0, false)

  datatype Handler =
    | NoHandler | DoSelf | Enter | Backspace | Ctrl | Unctrl | Lshift | Unlshift | Rshift | Unrshift
    | Slash | Star | Minus | Plus | Alt | Unalt | Caps | Uncaps | Func | Num | Scroll | Cursor

  /** `key_table` */
  function KeyTable(sc: Byte): Handler {
    if sc == 0 then NoHandler
    else if sc == 0x0E then Backspace
    else if sc == 0x1C then Enter
    else if sc == 0x1D then Ctrl
    else if sc == 0x2A then Lshift
    else if sc == 0x35 then Slash
    else if sc == 0x36 then Rshift
    else if sc == 0x37 then Star
    else if sc == 0x38 then Alt
    else if sc == 0x3A then Caps
    else if sc <= 0x39 then DoSelf
    else if sc <= 0x44 || sc == 0x57 || sc == 0x58 then Func
    else if sc == 0x45 then Num
    else if sc == 0x46 then Scroll
    else if sc == 0x4A then Minus
    else if sc == 0x4E then Plus
    else if sc <= 0x53 then Cursor
    else if sc == 0x56 then DoSelf
    else if sc == 0x9D then Unctrl
    else if sc == 0xAA then Unlshift
    else if sc == 0xB6 then Unrshift
    else if sc == 0xB8 then Unalt
    else if sc == 0xBA then Uncaps
    else NoHandler
  }

  /** `pad_map`, the same for both keymaps. */
  const PAD_MAP: seq<nat> := [7, 8, 9, 0, 4, 5, 6, 0, 1, 2, 3, 0, 0]

  // ---- what a history of scancodes says ----

  predicate IsPrefix(b: Byte) {
    b == 0xE0 || b == 0xE1
  }

  /** The byte at `i` was introduced by a prefix byte. */
  predicate Prefixed(h: seq<Byte>, i: nat)
    requires i < |h|
  {
    0 < i && IsPrefix(h[i - 1])
  }

  /** Which of two keys with the same code: the one without a prefix, the one with it, or either. */
  datatype Side = Left | Right | Either

  datatype Key = Key(press: Byte, release: Byte, side: Side)

  const LSHIFT := Key(0x2A, 0xAA, Either)
  const RSHIFT := Key(0x36, 0xB6, Either)
  const LCTRL := Key(0x1D, 0x9D, Left)
  const RCTRL := Key(0x1D, 0x9D, Right)
  const LALT := Key(0x38, 0xB8, Left)
  const ALTGR := Key(0x38, 0xB8, Right)
  const CAPSLOCK := Key(0x3A, 0xBA, Either)

  predicate OnSide(h: seq<Byte>, i: nat, side: Side)
    requires i < |h|
  {
    match side
    case Left => !Prefixed(h, i)
    case Right => Prefixed(h, i)
    case Either => true
  }

  predicate Pressed(h: seq<Byte>, i: nat, k: Key)
    requires i < |h|
  {
    h[i] == k.press && OnSide(h, i, k.side)
  }

  predicate Released(h: seq<Byte>, i: nat, k: Key)
    requires i < |h|
  {
    h[i] == k.release && OnSide(h, i, k.side)
  }

  /** The key is down: its last event was a press. */
  predicate Held(h: seq<Byte>, k: Key)
    decreases |h|
  {
    if h == [] then false
    else if Pressed(h, |h| - 1, k) then true
    else if Released(h, |h| - 1, k) then false
    else Held(h[..|h| - 1], k)
  }

  /** Held, said without recursion: pressed at some time, and not released since. */
  lemma {:induction false} HeldMeans(h: seq<Byte>, k: Key)
    requires k.press != k.release
    ensures Held(h, k) <==>
      exists i :: 0 <= i < |h| && Pressed(h, i, k) && forall j :: i < j < |h| ==> !Released(h, j, k)
    decreases |h|
  {
    if h != [] {
      var n := |h| - 1;
      var g := h[..n];
      HeldMeans(g, k);
      assert forall i :: 0 <= i < n ==>
        (Pressed(h, i, k) <==> Pressed(g, i, k)) && (Released(h, i, k) <==> Released(g, i, k));
      if Held(h, k) {
        if !Pressed(h, n, k) {
          var i :| 0 <= i < n && Pressed(g, i, k) && forall j :: i < j < n ==> !Released(g, j, k);
          assert Pressed(h, i, k);
        } else {
          assert Pressed(h, n, k);
        }
      }
      forall i | 0 <= i < |h| && Pressed(h, i, k) && forall j :: i < j < |h| ==> !Released(h, j, k) ensures Held(h, k) {
        if i < n {
          assert Pressed(g, i, k);
        }
      }
    }
  }

  /** How often the key went down, repeats not counted. */
  function Edges(h: seq<Byte>, k: Key): nat
    decreases |h|
  {
    if h == [] then 0
    else
      var g := h[..|h| - 1];
      Edges(g, k) + if Pressed(h, |h| - 1, k) && !Held(g, k) then 1 else 0
  }

  function Count(h: seq<Byte>, code: Byte): nat
    decreases |h|
  {
    if h == [] then 0 else Count(h[..|h| - 1], code) + if h[|h| - 1] == code then 1 else 0
  }

  /** A digit of the numeric pad: not the `-`, the `+` or the point, and not the cursor key with the same code. */
  predicate PadEvent(h: seq<Byte>, i: nat)
    requires i < |h|
  {
    0x47 <= h[i] <= 0x52 && h[i] != 0x4A && h[i] != 0x4E && !(0 < i && h[i - 1] == 0xE0)
  }

  /** The pad digits entered under the left ALT key since it was last released. */
  function PadDigits(h: seq<Byte>): seq<nat>
    decreases |h|
  {
    if h == [] then []
    else
      var n := |h| - 1;
      var digits := PadDigits(h[..n]);
      if Released(h, n, LALT) then []
      else if PadEvent(h, n) && Held(h[..n], LALT) then digits + [PAD_MAP[h[n] - 0x47]]
      else digits
  }

  /** The decimal number the digits spell. */
  function Decimal(digits: seq<nat>): nat {
    if digits == [] then 0 else Decimal(digits[..|digits| - 1]) * 10 + digits[|digits| - 1]
  }

  /** CTRL-ALT-DEL: the pad's or the cursor block's DEL while a control and an alternate key are down. */
  predicate RebootsAt(h: seq<Byte>, i: nat)
    requires i < |h|
  {
    && h[i] == 0x53
    && (Held(h[..i], LCTRL) || Held(h[..i], RCTRL))
    && (Held(h[..i], LALT) || Held(h[..i], ALTGR))
  }

  ghost predicate Rebooted(h: seq<Byte>) {
    exists i :: 0 <= i < |h| && RebootsAt(h, i)
  }

  ghost predicate ModifiersAgree(m: Kmode, h: seq<Byte>) {
    && (m.shift.left <==> Held(h, LSHIFT)) && (m.shift.right <==> Held(h, RSHIFT))
    && (m.ctrl.left <==> Held(h, LCTRL)) && (m.ctrl.right <==> Held(h, RCTRL))
    && (m.alt.left <==> Held(h, LALT)) && (m.alt.right <==> Held(h, ALTGR))
    && (m.capsdown <==> Held(h, CAPSLOCK))
  }

  ghost predicate LedsAgree(st: State, h: seq<Byte>, kapplic: bool) {
    && (st.kmode.caps <==> Edges(h, CAPSLOCK) % 2 == 1)
    && (st.kleds.caps <==> st.kmode.caps)
    && (st.kleds.num <==> kapplic || Count(h, 0x45) % 2 == 0)
    && (st.kleds.scroll <==> Count(h, 0x46) % 2 == 1)
    && st.oldLeds == st.kleds
  }

  ghost predicate PadAgrees(st: State, h: seq<Byte>) {
    && st.npadch == Decimal(PadDigits(h)) % 0x1_0000_0000
    && (PadDigits(h) != [] ==> Held(h, LALT))
  }

  predicate PrefixAgrees(ke0: nat, h: seq<Byte>) {
    ke0 == if h == [] then 0 else if h[|h| - 1] == 0xE0 then 1 else if h[|h| - 1] == 0xE1 then 2 else 0
  }

  /** The globals are what the scancodes so far say they should be. */
  ghost predicate Agrees(st: State, h: seq<Byte>, kapplic: bool) {
    && !st.rebooted && !Rebooted(h)
    && PrefixAgrees(st.ke0, h)
    && ModifiersAgree(st.kmode, h)
    && LedsAgree(st, h, kapplic)
    && PadAgrees(st, h)
  }

  // ---- one scancode ----

  function ShiftAfter(p: Sides, sc: Byte): Sides {
    match KeyTable(sc)
    case Lshift => p.(left := true)
    case Unlshift => p.(left := false)
    case Rshift => p.(right := true)
    case Unrshift => p.(right := false)
    case _ => p
  }

  function CtrlAfter(p: Sides, ke0: nat, sc: Byte): Sides {
    match KeyTable(sc)
    case Ctrl => if ke0 != 0 then p.(right := true) else p.(left := true)
    case Unctrl => if ke0 != 0 then p.(right := false) else p.(left := false)
    case _ => p
  }

  function AltAfter(p: Sides, ke0: nat, sc: Byte): Sides {
    match KeyTable(sc)
    case Alt => if ke0 != 0 then p.(right := true) else p.(left := true)
    case Unalt => if ke0 != 0 then p.(right := false) else p.(left := false)
    case _ => p
  }

  /** What the handlers do to `kmode`. CAPS LOCK turns over on its first press, and not again before its release. */
  function ModeAfter(m: Kmode, ke0: nat, sc: Byte): Kmode {
    Kmode(ShiftAfter(m.shift, sc), CtrlAfter(m.ctrl, ke0, sc), AltAfter(m.alt, ke0, sc),
          if KeyTable(sc) == Caps && !m.capsdown then !m.caps else m.caps,
          if KeyTable(sc) == Caps then true else if KeyTable(sc) == Uncaps then false else m.capsdown)
  }

  /** The handlers that end in `set_leds`. */
  predicate SetsLeds(m: Kmode, sc: Byte, kapplic: bool) {
    match KeyTable(sc)
    case Caps => !m.capsdown
    case Num => !kapplic
    case Scroll => true
    case _ => false
  }

  function LedsAfter(leds: Leds, m: Kmode, sc: Byte, kapplic: bool): Leds {
    if !SetsLeds(m, sc, kapplic) then leds
    else if sc == 0x3A then leds.(caps := !leds.caps)
    else if sc == 0x45 then leds.(num := !leds.num)
    else leds.(scroll := !leds.scroll)
  }

  function PadAfter(npadch: Word, m: Kmode, ke0: nat, sc: Byte): Word {
    if KeyTable(sc) == Unalt && ke0 == 0 then 0
    else if KeyTable(sc) == Cursor && ke0 != 1 && m.alt.left && sc != 0x53 then
      (npadch * 10 + PAD_MAP[sc - 0x47]) % 0x1_0000_0000
    else npadch
  }

  predicate Reboots(m: Kmode, sc: Byte) {
    sc == 0x53 && (m.ctrl.left || m.ctrl.right) && (m.alt.left || m.alt.right)
  }

  /** One interrupt. A prefix byte is remembered for the next; any other byte uses the prefix up, unless it reboots. */
  function Interrupted(st: State, sc: Byte, kapplic: bool): State {
    if sc == 0xE0 then st.(ke0 := 1)
    else if sc == 0xE1 then st.(ke0 := 2)
    else if Reboots(st.kmode, sc) then st.(rebooted := true)
    else
      var leds := LedsAfter(st.kleds, st.kmode, sc, kapplic);
      State(ModeAfter(st.kmode, st.ke0, sc), 0, leds, if SetsLeds(st.kmode, sc, kapplic) then leds else st.oldLeds,
            PadAfter(st.npadch, st.kmode, st.ke0, sc), st.rebooted)
  }

  /** The scancodes of the handlers that keep state. */
  lemma Codes(sc: Byte)
    ensures (KeyTable(sc) == Ctrl <==> sc == 0x1D) && (KeyTable(sc) == Unctrl <==> sc == 0x9D)
    ensures (KeyTable(sc) == Lshift <==> sc == 0x2A) && (KeyTable(sc) == Unlshift <==> sc == 0xAA)
    ensures (KeyTable(sc) == Rshift <==> sc == 0x36) && (KeyTable(sc) == Unrshift <==> sc == 0xB6)
    ensures (KeyTable(sc) == Alt <==> sc == 0x38) && (KeyTable(sc) == Unalt <==> sc == 0xB8)
    ensures (KeyTable(sc) == Caps <==> sc == 0x3A) && (KeyTable(sc) == Uncaps <==> sc == 0xBA)
    ensures (KeyTable(sc) == Num <==> sc == 0x45) && (KeyTable(sc) == Scroll <==> sc == 0x46)
    ensures KeyTable(sc) == Cursor <==> 0x47 <= sc <= 0x53 && sc != 0x4A && sc != 0x4E
  {
  }

  /** The bits of `kmode`, one at a time. */
  lemma ModeFields(m: Kmode, ke0: nat, sc: Byte)
    ensures var t := ModeAfter(m, ke0, sc);
      && t.shift.left == (if sc == 0x2A then true else if sc == 0xAA then false else m.shift.left)
      && t.shift.right == (if sc == 0x36 then true else if sc == 0xB6 then false else m.shift.right)
      && t.ctrl.left == (if sc == 0x1D && ke0 == 0 then true else if sc == 0x9D && ke0 == 0 then false else m.ctrl.left)
      && t.ctrl.right ==
        (if sc == 0x1D && ke0 != 0 then true else if sc == 0x9D && ke0 != 0 then false else m.ctrl.right)
    ensures var t := ModeAfter(m, ke0, sc);
      && t.alt.left == (if sc == 0x38 && ke0 == 0 then true else if sc == 0xB8 && ke0 == 0 then false else m.alt.left)
      && t.alt.right == (if sc == 0x38 && ke0 != 0 then true else if sc == 0xB8 && ke0 != 0 then false else m.alt.right)
      && t.capsdown == (if sc == 0x3A then true else if sc == 0xBA then false else m.capsdown)
      && t.caps == (if sc == 0x3A && !m.capsdown then !m.caps else m.caps)
  {
    hide KeyTable;
    Codes(sc);
  }

  lemma LedFields(leds: Leds, m: Kmode, sc: Byte, kapplic: bool)
    ensures var t := LedsAfter(leds, m, sc, kapplic);
      && t.caps == (if sc == 0x3A && !m.capsdown then !leds.caps else leds.caps)
      && t.num == (if sc == 0x45 && !kapplic then !leds.num else leds.num)
      && t.scroll == (if sc == 0x46 then !leds.scroll else leds.scroll)
      && (!SetsLeds(m, sc, kapplic) ==> t == leds)
  {
    hide KeyTable;
    Codes(sc);
  }

  lemma LastEvent(h: seq<Byte>, sc: Byte, ke0: nat, k: Key)
    requires PrefixAgrees(ke0, h)
    ensures var g := h + [sc];
      && (OnSide(g, |h|, k.side) <==> k.side == Either || (k.side == Right <==> ke0 != 0))
      && (Held(g, k) <==> if Pressed(g, |h|, k) then true else if Released(g, |h|, k) then false else Held(h, k))
  {
    assert (h + [sc])[..|h|] == h;
  }

  lemma ShiftAndCtrlStep(m: Kmode, ke0: nat, h: seq<Byte>, sc: Byte)
    requires PrefixAgrees(ke0, h) && ModifiersAgree(m, h)
    ensures var t := ModeAfter(m, ke0, sc);
      && (t.shift.left <==> Held(h + [sc], LSHIFT)) && (t.shift.right <==> Held(h + [sc], RSHIFT))
      && (t.ctrl.left <==> Held(h + [sc], LCTRL)) && (t.ctrl.right <==> Held(h + [sc], RCTRL))
  {
    hide Held, PrefixAgrees, OnSide, ModeAfter;
    ModeFields(m, ke0, sc);
    LastEvent(h, sc, ke0, LSHIFT);
    LastEvent(h, sc, ke0, RSHIFT);
    LastEvent(h, sc, ke0, LCTRL);
    LastEvent(h, sc, ke0, RCTRL);
  }

  lemma AltAndCapsStep(m: Kmode, ke0: nat, h: seq<Byte>, sc: Byte)
    requires PrefixAgrees(ke0, h) && ModifiersAgree(m, h)
    ensures var t := ModeAfter(m, ke0, sc);
      && (t.alt.left <==> Held(h + [sc], LALT)) && (t.alt.right <==> Held(h + [sc], ALTGR))
      && (t.capsdown <==> Held(h + [sc], CAPSLOCK))
  {
    hide Held, PrefixAgrees, OnSide, ModeAfter;
    ModeFields(m, ke0, sc);
    LastEvent(h, sc, ke0, LALT);
    LastEvent(h, sc, ke0, ALTGR);
    LastEvent(h, sc, ke0, CAPSLOCK);
  }

  lemma {:induction false} ModifiersStep(st: State, h: seq<Byte>, sc: Byte, kapplic: bool)
    requires PrefixAgrees(st.ke0, h) && ModifiersAgree(st.kmode, h) && !Reboots(st.kmode, sc)
    ensures ModifiersAgree(Interrupted(st, sc, kapplic).kmode, h + [sc])
  {
    hide Held, PrefixAgrees, ModeAfter, LedsAfter, PadAfter, SetsLeds;
    ShiftAndCtrlStep(st.kmode, st.ke0, h, sc);
    AltAndCapsStep(st.kmode, st.ke0, h, sc);
    if IsPrefix(sc) {
      PrefixKeepsMode(st.kmode, st.ke0, sc);
    }
  }

  lemma PrefixKeepsMode(m: Kmode, ke0: nat, sc: Byte)
    requires IsPrefix(sc)
    ensures ModeAfter(m, ke0, sc) == m
  {
    hide KeyTable;
    Codes(sc);
  }

  lemma CountsStep(h: seq<Byte>, sc: Byte)
    ensures Edges(h + [sc], CAPSLOCK) == Edges(h, CAPSLOCK) + if sc == 0x3A && !Held(h, CAPSLOCK) then 1 else 0
    ensures Count(h + [sc], 0x45) == Count(h, 0x45) + if sc == 0x45 then 1 else 0
    ensures Count(h + [sc], 0x46) == Count(h, 0x46) + if sc == 0x46 then 1 else 0
  {
    assert (h + [sc])[..|h|] == h;
  }

  lemma {:induction false} LedsStep(st: State, h: seq<Byte>, sc: Byte, kapplic: bool)
    requires ModifiersAgree(st.kmode, h) && LedsAgree(st, h, kapplic) && !Reboots(st.kmode, sc)
    ensures LedsAgree(Interrupted(st, sc, kapplic), h + [sc], kapplic)
  {
    hide Held, Edges, Count, ModeAfter, PadAfter, LedsAfter, SetsLeds, KeyTable;
    ModeFields(st.kmode, st.ke0, sc);
    LedFields(st.kleds, st.kmode, sc, kapplic);
    CountsStep(h, sc);
  }

  lemma PadDigitsStep(h: seq<Byte>, sc: Byte, ke0: nat)
    requires PrefixAgrees(ke0, h)
    ensures PadDigits(h + [sc]) ==
      if sc == 0xB8 && ke0 == 0 then []
      else if 0x47 <= sc <= 0x52 && sc != 0x4A && sc != 0x4E && ke0 != 1 && Held(h, LALT)
      then PadDigits(h) + [PAD_MAP[sc - 0x47]]
      else PadDigits(h)
  {
    assert (h + [sc])[..|h|] == h;
    hide Held;
  }

  lemma DecimalSnoc(digits: seq<nat>, d: nat)
    ensures Decimal(digits + [d]) % 0x1_0000_0000 == (Decimal(digits) % 0x1_0000_0000 * 10 + d) % 0x1_0000_0000
  {
    assert (digits + [d])[..|digits|] == digits;
    ShiftModulo(Decimal(digits), d);
  }

  lemma ShiftModulo(n: nat, d: nat)
    ensures (n * 10 + d) % 0x1_0000_0000 == (n % 0x1_0000_0000 * 10 + d) % 0x1_0000_0000
  {
  }

  lemma {:induction false} PadStep(st: State, h: seq<Byte>, sc: Byte, kapplic: bool)
    requires PrefixAgrees(st.ke0, h) && ModifiersAgree(st.kmode, h) && PadAgrees(st, h) && !Reboots(st.kmode, sc)
    ensures PadAgrees(Interrupted(st, sc, kapplic), h + [sc])
  {
    hide Held, PadDigits, Decimal, OnSide, ModeAfter, LedsAfter, SetsLeds;
    PadDigitsStep(h, sc, st.ke0);
    LastEvent(h, sc, st.ke0, LALT);
    if 0x47 <= sc <= 0x52 {
      DecimalSnoc(PadDigits(h), PAD_MAP[sc - 0x47]);
    }
    DecimalOfNone();
  }

  /**
   * The C `int` that gathers the digits overflows on the way exactly when the number they spell is too large for one;
   * the register goes on modulo 2^32.
   */
  lemma {:induction false} PadCodeFits(digits: seq<nat>)
    ensures (forall k :: 0 <= k <= |digits| ==> Decimal(digits[..k]) <= INT_MAX) <==> Decimal(digits) <= INT_MAX
    decreases |digits|
  {
    assert digits[..|digits|] == digits;
    if digits != [] {
      var rest := digits[..|digits| - 1];
      PadCodeFits(rest);
      assert forall k :: 0 <= k < |digits| ==> digits[..k] == rest[..k];
    }
  }

  lemma DecimalOfNone()
    ensures Decimal([]) == 0
  {
  }

  lemma RebootStep(st: State, h: seq<Byte>, sc: Byte, kapplic: bool)
    requires Agrees(st, h, kapplic)
    ensures Interrupted(st, sc, kapplic).rebooted <==> Rebooted(h + [sc])
  {
    hide Held, PadAgrees, LedsAgree, Prefixed, ModeAfter, LedsAfter, PadAfter, SetsLeds;
    var g := h + [sc];
    assert g[..|h|] == h;
    forall i | 0 <= i < |h| ensures !RebootsAt(g, i) {
      assert g[..i] == h[..i];
      assert !RebootsAt(h, i);
    }
    if RebootsAt(g, |h|) {
      assert Rebooted(g);
    }
  }

  /** Whatever scancode comes next, the globals go on agreeing with the history, up to a reboot. */
  lemma {:induction false} InterruptedAgrees(st: State, h: seq<Byte>, sc: Byte, kapplic: bool)
    requires Agrees(st, h, kapplic)
    ensures Interrupted(st, sc, kapplic).rebooted <==> Rebooted(h + [sc])
    ensures !Rebooted(h + [sc]) ==> Agrees(Interrupted(st, sc, kapplic), h + [sc], kapplic)
  {
    RebootStep(st, h, sc, kapplic);
    hide ModifiersAgree, LedsAgree, PadAgrees, Rebooted, ModeAfter, LedsAfter, PadAfter, SetsLeds;
    if !Interrupted(st, sc, kapplic).rebooted {
      ModifiersStep(st, h, sc, kapplic);
      LedsStep(st, h, sc, kapplic);
      PadStep(st, h, sc, kapplic);
    }
  }

  /** The state after a stream of scancodes; nothing is handled after a reboot. */
  function RunAll(st: State, stream: seq<Byte>, kapplic: bool): State
    decreases |stream|
  {
    if stream == [] || st.rebooted then st else RunAll(Interrupted(st, stream[0], kapplic), stream[1..], kapplic)
  }

  /** For every stream of scancodes: it reboots exactly when it says so, and agrees with the globals until then. */
  lemma {:induction false} StreamAgrees(st: State, h: seq<Byte>, stream: seq<Byte>, kapplic: bool)
    requires Agrees(st, h, kapplic)
    ensures RunAll(st, stream, kapplic).rebooted <==> Rebooted(h + stream)
    ensures !Rebooted(h + stream) ==> Agrees(RunAll(st, stream, kapplic), h + stream, kapplic)
    decreases |stream|
  {
    hide ModifiersAgree, LedsAgree, PadAgrees, Interrupted, PrefixAgrees;
    if stream == [] {
      assert h + [] == h;
    } else {
      var sc, rest := stream[0], stream[1..];
      var t := Interrupted(st, sc, kapplic);
      assert h + stream == (h + [sc]) + rest;
      InterruptedAgrees(st, h, sc, kapplic);
      if t.rebooted {
        RebootLasts(h + [sc], rest);
      } else {
        StreamAgrees(t, h + [sc], rest, kapplic);
      }
    }
  }

  lemma RebootLasts(h: seq<Byte>, rest: seq<Byte>)
    requires Rebooted(h)
    ensures Rebooted(h + rest)
  {
    hide Held;
    var i :| 0 <= i < |h| && RebootsAt(h, i);
    assert (h + rest)[..i] == h[..i];
    assert RebootsAt(h + rest, i);
  }

  lemma FromPowerUp(stream: seq<Byte>, kapplic: bool)
    ensures RunAll(INITIAL, stream, kapplic).rebooted <==> Rebooted(stream)
    ensures !Rebooted(stream) ==> Agrees(RunAll(INITIAL, stream, kapplic), stream, kapplic)
  {
    assert Agrees(INITIAL, [], kapplic);
    StreamAgrees(INITIAL, [], stream, kapplic);
    assert [] + stream == stream;
  }
}
