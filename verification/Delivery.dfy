/** Which requests get through, and which stacks of stubs the kernel can reach. */
module Delivery {
  import opened Pic
  import opened Interrupts
  import opened InterruptRuns
  import opened Stubs

  // ---- the bytes of a controller, bit by bit ----

  /** An end of interrupt clears the lowest bit set, and no other. */
  lemma EoiClearsLowest(isr: bv8, n: nat, m: nat)
    requires n < 8 && m < 8 && IsSet(isr, n) && forall k: nat :: k < n ==> !IsSet(isr, k)
    ensures IsSet(Eoi(isr), m) <==> IsSet(isr, m) && m != n
  {
    assert n > 0 ==> !IsSet(isr, 0);
    assert n > 1 ==> !IsSet(isr, 1);
    assert n > 2 ==> !IsSet(isr, 2);
    assert n > 3 ==> !IsSet(isr, 3);
    assert n > 4 ==> !IsSet(isr, 4);
    assert n > 5 ==> !IsSet(isr, 5);
    assert n > 6 ==> !IsSet(isr, 6);
  }

  lemma AdmitsWhenNoneAbove(isr: bv8, n: nat)
    requires n < 8
    ensures Admits(isr, n) <==> forall k: nat :: k <= n ==> !IsSet(isr, k)
  {
    if forall k: nat :: k <= n ==> !IsSet(isr, k) {
      assert !IsSet(isr, 0);
      assert n > 0 ==> !IsSet(isr, 1);
      assert n > 1 ==> !IsSet(isr, 2);
      assert n > 2 ==> !IsSet(isr, 3);
      assert n > 3 ==> !IsSet(isr, 4);
      assert n > 4 ==> !IsSet(isr, 5);
      assert n > 5 ==> !IsSet(isr, 6);
      assert n > 6 ==> !IsSet(isr, 7);
    }
  }

  // ---- exactly what is accepted ----

  /** The lines of the stubs on the stack, the outermost first. */
  function Lines(frames: seq<Frame>): (r: seq<Line>)
    ensures |r| == |frames| && forall i :: 0 <= i < |frames| ==> r[i] == frames[i].irq
  {
    seq(|frames|, i requires 0 <= i < |frames| => frames[i].irq)
  }

  lemma ServedIsOnStack(st: State, irq: Line)
    requires StackOk(st) && st.iflag
    ensures InService(st.frames, irq) <==> irq in Lines(st.frames)
  {
    AllOpen(st);
    hide StackOk;
    if irq in Lines(st.frames) {
      var i :| 0 <= i < |st.frames| && Lines(st.frames)[i] == irq;
      assert st.frames[i].irq == irq && Open(st.frames[i]) && Masks(st.frames[i]);
    }
  }

  lemma AdmitsNothingInService(n: nat)
    requires n < 8
    ensures Admits(0, n)
  {
  }

  /**
   * In every state that keeps the invariant: a request gets through exactly when interrupts are on, the kernel has its
   * line unmasked and no stub for the line is on the stack; and for a line of the slave, the same holds of line 2.
   */
  lemma {:induction false} AcceptedExactly(st: State, irq: Line)
    requires Inv(st)
    ensures Accepts(st, irq) <==>
      && st.iflag && !IsSet(Written(st, irq), irq % 8) && irq !in Lines(st.frames)
      && (irq >= 8 ==> !IsSet(st.master.written, 2) && 2 !in Lines(st.frames))
  {
    if st.iflag {
      InvParts(st);
      OpenMeansAcknowledged(st);
      ServedIsOnStack(st, irq);
      ServedIsOnStack(st, 2);
      AdmitsNothingInService(if irq < 8 then irq else 2);
      AdmitsNothingInService(irq % 8);
      hide Inv, StackOk, IsSet, Admits, InService;
      assert IsSet(Mask(st, irq), irq % 8) <==> IsSet(Written(st, irq), irq % 8) || InService(st.frames, irq);
      var two: Line := 2;
      assert IsSet(Mask(st, two), two % 8) <==> IsSet(Written(st, two), two % 8) || InService(st.frames, two);
    }
  }

  // ---- after power-up ----

  lemma {:induction false} Appended(st: State, first: seq<Action>, mid: State, second: seq<Action>, t: State)
    requires Leads(st, first, mid) && Leads(mid, second, t)
    ensures Leads(st, first + second, t)
  {
    hide Enabled, Next;
    var xs :| IsRun(xs, first) && xs[0] == st && xs[|first|] == mid;
    var ys :| IsRun(ys, second) && ys[0] == mid && ys[|second|] == t;
    var all, done := xs[..|first|] + ys, first + second;
    forall i {:trigger done[i]} | 0 <= i < |done|
      ensures Enabled(all[i], done[i]) && all[i + 1] == Next(all[i], done[i])
    {
      if i < |first| {
        assert done[i] == first[i] && all[i] == xs[i] && all[i + 1] == xs[i + 1];
      } else {
        assert done[i] == second[i - |first|] && all[i] == ys[i - |first|] && all[i + 1] == ys[i - |first| + 1];
      }
    }
    assert IsRun(all, done) && all[0] == st && all[|done|] == t;
  }

  lemma OneStep(st: State, a: Action)
    requires Enabled(st, a)
    ensures Leads(st, [a], Next(st, a))
  {
    hide Enabled, Next;
    var t := Next(st, a);
    assert IsRun([st, t], [a]);
  }

  /** No stub on the stack, and no write owed. */
  predicate AtRest(st: State) {
    st.frames == [] && st.pending == Nothing
  }

  /** `enable_irq` for each of the lines in turn. */
  function Opened(st: State, lines: seq<Line>): (t: State)
    requires AtRest(st)
    ensures AtRest(t)
  {
    if lines == [] then st else Called(Opened(st, lines[..|lines| - 1]), EnableIrq(lines[|lines| - 1]))
  }

  function Calls(lines: seq<Line>): seq<Action> {
    if lines == [] then [] else Calls(lines[..|lines| - 1]) + [EnableIrq(lines[|lines| - 1]), WritePort]
  }

  lemma CalledIsRun(st: State, irq: Line)
    requires AtRest(st)
    ensures Leads(st, [EnableIrq(irq), WritePort], Called(st, EnableIrq(irq)))
  {
    hide LineCleared;
    var u := Next(st, EnableIrq(irq));
    OneStep(st, EnableIrq(irq));
    OneStep(u, WritePort);
    hide Leads, Next;
    Appended(st, [EnableIrq(irq)], u, [WritePort], Called(st, EnableIrq(irq)));
    assert [EnableIrq(irq)] + [WritePort] == [EnableIrq(irq), WritePort];
  }

  lemma CalledKeepsInv(st: State, irq: Line)
    requires Inv(st) && AtRest(st)
    ensures Inv(Called(st, EnableIrq(irq)))
  {
    hide Inv, LineCleared;
    NextKeepsInv(st, EnableIrq(irq));
    NextKeepsInv(Next(st, EnableIrq(irq)), WritePort);
  }

  lemma PoweredUp(n: Line)
    ensures IsSet(Mask(INITIAL, n), n % 8) <==> n != 2
    ensures AtRest(INITIAL)
  {
  }

  /** The calls, from power-up: the masks are open for the lines named and for the cascade, and for no other. */
  lemma {:induction false} OpenedMasks(lines: seq<Line>)
    requires AtRest(INITIAL)
    ensures var st := Opened(INITIAL, lines);
      && Inv(st) && Leads(INITIAL, Calls(lines), st) && !st.iflag
      && forall n: Line :: IsSet(Mask(st, n), n % 8) <==> n != 2 && n !in lines
  {
    hide IsSet, Inv, Leads, Called, Next;
    if lines == [] {
      InitialInv();
      NoCalls();
      forall n: Line ensures IsSet(Mask(INITIAL, n), n % 8) <==> n != 2 {
        PoweredUp(n);
      }
    } else {
      var k := |lines| - 1;
      var before, irq := Opened(INITIAL, lines[..k]), lines[k];
      OpenedMasks(lines[..k]);
      CalledIsRun(before, irq);
      CalledKeepsInv(before, irq);
      CalledEnableMasks(before, irq);
      CalledKeepsFlag(before, irq);
      Appended(INITIAL, Calls(lines[..k]), before, [EnableIrq(irq), WritePort], Called(before, EnableIrq(irq)));
      assert lines == lines[..k] + [irq];
    }
  }

  lemma NoCalls()
    ensures Leads(INITIAL, [], INITIAL)
  {
    assert IsRun([INITIAL], []);
  }

  lemma CalledKeepsFlag(st: State, irq: Line)
    requires AtRest(st)
    ensures Called(st, EnableIrq(irq)).iflag == st.iflag
  {
  }

  /** At rest the masks are what was written. */
  lemma RestingMasks(st: State)
    requires Inv(st) && AtRest(st)
    ensures st.master.mask == st.master.written && st.slave.mask == st.slave.written
  {
    NobodyInService(st);
  }

  lemma FlagSet(st: State)
    requires Inv(st) && AtRest(st)
    ensures Inv(st.(iflag := true)) && Leads(st, [SetFlag(true)], st.(iflag := true))
  {
    hide Inv;
    NextKeepsInv(st, SetFlag(true));
    OneStep(st, SetFlag(true));
  }

  lemma NothingWhileOff(st: State, n: Line)
    requires !st.iflag
    ensures !Accepts(st, n)
  {
  }

  /** With interrupts on and nothing on the stack, the masks decide. */
  lemma AcceptedAtRest(st: State, n: Line)
    requires Inv(st) && AtRest(st) && st.iflag
    ensures Accepts(st, n) <==> !IsSet(Mask(st, n), n % 8) && (n >= 8 ==> !IsSet(Mask(st, 2), 2))
  {
    AcceptedExactly(st, n);
    RestingMasks(st);
    hide Inv, IsSet, Accepts;
  }

  /**
   * From power-up, enable any lines and turn interrupts on: exactly those lines and the cascade get through. Before
   * interrupts are turned on, nothing does.
   */
  lemma {:induction false} DeliveredOnceEnabled(lines: seq<Line>, n: Line)
    ensures AtRest(INITIAL)
    ensures var st := Opened(INITIAL, lines);
      && !Accepts(st, n)
      && Leads(INITIAL, Calls(lines) + [SetFlag(true)], st.(iflag := true))
      && Inv(st.(iflag := true))
      && (Accepts(st.(iflag := true), n) <==> n in lines || n == 2)
  {
    PoweredUp(n);
    OpenedMasks(lines);
    hide Inv, IsSet, Leads, Opened, Accepts, Calls;
    var st := Opened(INITIAL, lines);
    FlagSet(st);
    NothingWhileOff(st, n);
    Appended(INITIAL, Calls(lines), st, [SetFlag(true)], st.(iflag := true));
    AcceptedAtRest(st.(iflag := true), n);
    var two: Line := 2;
    assert IsSet(Mask(st, two), two % 8) <==> two != 2 && two !in lines;
  }

  /**
   * And if one line is disabled again: a line of the master is shut out, and with line 2 the whole slave; to disable a
   * line of the slave does nothing.
   */
  lemma {:induction false} DeliveredOnceDisabled(lines: seq<Line>, irq: Line, n: Line)
    ensures AtRest(INITIAL)
    ensures var st := Called(Opened(INITIAL, lines), DisableIrq(irq)).(iflag := true);
      Accepts(st, n) <==> (n in lines || n == 2) && !(irq < 8 && n == irq) && !(irq == 2 && n >= 8)
  {
    PoweredUp(n);
    OpenedMasks(lines);
    var two: Line, st := 2, Opened(INITIAL, lines);
    DisabledKeepsInv(st, irq);
    CalledDisableMasks(st, irq);
    hide Inv, IsSet, Leads, Opened, Accepts, Calls, Called;
    var t := Called(st, DisableIrq(irq));
    FlagSet(t);
    AcceptedAtRest(t.(iflag := true), n);
    assert IsSet(Mask(st, two), two % 8) <==> two != 2 && two !in lines;
    assert IsSet(Mask(t, two), two % 8) <==> IsSet(Mask(st, two), two % 8) || (two == irq && irq <= 7);
  }

  lemma DisabledKeepsInv(st: State, irq: Line)
    requires Inv(st) && AtRest(st)
    ensures var t := Called(st, DisableIrq(irq));
      Inv(t) && AtRest(t)
  {
    hide Inv, ShiftedIn;
    NextKeepsInv(st, DisableIrq(irq));
    NextKeepsInv(Next(st, DisableIrq(irq)), WritePort);
  }

  // ---- nesting ----

  /** No line twice, the timer innermost, and no line of the slave above line 2. */
  predicate Nestable(lines: seq<Line>) {
    && (forall i, j :: 0 <= i < j < |lines| ==> lines[i] != lines[j])
    && (forall i :: 0 <= i < |lines| - 1 ==> lines[i] != 0)
    && (forall i, j :: 0 <= i < j < |lines| && lines[i] == 2 ==> lines[j] < 8)
  }

  lemma HandlerOnStack(st: State, irq: Line)
    requires Accepts(st, irq)
    ensures var t := AtHandler(st, irq);
      SameThread(st, t) && Lines(t.frames) == Lines(st.frames) + [irq] && (t.iflag <==> irq != 0)
  {
    hide IsSet, Admits, LineSet, Eoi, Bit;
    var t := AtHandler(st, irq);
    assert |t.frames| == |st.frames| + 1 && t.frames[..|st.frames|] == st.frames && Top(t).irq == irq;
  }

  /** The prologue of a stub puts its line on the stack and leaves the thread alone. */
  lemma {:induction false} Entered(st: State, irq: Line)
    requires Inv(st) && Accepts(st, irq)
    ensures var t := AtHandler(st, irq);
      && Inv(t) && Leads(st, Entry(irq), t) && SameThread(st, t)
      && Lines(t.frames) == Lines(st.frames) + [irq] && (t.iflag <==> irq != 0)
  {
    hide Inv, Accepts, AtHandler, Entry, Leads, SameThread;
    EntryIsRun(st, irq);
    HandlerOnStack(st, irq);
    LeadsKeepsInv(st, Entry(irq), AtHandler(st, irq));
  }

  lemma LeadsKeepsInv(st: State, actions: seq<Action>, t: State)
    requires Inv(st) && Leads(st, actions, t)
    ensures Inv(t)
  {
    hide Inv, Next, Enabled;
    var states :| IsRun(states, actions) && states[0] == st && states[|actions|] == t;
    RunKeepsInv(states, actions, |actions|);
  }

  /** Every line unmasked by the kernel. */
  predicate AllOpened(st: State) {
    forall n: Line :: !IsSet(Written(st, n), n % 8)
  }

  /** A state that a run from power-up reaches with every line unmasked, these stubs on the stack, and interrupts on. */
  ghost predicate Stacked(actions: seq<Action>, t: State, lines: seq<Line>) {
    && Leads(INITIAL, actions, t) && Inv(t) && AllOpened(t) && Lines(t.frames) == lines
    && (t.iflag <==> lines == [] || lines[|lines| - 1] != 0)
  }

  lemma OneDeeper(actions: seq<Action>, st: State, lines: seq<Line>, irq: Line)
    requires Stacked(actions, st, lines) && Nestable(lines + [irq])
    ensures Stacked(actions + Entry(irq), AtHandler(st, irq), lines + [irq])
  {
    NestableStep(lines, irq);
    hide Inv, IsSet, Leads, Accepts, AtHandler, Entry, AllOpened, Nestable;
    OpenedByKernel(st, irq);
    AcceptedExactly(st, irq);
    Entered(st, irq);
    Appended(INITIAL, actions, st, Entry(irq), AtHandler(st, irq));
    StaysOpened(st, AtHandler(st, irq));
  }

  lemma NestableStep(lines: seq<Line>, irq: Line)
    requires Nestable(lines + [irq])
    ensures Nestable(lines) && irq !in lines && (lines != [] ==> lines[|lines| - 1] != 0)
    ensures irq >= 8 ==> 2 !in lines
  {
    var all := lines + [irq];
    forall i, j | 0 <= i < j < |lines| ensures all[i] == lines[i] && all[j] == lines[j] {
    }
    forall i | 0 <= i < |lines|
      ensures lines[i] == all[i] && all[i] != 0 && all[i] != irq && (all[i] == 2 ==> irq < 8)
    {
      assert all[|lines|] == irq;
    }
  }

  /** A stack that obeys the rules is built up from power-up, one interrupt inside the other. */
  lemma {:induction false} Nested(lines: seq<Line>)
    requires Nestable(lines)
    ensures exists actions, t :: Stacked(actions, t, lines)
  {
    hide Stacked, Nestable;
    if lines == [] {
      EveryLineOpened();
    } else {
      var k := |lines| - 1;
      assert lines == lines[..k] + [lines[k]];
      NestableStep(lines[..k], lines[k]);
      Nested(lines[..k]);
      var actions, st :| Stacked(actions, st, lines[..k]);
      OneDeeper(actions, st, lines[..k], lines[k]);
    }
  }

  lemma OpenedByKernel(st: State, irq: Line)
    requires AllOpened(st)
    ensures !IsSet(Written(st, irq), irq % 8) && !IsSet(st.master.written, 2)
  {
    hide IsSet;
    var two: Line := 2;
    assert !IsSet(Written(st, two), two % 8);
  }

  lemma StaysOpened(st: State, t: State)
    requires AllOpened(st) && SameThread(st, t)
    ensures AllOpened(t)
  {
    hide IsSet;
    forall n: Line ensures !IsSet(Written(t, n), n % 8) {
      assert !IsSet(Written(st, n), n % 8);
    }
  }

  function EveryLine(): (r: seq<Line>)
    ensures forall n: Line :: n in r
  {
    var r := seq(16, i requires 0 <= i < 16 => i as Line);
    assert forall n: Line :: n in r by {
      forall n: Line ensures n in r {
        assert r[n] == n;
      }
    }
    r
  }

  lemma {:induction false} EveryLineOpened()
    ensures exists actions, t :: Stacked(actions, t, [])
  {
    var lines := EveryLine();
    hide Inv, IsSet, Leads, Calls, Opened, EveryLine, Accepts;
    DeliveredOnceEnabled(lines, 0);
    OpenedMasks(lines);
    var st := Opened(INITIAL, lines);
    RestingMasks(st);
    var t := st.(iflag := true);
    forall n: Line ensures !IsSet(Written(t, n), n % 8) {
      assert IsSet(Mask(st, n), n % 8) <==> n != 2 && n !in lines;
    }
    assert Stacked(Calls(lines) + [SetFlag(true)], t, []);
  }

  // ---- no other stack is reached ----

  lemma LinesAfter(st: State, a: Action)
    requires Enabled(st, a)
    ensures var now, after := Lines(st.frames), Lines(Next(st, a).frames);
      && (a.Deliver? ==> after == now + [a.irq])
      && (!a.Deliver? ==> after == now || (now != [] && after == now[..|now| - 1]))
  {
    hide IsSet, Bit, Eoi, StepFrame, StepPorts, Admits;
    if a.StubStep? && Top(st).pc != Iret {
      SameIrq(Top(st), Mask(st, Top(st).irq));
    }
  }

  lemma SameIrq(f: Frame, mask: bv8)
    requires f.pc != Handler && f.pc != Iret
    ensures StepFrame(f, mask).irq == f.irq
  {
    hide LineSet, LineCleared;
  }

  /** No line of the slave is taken on top of line 2. */
  lemma {:induction false} CascadeShuts(states: seq<State>, actions: seq<Action>, k: nat, i: nat, j: nat)
    requires IsRun(states, actions) && states[0] == INITIAL && k <= |actions|
    requires i < j < |states[k].frames| && states[k].frames[i].irq == 2
    ensures states[k].frames[j].irq < 8
    decreases k
  {
    hide Next, Enabled, IsSet, Inv, Accepts;
    if k > 0 {
      var st, a := states[k - 1], actions[k - 1];
      LinesAfter(st, a);
      var after := Lines(states[k].frames);
      assert after[i] == 2 && after[j] == states[k].frames[j].irq;
      if a.Deliver? && j == |st.frames| {
        ReachedInv(states, actions, k - 1);
        AcceptedExactly(st, a.irq);
        DeliverAccepts(st, a);
        assert Lines(st.frames)[i] == 2;
      } else {
        CascadeShuts(states, actions, k - 1, i, j);
      }
    }
  }

  lemma DeliverAccepts(st: State, a: Action)
    requires Enabled(st, a) && a.Deliver?
    ensures Accepts(st, a.irq)
  {
  }

  /**
   * The stacks of stubs that runs from power-up can build are exactly these: no line twice, the timer's stub innermost,
   * and no line of the slave taken inside the stub of line 2.
   */
  lemma {:induction false} StacksReached(lines: seq<Line>)
    ensures (exists actions, t :: Leads(INITIAL, actions, t) && Lines(t.frames) == lines) <==> Nestable(lines)
  {
    hide Inv, Next, Enabled;
    if Nestable(lines) {
      hide Leads;
      Nested(lines);
      var actions, t :| Stacked(actions, t, lines);
    } else if exists actions, t :: Leads(INITIAL, actions, t) && Lines(t.frames) == lines {
      var actions, t :| Leads(INITIAL, actions, t) && Lines(t.frames) == lines;
      var states :| IsRun(states, actions) && states[0] == INITIAL && states[|actions|] == t;
      ReachedNestable(states, actions, |actions|);
    }
  }

  lemma {:induction false} ReachedNestable(states: seq<State>, actions: seq<Action>, k: nat)
    requires IsRun(states, actions) && states[0] == INITIAL && k <= |actions|
    ensures Nestable(Lines(states[k].frames))
  {
    hide Next, Enabled;
    NestingBounded(states, actions, k);
    var frames := states[k].frames;
    forall i, j | 0 <= i < j < |frames| && frames[i].irq == 2 ensures frames[j].irq < 8 {
      CascadeShuts(states, actions, k, i, j);
    }
  }

  /** The bound of sixteen is reached. */
  lemma SixteenDeep()
    ensures exists actions, t :: Leads(INITIAL, actions, t) && |t.frames| == 16
  {
    var lines: seq<Line> := [8, 9, 10, 11, 12, 13, 14, 15, 1, 3, 4, 5, 6, 7, 2, 0];
    hide Leads;
    StacksReached(lines);
    var actions, t :| Leads(INITIAL, actions, t) && Lines(t.frames) == lines;
    assert |t.frames| == |lines|;
  }
}
