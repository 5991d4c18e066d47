/**
 * The stubs of asm.S and the functions of irq.c as straight-line code on the ports, each proved to be a run of steps.
 */
module Stubs {
  import opened Pic
  import opened Interrupts
  import opened InterruptRuns

  /** The state in which the handler of `irq` is called. */
  function AtHandler(st: State, irq: Line): State {
    var t := Taken(st, irq);
    if irq == 0 then t
    else
      var p := Port(t, irq);
      var u := WithPort(t, irq, p.(mask := LineSet(p.mask, irq)));
      State(Acknowledged(u.master), if irq < 8 then u.slave else Acknowledged(u.slave), true,
            st.frames + [Frame(irq, Handler, 0x20, st.iflag, [])], st.pending)
  }

  /** The state after the `iret` of the stub whose handler has just returned. */
  function AfterIret(st: State): State
    requires st.frames != []
  {
    var f := Top(st);
    var rest := st.frames[..|st.frames| - 1];
    if f.irq == 0 then State(Acknowledged(st.master), st.slave, f.eflagsIf, rest, st.pending)
    else
      var p := Port(st, f.irq);
      WithPort(st, f.irq, p.(mask := LineCleared(p.mask, f.irq))).(iflag := f.eflagsIf, frames := rest)
  }

  function Steps(n: nat): (r: seq<Action>)
    ensures |r| == n
    ensures forall k :: 0 <= k < n ==> r[k] == StubStep
  {
    seq(n, _ => StubStep)
  }

  function Entry(irq: Line): seq<Action> {
    [Deliver(irq)] + Steps(if irq == 0 then 0 else if irq < 8 then 5 else 6)
  }

  function Exit(irq: Line): seq<Action> {
    [HandlerReturn] + Steps(if irq == 0 then 3 else 6)
  }

  /** One more step at the front of a run. */
  lemma {:induction false} Prepend(st: State, a: Action, actions: seq<Action>, t: State)
    requires Enabled(st, a) && Leads(Next(st, a), actions, t)
    ensures Leads(st, [a] + actions, t)
  {
    hide Enabled, Next;
    var states :| IsRun(states, actions) && states[0] == Next(st, a) && states[|actions|] == t;
    var all, done := [st] + states, [a] + actions;
    forall i {:trigger done[i]} | 0 <= i < |done|
      ensures Enabled(all[i], done[i]) && all[i + 1] == Next(all[i], done[i])
    {
      if i > 0 {
        assert done[i] == actions[i - 1];
      }
    }
    assert IsRun(all, done) && all[0] == st && all[|done|] == t;
  }

  lemma StepsUnfold(st: State, n: nat, t: State)
    requires 0 < n && Enabled(st, StubStep)
    requires Leads(StepStub(st), Steps(n - 1), t)
    ensures Leads(st, Steps(n), t)
  {
    hide StepStub, Leads;
    Prepend(st, StubStep, Steps(n - 1), t);
    assert Steps(n) == [StubStep] + Steps(n - 1);
  }

  lemma NoSteps(st: State)
    ensures Leads(st, Steps(0), st)
  {
    assert IsRun([st], Steps(0));
  }

  /** A stub on top of the stack, with the registers beneath it. */
  lemma StepAt(st: State, f: Frame)
    requires st.frames != [] && Top(st) == f && f.pc != Handler && f.pc != Iret
    ensures Enabled(st, StubStep)
    ensures StepStub(st) == WithTop(StepPorts(st, f), StepFrame(f, Mask(st, f.irq)))
  {
  }

  /** The last instruction before the handler: interrupts on. */
  lemma StiStep(st: State)
    requires st.frames != [] && Top(st).pc == Sti
    ensures Leads(st, Steps(1), WithTop(st.(iflag := true), Top(st).(pc := Handler)))
  {
    hide Leads, LineSet, LineCleared;
    StepAt(st, Top(st));
    NoSteps(StepStub(st));
    StepsUnfold(st, 1, StepStub(st));
  }

  lemma AckMasterStep(st: State)
    requires st.frames != [] && Top(st).pc == AckMaster
    ensures Enabled(st, StubStep)
    ensures var irq := Top(st).irq;
      StepStub(st) == WithTop(st.(master := Acknowledged(st.master)),
                              Top(st).(pc := if irq == 0 then LastCli else if irq < 8 then Sti else AckSlave))
  {
    hide Acknowledged, LineSet, LineCleared;
    StepAt(st, Top(st));
  }

  lemma AckSlaveStep(st: State)
    requires st.frames != [] && Top(st).pc == AckSlave
    ensures Enabled(st, StubStep)
    ensures StepStub(st) == WithTop(st.(slave := Acknowledged(st.slave)), Top(st).(pc := Sti))
  {
    hide Acknowledged, LineSet, LineCleared;
    StepAt(st, Top(st));
  }

  /** From the acknowledgements to the handler, on the master. */
  lemma {:induction false} LastMasterSteps(st: State)
    requires st.frames != [] && Top(st).pc == AckMaster && 1 <= Top(st).irq < 8
    ensures Leads(st, Steps(2), WithTop(
      State(Acknowledged(st.master), st.slave, true, st.frames, st.pending), Top(st).(pc := Handler)))
  {
    hide Acknowledged, Leads, StepStub, Steps;
    AckMasterStep(st);
    var s1 := StepStub(st);
    StiStep(s1);
    var end := WithTop(s1.(iflag := true), Top(s1).(pc := Handler));
    StepsUnfold(st, 2, end);
    assert end.frames == st.frames[|st.frames| - 1 := Top(st).(pc := Handler)];
  }

  lemma {:induction false} SlaveAckSteps(st: State)
    requires st.frames != [] && Top(st).pc == AckSlave
    ensures Leads(st, Steps(2), WithTop(
      State(st.master, Acknowledged(st.slave), true, st.frames, st.pending), Top(st).(pc := Handler)))
  {
    hide Acknowledged, Leads, StepStub, Steps;
    AckSlaveStep(st);
    var s1 := StepStub(st);
    StiStep(s1);
    var end := WithTop(s1.(iflag := true), Top(s1).(pc := Handler));
    StepsUnfold(st, 2, end);
    assert end.frames == st.frames[|st.frames| - 1 := Top(st).(pc := Handler)];
  }

  lemma {:induction false} LastSlaveSteps(st: State)
    requires st.frames != [] && Top(st).pc == AckMaster && 8 <= Top(st).irq
    ensures Leads(st, Steps(3), WithTop(
      State(Acknowledged(st.master), Acknowledged(st.slave), true, st.frames, st.pending), Top(st).(pc := Handler)))
  {
    hide Acknowledged, Leads, StepStub, Steps;
    AckMasterStep(st);
    var s1 := StepStub(st);
    SlaveAckSteps(s1);
    var end := WithTop(State(s1.master, Acknowledged(s1.slave), true, s1.frames, s1.pending), Top(s1).(pc := Handler));
    StepsUnfold(st, 3, end);
    assert end.frames == st.frames[|st.frames| - 1 := Top(st).(pc := Handler)];
  }

  lemma SetBitSteps(st: State)
    requires st.frames != [] && Top(st).pc == ReadMask
    ensures Enabled(st, StubStep) && StepStub(st).frames != [] && Enabled(StepStub(st), StubStep)
    ensures StepStub(StepStub(st)) ==
      WithTop(st, Top(st).(al := LineSet(Mask(st, Top(st).irq), Top(st).irq), pc := WriteMask))
  {
    hide LineSet, LineCleared;
    StepAt(st, Top(st));
    var s1 := StepStub(st);
    StepAt(s1, Top(s1));
  }

  lemma WriteMaskStep(st: State)
    requires st.frames != [] && Top(st).pc == WriteMask
    ensures Enabled(st, StubStep)
    ensures var f := Top(st);
      StepStub(st) == WithTop(WithPort(st, f.irq, Port(st, f.irq).(mask := f.al)), f.(al := 0x20, pc := AckMaster))
  {
    hide LineSet, LineCleared, WithPort;
    StepAt(st, Top(st));
  }

  lemma TopAndPort(st: State, f: Frame, g: Frame, irq: Line, b: bv8)
    requires st.frames != []
    ensures var u := WithTop(st, f);
      && Port(u, irq) == Port(st, irq)
      && WithTop(WithPort(u, irq, Port(u, irq).(mask := b)), g)
         == WithTop(WithPort(st, irq, Port(st, irq).(mask := b)), g)
  {
  }

  lemma {:induction false} MaskSteps(st: State, n: nat, end: State)
    requires st.frames != [] && Top(st).pc == ReadMask && 3 <= n
    ensures var f, p := Top(st), Port(st, Top(st).irq);
      var t := WithTop(WithPort(st, f.irq, p.(mask := LineSet(p.mask, f.irq))), f.(al := 0x20, pc := AckMaster));
      Leads(t, Steps(n - 3), end) ==> Leads(st, Steps(n), end)
  {
    hide Leads, StepStub, LineSet, Steps, StepFrame, StepPorts, WithPort;
    var f, p := Top(st), Port(st, Top(st).irq);
    var b := LineSet(p.mask, f.irq);
    SetBitSteps(st);
    var s2 := WithTop(st, f.(al := b, pc := WriteMask));
    WriteMaskStep(s2);
    TopAndPort(st, f.(al := b, pc := WriteMask), f.(al := 0x20, pc := AckMaster), f.irq, b);
    if Leads(StepStub(s2), Steps(n - 3), end) {
      StepsUnfold(s2, n - 2, end);
      StepsUnfold(StepStub(st), n - 1, end);
      StepsUnfold(st, n, end);
    }
  }

  /** The prologue, instruction by instruction, is the straight-line code. */
  lemma {:induction false} EntryIsRun(st: State, irq: Line)
    requires Accepts(st, irq)
    ensures Leads(st, Entry(irq), AtHandler(st, irq))
  {
    hide IsSet, Leads, LineSet, LineCleared, Acknowledged, Admits, Bit, StepStub;
    var t := Taken(st, irq);
    if irq == 0 {
      NoSteps(t);
      Prepend(st, Deliver(irq), Steps(0), t);
    } else {
      var f, p := Top(t), Port(t, irq);
      var u := WithTop(WithPort(t, irq, p.(mask := LineSet(p.mask, irq))), f.(al := 0x20, pc := AckMaster));
      if irq < 8 {
        LastMasterSteps(u);
      } else {
        LastSlaveSteps(u);
      }
      var end := AtHandler(st, irq);
      assert end.frames == u.frames[|st.frames| := Top(u).(pc := Handler)];
      MaskSteps(t, if irq < 8 then 5 else 6, end);
      Prepend(st, Deliver(irq), Steps(if irq < 8 then 5 else 6), end);
    }
  }

  lemma {:induction false} LastExitSteps(st: State)
    requires st.frames != [] && Top(st).pc == LastCli
    ensures Leads(st, Steps(2), st.(iflag := Top(st).eflagsIf, frames := st.frames[..|st.frames| - 1]))
  {
    hide IsSet, Leads, LineSet, LineCleared;
    StepAt(st, Top(st));
    var s1 := StepStub(st);
    var s2 := StepStub(s1);
    assert s1.frames[..|s1.frames| - 1] == st.frames[..|st.frames| - 1];
    NoSteps(s2);
    StepsUnfold(s1, 1, s2);
    StepsUnfold(st, 2, s2);
  }

  lemma CliStep(st: State)
    requires st.frames != [] && Top(st).pc == Cli
    ensures Enabled(st, StubStep) && StepStub(st) == WithTop(st.(iflag := false), Top(st).(pc := ReadBack))
  {
    hide LineSet, LineCleared;
    StepAt(st, Top(st));
  }

  lemma ReadBackStep(st: State)
    requires st.frames != [] && Top(st).pc == ReadBack
    ensures Enabled(st, StubStep)
    ensures StepStub(st) == WithTop(st, Top(st).(al := Mask(st, Top(st).irq), pc := ClearBit))
  {
    hide LineSet, LineCleared;
    StepAt(st, Top(st));
  }

  lemma ReadBackSteps(st: State)
    requires st.frames != [] && Top(st).pc == Cli
    ensures Enabled(st, StubStep) && StepStub(st).frames != [] && Enabled(StepStub(st), StubStep)
    ensures StepStub(StepStub(st)) ==
      WithTop(st.(iflag := false), Top(st).(al := Mask(st, Top(st).irq), pc := ClearBit))
  {
    hide StepStub, Enabled;
    CliStep(st);
    ReadBackStep(StepStub(st));
  }

  lemma WriteBackSteps(st: State)
    requires st.frames != [] && Top(st).pc == ClearBit
    ensures Enabled(st, StubStep) && StepStub(st).frames != [] && Enabled(StepStub(st), StubStep)
    ensures var f := Top(st);
      var b := LineCleared(f.al, f.irq);
      StepStub(StepStub(st)) == WithTop(WithPort(st, f.irq, Port(st, f.irq).(mask := b)), f.(al := b, pc := LastCli))
  {
    hide LineSet, LineCleared;
    StepAt(st, Top(st));
    var s1 := StepStub(st);
    StepAt(s1, Top(s1));
  }

  lemma {:induction false} UnmaskSteps(st: State, end: State)
    requires st.frames != [] && Top(st).pc == Cli
    ensures var f, p := Top(st), Port(st, Top(st).irq);
      var b := LineCleared(p.mask, f.irq);
      var t := WithTop(WithPort(st, f.irq, p.(mask := b)).(iflag := false), f.(al := b, pc := LastCli));
      Leads(t, Steps(2), end) ==> Leads(st, Steps(6), end)
  {
    hide Leads, StepStub, LineCleared, Steps, StepFrame, StepPorts, WithPort;
    var f, p := Top(st), Port(st, Top(st).irq);
    ReadBackSteps(st);
    var s2 := WithTop(st.(iflag := false), f.(al := p.mask, pc := ClearBit));
    WriteBackSteps(s2);
    var b := LineCleared(p.mask, f.irq);
    var t := WithTop(WithPort(st, f.irq, p.(mask := b)).(iflag := false), f.(al := b, pc := LastCli));
    SamePorts(st, f.(al := p.mask, pc := ClearBit), f.(al := b, pc := LastCli), f.irq, b);
    if Leads(t, Steps(2), end) {
      StepsUnfold(StepStub(s2), 3, end);
      StepsUnfold(s2, 4, end);
      StepsUnfold(StepStub(st), 5, end);
      StepsUnfold(st, 6, end);
    }
  }

  /** Turning interrupts off, replacing the top twice and writing a port: the order does not matter. */
  lemma SamePorts(st: State, f: Frame, g: Frame, irq: Line, b: bv8)
    requires st.frames != []
    ensures var u := WithTop(st.(iflag := false), f);
      && Port(u, irq) == Port(st, irq)
      && WithTop(WithPort(u, irq, Port(u, irq).(mask := b)), g)
         == WithTop(WithPort(st, irq, Port(st, irq).(mask := b)).(iflag := false), g)
  {
  }

  lemma {:induction false} TimerExit(st: State)
    requires Enabled(st, HandlerReturn) && Top(st).irq == 0
    ensures Leads(st, Exit(0), AfterIret(st))
  {
    hide IsSet, Leads, LineSet, LineCleared, Acknowledged, StepStub;
    var t, end := Next(st, HandlerReturn), AfterIret(st);
    AckMasterStep(t);
    hide StepFrame, StepPorts;
    var u := StepStub(t);
    LastExitSteps(u);
    assert u.frames[..|u.frames| - 1] == st.frames[..|st.frames| - 1];
    StepsUnfold(t, 3, end);
    Prepend(st, HandlerReturn, Steps(3), end);
  }

  /** The epilogue, instruction by instruction, is the straight-line code. */
  lemma {:induction false} ExitIsRun(st: State)
    requires Enabled(st, HandlerReturn)
    ensures Leads(st, Exit(Top(st).irq), AfterIret(st))
  {
    hide IsSet, Leads, LineSet, LineCleared, Acknowledged, StepStub;
    var f, end := Top(st), AfterIret(st);
    if f.irq == 0 {
      TimerExit(st);
    } else {
      var t := WithTop(st, f.(pc := Cli));
      var p := Port(t, f.irq);
      var b := LineCleared(p.mask, f.irq);
      var u := WithTop(WithPort(t, f.irq, p.(mask := b)).(iflag := false), f.(pc := LastCli, al := b));
      LastExitSteps(u);
      assert u.frames[..|u.frames| - 1] == st.frames[..|st.frames| - 1];
      UnmaskSteps(t, end);
      Prepend(st, HandlerReturn, Steps(6), end);
    }
  }

  /** Acknowledging the one request in service empties the register. */
  lemma RaisedThenAcknowledged(p: Controller, n: nat)
    requires n < 8 && p.isr == 0
    ensures Acknowledged(Raised(p, n)) == p
  {
    OrWithNothing(Bit(n));
    EoiOfOne(n);
  }

  lemma SetThenCleared(m: bv8, irq: Line)
    requires !IsSet(m, irq % 8)
    ensures LineCleared(LineSet(m, irq), irq) == m
  {
    hide IsSet, Bit;
    forall n: nat | n < 8 ensures IsSet(LineCleared(LineSet(m, irq), irq), n) <==> IsSet(m, n) {
      SetAndClear(m, irq % 8, n);
      SetAndClear(LineSet(m, irq), irq % 8, n);
    }
    SameBits(LineCleared(LineSet(m, irq), irq), m);
  }

  /** Masking and unmasking commute with raising and acknowledging: they are different registers. */
  lemma MaskApart(p: Controller, n: nat, b: bv8)
    requires n < 8
    ensures Acknowledged(Raised(p, n).(mask := b)) == Acknowledged(Raised(p, n)).(mask := b)
    ensures Raised(p, n).mask == p.mask
  {
    hide Bit, Eoi;
  }

  /** A stub whose handler does nothing puts the machine back exactly as it was: its two halves are inverse. */
  lemma StubUndoesItself(st: State, irq: Line)
    requires Inv(st) && Accepts(st, irq)
    ensures AfterIret(AtHandler(st, irq)) == st
  {
    OpenMeansAcknowledged(st);
    RaisedThenAcknowledged(st.master, if irq < 8 then irq else 2);
    RaisedThenAcknowledged(st.slave, irq % 8);
    SetThenCleared(Mask(st, irq), irq);
    hide Inv, IsSet, Admits, Bit, Eoi, LineSet, LineCleared, Acknowledged, Raised, AtHandler, AfterIret;
    if irq == 0 {
      TimerUndoesItself(st);
    } else {
      RoundTripPorts(st, irq);
      var b := LineSet(Mask(st, irq), irq);
      ExitFrom(st, irq, b);
    }
  }

  lemma TimerUndoesItself(st: State)
    requires Acknowledged(Raised(st.master, 0)) == st.master && st.iflag
    ensures AfterIret(AtHandler(st, 0)) == st
  {
    hide Raised, Acknowledged;
    assert AtHandler(st, 0).frames[..|st.frames|] == st.frames;
  }

  lemma ExitFrom(st: State, irq: Line, b: bv8)
    requires st.iflag && irq != 0 && LineCleared(b, irq) == Mask(st, irq)
    ensures AfterIret(WithPort(st, irq, Port(st, irq).(mask := b)).(
        iflag := true, frames := st.frames + [Frame(irq, Handler, 0x20, true, [])])) == st
  {
    hide LineCleared;
    assert (st.frames + [Frame(irq, Handler, 0x20, true, [])])[..|st.frames|] == st.frames;
  }

  lemma RoundTripPorts(st: State, irq: Line)
    requires Acknowledged(Raised(st.master, if irq < 8 then irq else 2)) == st.master
    requires Acknowledged(Raised(st.slave, irq % 8)) == st.slave
    requires st.iflag && irq != 0
    ensures var b := LineSet(Mask(st, irq), irq);
      AtHandler(st, irq) == WithPort(st, irq, Port(st, irq).(mask := b)).(
        iflag := true, frames := st.frames + [Frame(irq, Handler, 0x20, true, [])])
  {
    hide Bit, Eoi, LineSet, Raised, Acknowledged;
    MaskApart(Port(st, irq), irq % 8, LineSet(Mask(st, irq), irq));
  }

  /** The processor, the two controllers and the statics of irq.c. */
  class Machine {
    var mask21: bv8
    var maskA1: bv8
    var isr1: bv8
    var isr2: bv8
    var cache21: bv8
    var cacheA1: bv8
    ghost var written21: bv8
    ghost var writtenA1: bv8
    /** Which port write a call that has been interrupted still owes. */
    ghost var pending: Pending
    var iflag: bool
    /** The kernel stack: what the processor and the stubs have pushed. */
    var frames: seq<Frame>

    ghost function View(): State
      reads this
    {
      State(Controller(mask21, cache21, written21, isr1), Controller(maskA1, cacheA1, writtenA1, isr2),
            iflag, frames, pending)
    }

    /** `init_irq` */
    constructor ()
      ensures View() == INITIAL
    {
      cache21, cacheA1, written21, writtenA1 := 0xFB, 0xFF, 0xFB, 0xFF;
      isr1, isr2, iflag, frames, pending := 0, 0, false, [], Nothing;
      mask21, maskA1 := 0xFB, 0xFF;
    }

    /** `_hwintN`, from the processor's acceptance of the request to the call of the handler. */
    method Hwint(irq: Line)
      requires Accepts(View(), irq)
      modifies this
      ensures View() == AtHandler(old(View()), irq)
    {
      hide Bit, IsSet, Eoi, Admits;
      var eflagsIf := iflag;
      iflag := false;
      if irq < 8 {
        isr1 := isr1 | Bit(irq);
      } else {
        isr1, isr2 := isr1 | Bit(2), isr2 | Bit(irq - 8);
      }
      if irq == 0 {
        frames := frames + [Frame(irq, Handler, 0, eflagsIf, [])];
        return;
      }
      if irq < 8 {
        var al := mask21;
        al := LineSet(al, irq);
        mask21 := al;
        isr1 := Eoi(isr1);
      } else {
        var al := maskA1;
        al := LineSet(al, irq);
        maskA1 := al;
        isr1 := Eoi(isr1);
        isr2 := Eoi(isr2);
      }
      iflag := true;
      frames := frames + [Frame(irq, Handler, 0x20, eflagsIf, [])];
    }

    /** The rest of the stub, from the handler's return to `iret`. */
    method HwintReturn()
      requires Enabled(View(), HandlerReturn)
      modifies this
      ensures View() == AfterIret(old(View()))
    {
      hide Bit, IsSet, Eoi;
      var f := frames[|frames| - 1];
      if f.irq == 0 {
        isr1 := Eoi(isr1);
      } else {
        iflag := false;
        if f.irq < 8 {
          var al := mask21;
          al := LineCleared(al, f.irq);
          mask21 := al;
        } else {
          var al := maskA1;
          al := LineCleared(al, f.irq);
          maskA1 := al;
        }
      }
      iflag := false;
      frames := frames[..|frames| - 1];
      iflag := f.eflagsIf;
    }

    /** The first half of `enable_irq`. An interrupt may be taken behind it: `Hwint` asks nothing of what is owed. */
    method EnableInCache(n: Line)
      requires frames == [] && pending == Nothing
      modifies this`cache21, this`cacheA1, this`pending
      ensures View() == Next(old(View()), Action.EnableIrq(n))
    {
      hide LineCleared;
      if n <= 7 {
        cache21, pending := LineCleared(cache21, n), OwesMaster;
      } else {
        cacheA1, pending := LineCleared(cacheA1, n), OwesSlave;
      }
    }

    /** The first half of `disable_irq`. */
    method DisableInCache(n: Line)
      requires frames == [] && pending == Nothing
      modifies this`cache21, this`cacheA1, this`pending
      ensures View() == Next(old(View()), Action.DisableIrq(n))
    {
      hide ShiftedIn;
      if n <= 7 {
        cache21, pending := ShiftedIn(cache21, n), OwesMaster;
      } else {
        cacheA1, pending := ShiftedIn(cacheA1, n), OwesSlave;
      }
    }

    /** The second half of either: the port write. */
    method OutCache(n: Line)
      requires frames == [] && pending == if n <= 7 then OwesMaster else OwesSlave
      modifies this`mask21, this`maskA1, this`written21, this`writtenA1, this`pending
      ensures View() == Next(old(View()), WritePort)
    {
      if n <= 7 {
        mask21, written21, pending := cache21, cache21, Nothing;
      } else {
        maskA1, writtenA1, pending := cacheA1, cacheA1, Nothing;
      }
    }

    /** `enable_irq` */
    method EnableIrq(n: nat)
      requires frames == [] && pending == Nothing
      modifies this
      ensures View() == if n < 16 then Called(old(View()), Action.EnableIrq(n)) else old(View())
    {
      hide Bit, LineCleared;
      if n >= 16 {
        return;
      }
      EnableInCache(n);
      OutCache(n);
    }

    /** `disable_irq` */
    method DisableIrq(n: nat)
      requires frames == [] && pending == Nothing
      modifies this
      ensures View() == if n < 16 then Called(old(View()), Action.DisableIrq(n)) else old(View())
    {
      hide Bit, ShiftedIn;
      if n >= 16 {
        return;
      }
      DisableInCache(n);
      OutCache(n);
    }
  }
}
