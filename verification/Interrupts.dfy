/**
 * The interrupt stubs of asm.S and the mask caches of irq.c, as one step system: every instruction of a stub, every
 * update of a cache and every write of a mask register is a step of its own, and an interrupt can be taken between
 * any two of them when the processor and the controllers allow it.
 */
module Interrupts {
  import opened Pic

  /** A request line; 8 to 15 arrive through line 2 of the master. */
  type Line = n: int | 0 <= n < 16

  /** The next instruction of a stub. */
  datatype Pc =
    | ReadMask | SetBit | WriteMask | AckMaster | AckSlave | Sti
    | Handler
    | Cli | ReadBack | ClearBit | WriteBack
    | LastCli | Iret

  /**
   * A stub on the kernel stack: its `al`, the interrupt flag in the EFLAGS it interrupted, and what its handler has
   * saved.
   */
  datatype Frame = Frame(irq: Line, pc: Pc, al: bv8, eflagsIf: bool, saved: seq<bool>)

  /** The port write that `enable_irq` or `disable_irq` still owes. */
  datatype Pending = Nothing | OwesMaster | OwesSlave

  /**
   * One 8259A and the kernel's cache of its mask: the mask register, the cache, what `enable_irq` and `disable_irq`
   * last wrote, and the requests in service.
   */
  datatype Controller = Controller(mask: bv8, cache: bv8, written: bv8, isr: bv8)

  datatype State = State(master: Controller, slave: Controller, iflag: bool, frames: seq<Frame>, pending: Pending)

  datatype Action =
    | Deliver(irq: Line)
    | StubStep
    | HandlerReturn
    | HandlerSaveCli
    | HandlerRestore
    | HandlerEoi
    | EnableIrq(n: nat)
    | DisableIrq(n: nat)
    | WritePort
    | SetFlag(on: bool)

  function Top(st: State): Frame
    requires st.frames != []
  {
    st.frames[|st.frames| - 1]
  }

  function WithTop(st: State, f: Frame): (t: State)
    requires st.frames != []
    ensures t.master == st.master && t.slave == st.slave && t.iflag == st.iflag && t.pending == st.pending
    ensures t.frames == st.frames[|st.frames| - 1 := f] && Top(t) == f
  {
    st.(frames := st.frames[|st.frames| - 1 := f])
  }

  /** The controller a line belongs to. */
  function Port(st: State, irq: Line): Controller {
    if irq < 8 then st.master else st.slave
  }

  function WithPort(st: State, irq: Line, p: Controller): (t: State)
    ensures t.iflag == st.iflag && t.frames == st.frames && t.pending == st.pending
    ensures Port(t, irq) == p && if irq < 8 then t.slave == st.slave else t.master == st.master
  {
    if irq < 8 then st.(master := p) else st.(slave := p)
  }

  function Mask(st: State, irq: Line): bv8 {
    Port(st, irq).mask
  }

  function Written(st: State, irq: Line): bv8 {
    Port(st, irq).written
  }

  /** The processor and both controllers let the request through. */
  predicate Accepts(st: State, irq: Line) {
    && st.iflag
    && !IsSet(Mask(st, irq), irq % 8)
    && if irq < 8 then Admits(st.master.isr, irq)
       else !IsSet(st.master.mask, 2) && Admits(st.master.isr, 2) && Admits(st.slave.isr, irq - 8)
  }

  /** Whose turn it is: handlers save, restore and acknowledge, and leave STI and the caches alone. */
  predicate Enabled(st: State, a: Action) {
    match a
    case Deliver(irq) => Accepts(st, irq)
    case StubStep => st.frames != [] && Top(st).pc != Handler
    case HandlerReturn => st.frames != [] && Top(st).pc == Handler && Top(st).saved == []
    case HandlerSaveCli => st.frames != [] && Top(st).pc == Handler
    case HandlerRestore => st.frames != [] && Top(st).pc == Handler && Top(st).saved != []
    case HandlerEoi => st.frames != [] && Top(st).pc == Handler && Top(st).irq >= 1
    case EnableIrq(n) => st.frames == [] && st.pending == Nothing
    case DisableIrq(n) => st.frames == [] && st.pending == Nothing
    case WritePort => st.frames == [] && st.pending != Nothing
    case SetFlag(on) => st.frames == []
  }

  /** A controller notes that a request is in service. */
  function Raised(p: Controller, n: nat): Controller
    requires n < 8
  {
    p.(isr := p.isr | Bit(n))
  }

  /** The processor turns interrupts off and enters the stub; the controllers note what is in service. */
  function Taken(st: State, irq: Line): State {
    var f := Frame(irq, if irq == 0 then Handler else ReadMask, 0, st.iflag, []);
    var m := Raised(st.master, if irq < 8 then irq else 2);
    var s := if irq < 8 then st.slave else Raised(st.slave, irq - 8);
    State(m, s, false, st.frames + [f], st.pending)
  }

  /** `orb $1<<irq, %al` */
  function LineSet(b: bv8, irq: Line): bv8 {
    b | Bit(irq % 8)
  }

  /** `andb $~(1<<irq), %al` */
  function LineCleared(b: bv8, irq: Line): bv8 {
    b & !Bit(irq % 8)
  }

  /** The stub after one instruction, given the mask byte it could have read. */
  function StepFrame(f: Frame, mask: bv8): Frame
    requires f.pc != Handler && f.pc != Iret
  {
    match f.pc
    case ReadMask => f.(al := mask, pc := SetBit)
    case SetBit => f.(al := LineSet(f.al, f.irq), pc := WriteMask)
    case WriteMask => f.(al := 0x20, pc := AckMaster)
    case AckMaster => f.(pc := if f.irq == 0 then LastCli else if f.irq < 8 then Sti else AckSlave)
    case AckSlave => f.(pc := Sti)
    case Sti => f.(pc := Handler)
    case Cli => f.(pc := ReadBack)
    case ReadBack => f.(al := mask, pc := ClearBit)
    case ClearBit => f.(al := LineCleared(f.al, f.irq), pc := WriteBack)
    case WriteBack => f.(pc := LastCli)
    case LastCli => f.(pc := Iret)
  }

  function StepFlag(pc: Pc, iflag: bool): bool {
    if pc == Sti then true else if pc == Cli || pc == LastCli then false else iflag
  }

  function Acknowledged(p: Controller): Controller {
    p.(isr := Eoi(p.isr))
  }

  /** The registers outside the stub after one instruction. */
  function StepPorts(st: State, f: Frame): (t: State)
    ensures t.frames == st.frames && t.pending == st.pending
  {
    if f.pc == WriteMask || f.pc == WriteBack then WithPort(st, f.irq, Port(st, f.irq).(mask := f.al))
    else if f.pc == AckMaster then st.(master := Acknowledged(st.master))
    else if f.pc == AckSlave then st.(slave := Acknowledged(st.slave))
    else st.(iflag := StepFlag(f.pc, st.iflag))
  }

  function StepStub(st: State): State
    requires st.frames != [] && Top(st).pc != Handler
  {
    var f := Top(st);
    if f.pc == Iret then st.(frames := st.frames[..|st.frames| - 1], iflag := f.eflagsIf)
    else WithTop(StepPorts(st, f), StepFrame(f, Mask(st, f.irq)))
  }

  /** `1 << irq_nr` in an `unsigned char`. */
  function ShiftedByte(n: nat): bv8 {
    if n < 8 then Bit(n) else 0
  }

  /** The low eight bits of the shifted `int`: nothing is left of the bit of a line above 7. */
  lemma ShiftTruncates(n: Line)
    ensures ShiftedByte(n) as bv32 == ((1 as bv32) << n) & 0xFF
  {
    if n < 8 {
      BitIsShift(n);
    }
  }

  function ShiftedIn(b: bv8, n: nat): bv8 {
    b | ShiftedByte(n)
  }

  function Cached(p: Controller, b: bv8): Controller {
    p.(cache := b)
  }

  /** `outb(cache, mask)` */
  function Flushed(p: Controller): Controller {
    p.(mask := p.cache, written := p.cache)
  }

  function Next(st: State, a: Action): State
    requires Enabled(st, a)
  {
    match a
    case Deliver(irq) => Taken(st, irq)
    case StubStep => StepStub(st)
    case HandlerReturn => WithTop(st, Top(st).(pc := if Top(st).irq == 0 then AckMaster else Cli))
    case HandlerSaveCli => WithTop(st.(iflag := false), Top(st).(saved := Top(st).saved + [st.iflag]))
    case HandlerRestore =>
      var s := Top(st).saved;
      WithTop(st.(iflag := s[|s| - 1]), Top(st).(saved := s[..|s| - 1]))
    case HandlerEoi => st.(master := Acknowledged(st.master))
    case EnableIrq(n) =>
      if n >= 16 then st
      else if n <= 7 then st.(master := Cached(st.master, LineCleared(st.master.cache, n)), pending := OwesMaster)
      else st.(slave := Cached(st.slave, LineCleared(st.slave.cache, n)), pending := OwesSlave)
    case DisableIrq(n) =>
      if n >= 16 then st
      else if n <= 7 then st.(master := Cached(st.master, ShiftedIn(st.master.cache, n)), pending := OwesMaster)
      else st.(slave := Cached(st.slave, ShiftedIn(st.slave.cache, n)), pending := OwesSlave)
    case WritePort =>
      if st.pending == OwesMaster then st.(master := Flushed(st.master), pending := Nothing)
      else st.(slave := Flushed(st.slave), pending := Nothing)
    case SetFlag(on) => st.(iflag := on)
  }

  /** After `init_irq`: every line masked but the cascade, nothing in service, interrupts off. */
  const INITIAL :=
    State(Controller(0xFB, 0xFB, 0xFB, 0), Controller(0xFF, 0xFF, 0xFF, 0), false, [], Nothing)

  /** A run: the states it goes through and the actions between them. */
  ghost predicate IsRun(states: seq<State>, actions: seq<Action>) {
    && |states| == |actions| + 1
    && forall i {:trigger actions[i]} :: 0 <= i < |actions| ==>
        Enabled(states[i], actions[i]) && states[i + 1] == Next(states[i], actions[i])
  }

  /** The actions, taken one after the other, lead from `st` to `t`. */
  ghost predicate Leads(st: State, actions: seq<Action>, t: State) {
    exists states :: IsRun(states, actions) && states[0] == st && states[|actions|] == t
  }

  /** Between its two writes of the mask register a stub keeps its line masked. */
  predicate Masks(f: Frame) {
    f.irq != 0 && (f.pc.AckMaster? || f.pc.AckSlave? || f.pc.Sti? || f.pc.Handler? || f.pc.Cli? || f.pc.ReadBack? ||
      f.pc.ClearBit? || f.pc.WriteBack?)
  }

  ghost predicate InService(frames: seq<Frame>, irq: Line) {
    exists i :: 0 <= i < |frames| && frames[i].irq == irq && Masks(frames[i])
  }

  /** Interrupts can be taken on top of this frame. */
  predicate Open(f: Frame) {
    f.irq != 0 && ((f.pc == Handler && f.saved == []) || f.pc == Cli)
  }

  /** `written` is the mask byte last written for this stub's controller. */
  ghost predicate FrameOk(f: Frame, written: bv8) {
    && f.eflagsIf
    && (f.pc != Handler ==> f.saved == [])
    && (forall k :: 0 <= k < |f.saved| ==> (f.saved[k] <==> f.irq != 0 && k == 0))
    && (f.irq == 0 ==> f.pc == Handler || f.pc == AckMaster || f.pc == LastCli || f.pc == Iret)
    && (f.pc == AckSlave ==> f.irq >= 8)
    && (f.irq != 0 ==> !IsSet(written, f.irq % 8))
  }

  /** What the innermost stub holds in `al`. Nothing can have changed the mask since it was read. */
  predicate AlOk(f: Frame, mask: bv8) {
    && (f.pc == SetBit || f.pc == ClearBit ==> f.al == mask)
    && (f.pc == WriteMask ==> f.al == LineSet(mask, f.irq))
    && (f.pc == WriteBack ==> f.al == LineCleared(mask, f.irq))
  }

  /** The request of a stub that has not acknowledged it yet. */
  function MasterRequest(f: Frame): bv8 {
    if f.pc == ReadMask || f.pc == SetBit || f.pc == WriteMask || f.pc == AckMaster || (f.irq == 0 && f.pc == Handler)
    then Bit(if f.irq < 8 then f.irq else 2) else 0
  }

  function SlaveRequest(f: Frame): bv8 {
    if f.irq >= 8
       && (f.pc == ReadMask || f.pc == SetBit || f.pc == WriteMask || f.pc == AckMaster || f.pc == AckSlave)
    then Bit(f.irq - 8) else 0
  }

  /** What is in service at a controller belongs to the stub that is running, and to no other. */
  function MasterIsr(frames: seq<Frame>): bv8 {
    if frames == [] then 0 else MasterRequest(frames[|frames| - 1])
  }

  function SlaveIsr(frames: seq<Frame>): bv8 {
    if frames == [] then 0 else SlaveRequest(frames[|frames| - 1])
  }

  ghost predicate StackOk(st: State) {
    && (forall i :: 0 <= i < |st.frames| ==> FrameOk(st.frames[i], Written(st, st.frames[i].irq)))
    && (forall i :: 0 <= i < |st.frames| - 1 ==> Open(st.frames[i]))
    && (forall i, j :: 0 <= i < j < |st.frames| ==> st.frames[i].irq != st.frames[j].irq)
    && (st.frames != [] ==> AlOk(Top(st), Mask(st, Top(st).irq)) && (st.iflag <==> Open(Top(st))))
  }

  /** The mask registers hold what was last written, joined with the lines now in service. */
  ghost predicate MaskAgreement(st: State) {
    forall irq: Line ::
      IsSet(Mask(st, irq), irq % 8) <==> IsSet(Written(st, irq), irq % 8) || InService(st.frames, irq)
  }

  predicate CacheOk(st: State) {
    && (st.pending != OwesMaster ==> st.master.written == st.master.cache)
    && (st.pending != OwesSlave ==> st.slave.written == st.slave.cache)
  }

  ghost predicate Inv(st: State) {
    && StackOk(st)
    && MaskAgreement(st)
    && st.master.isr == MasterIsr(st.frames) && st.slave.isr == SlaveIsr(st.frames)
    && CacheOk(st)
  }

  // ---- what a change of the stack does to the lines in service ----

  lemma ServiceUnchanged(frames: seq<Frame>, g: Frame, irq: Line)
    requires frames != [] && g.irq == frames[|frames| - 1].irq && Masks(g) == Masks(frames[|frames| - 1])
    ensures InService(frames[|frames| - 1 := g], irq) <==> InService(frames, irq)
  {
    var k := |frames| - 1;
    var t := frames[k := g];
    if InService(frames, irq) {
      var i :| 0 <= i < |frames| && frames[i].irq == irq && Masks(frames[i]);
      assert t[i].irq == irq && Masks(t[i]);
    }
    if InService(t, irq) {
      var i :| 0 <= i < |t| && t[i].irq == irq && Masks(t[i]);
      assert frames[i].irq == irq && Masks(frames[i]);
    }
  }

  /** A stub that starts masking adds its own line. */
  lemma ServiceBegins(frames: seq<Frame>, g: Frame, irq: Line)
    requires frames != [] && g.irq == frames[|frames| - 1].irq && Masks(g) && !Masks(frames[|frames| - 1])
    ensures InService(frames[|frames| - 1 := g], irq) <==> InService(frames, irq) || irq == g.irq
  {
    var k := |frames| - 1;
    var t := frames[k := g];
    assert t[k] == g;
    if InService(frames, irq) {
      var i :| 0 <= i < |frames| && frames[i].irq == irq && Masks(frames[i]);
      assert t[i].irq == irq && Masks(t[i]);
    }
    if InService(t, irq) && irq != g.irq {
      var i :| 0 <= i < |t| && t[i].irq == irq && Masks(t[i]);
      assert frames[i].irq == irq && Masks(frames[i]);
    }
  }

  /** A stub that stops masking takes its own line away, and no other stub has that line. */
  lemma ServiceEnds(frames: seq<Frame>, g: Frame, irq: Line)
    requires frames != [] && g.irq == frames[|frames| - 1].irq && !Masks(g)
    requires forall i, j :: 0 <= i < j < |frames| ==> frames[i].irq != frames[j].irq
    ensures InService(frames[|frames| - 1 := g], irq) <==> InService(frames, irq) && irq != g.irq
  {
    var k := |frames| - 1;
    var t := frames[k := g];
    if InService(frames, irq) && irq != g.irq {
      var i :| 0 <= i < |frames| && frames[i].irq == irq && Masks(frames[i]);
      assert t[i].irq == irq && Masks(t[i]);
    }
    if InService(t, irq) {
      var i :| 0 <= i < |t| && t[i].irq == irq && Masks(t[i]);
      assert frames[i].irq == irq && Masks(frames[i]);
    }
  }

  lemma ServicePushed(frames: seq<Frame>, g: Frame, irq: Line)
    requires !Masks(g)
    ensures InService(frames + [g], irq) <==> InService(frames, irq)
  {
    var t := frames + [g];
    if InService(frames, irq) {
      var i :| 0 <= i < |frames| && frames[i].irq == irq && Masks(frames[i]);
      assert t[i].irq == irq && Masks(t[i]);
    }
    if InService(t, irq) {
      var i :| 0 <= i < |t| && t[i].irq == irq && Masks(t[i]);
      assert frames[i].irq == irq && Masks(frames[i]);
    }
  }

  lemma ServicePopped(frames: seq<Frame>, irq: Line)
    requires frames != [] && !Masks(frames[|frames| - 1])
    ensures InService(frames[..|frames| - 1], irq) <==> InService(frames, irq)
  {
    ServicePushed(frames[..|frames| - 1], frames[|frames| - 1], irq);
    assert frames[..|frames| - 1] + [frames[|frames| - 1]] == frames;
  }

  // ---- the invariant, action by action ----

  lemma InvParts(st: State)
    requires Inv(st)
    ensures StackOk(st) && MaskAgreement(st) && CacheOk(st)
    ensures st.master.isr == MasterIsr(st.frames) && st.slave.isr == SlaveIsr(st.frames)
  {
  }

  lemma InvFromParts(t: State)
    requires StackOk(t) && MaskAgreement(t) && CacheOk(t)
    requires t.master.isr == MasterIsr(t.frames) && t.slave.isr == SlaveIsr(t.frames)
    ensures Inv(t)
  {
  }

  lemma TopOk(st: State)
    requires StackOk(st) && st.frames != []
    ensures FrameOk(Top(st), Written(st, Top(st).irq))
    ensures AlOk(Top(st), Mask(st, Top(st).irq)) && (st.iflag <==> Open(Top(st)))
  {
  }

  lemma DistinctLines(st: State)
    requires StackOk(st)
    ensures forall i, j :: 0 <= i < j < |st.frames| ==> st.frames[i].irq != st.frames[j].irq
  {
  }

  /** The innermost stub moves on: the stack stays in order. */
  lemma StackReplaced(st: State, g: Frame, t: State)
    requires StackOk(st) && st.frames != [] && g.irq == Top(st).irq
    requires t.frames == st.frames[|st.frames| - 1 := g]
    requires t.master.written == st.master.written && t.slave.written == st.slave.written
    requires FrameOk(g, Written(st, g.irq)) && AlOk(g, Mask(t, g.irq)) && (t.iflag <==> Open(g))
    ensures StackOk(t)
  {
    hide IsSet, AlOk, Open, FrameOk, Mask;
  }

  lemma AgreementKept(st: State, t: State)
    requires MaskAgreement(st)
    requires t.master.mask == st.master.mask && t.slave.mask == st.slave.mask
    requires t.master.written == st.master.written && t.slave.written == st.slave.written
    requires forall irq: Line :: InService(t.frames, irq) <==> InService(st.frames, irq)
    ensures MaskAgreement(t)
  {
    hide IsSet, InService;
    forall irq: Line
      ensures IsSet(Mask(t, irq), irq % 8) <==> IsSet(Written(t, irq), irq % 8) || InService(t.frames, irq)
    {
      assert IsSet(Mask(st, irq), irq % 8) <==> IsSet(Written(st, irq), irq % 8) || InService(st.frames, irq);
    }
  }

  /** A step of the innermost stub or its handler that writes no mask. */
  lemma QuietStep(st: State, g: Frame, t: State)
    requires Inv(st) && st.frames != []
    requires g.irq == Top(st).irq && Masks(g) == Masks(Top(st))
    requires t.frames == st.frames[|st.frames| - 1 := g] && t.pending == st.pending
    requires t.master == st.master.(isr := t.master.isr) && t.slave == st.slave.(isr := t.slave.isr)
    requires FrameOk(g, Written(st, g.irq)) && AlOk(g, Mask(st, g.irq))
    requires t.iflag <==> Open(g)
    requires t.master.isr == MasterRequest(g) && t.slave.isr == SlaveRequest(g)
    ensures Inv(t)
  {
    hide IsSet, InService, Masks, FrameOk, AlOk, Open, StackOk, MaskAgreement, MasterRequest, SlaveRequest;
    forall irq: Line ensures InService(t.frames, irq) <==> InService(st.frames, irq) {
      ServiceUnchanged(st.frames, g, irq);
    }
    AgreementKept(st, t);
    StackReplaced(st, g, t);
  }

  /** What one instruction does to the stub's own part of the invariant. */
  lemma FrameSteps(f: Frame, mask: bv8, written: bv8)
    requires f.pc != Handler && f.pc != Iret && FrameOk(f, written)
    ensures var g := StepFrame(f, mask);
      g.irq == f.irq && FrameOk(g, written)
  {
    hide IsSet, LineSet, LineCleared;
    assert StepFrame(f, mask).saved == f.saved;
  }

  lemma FrameFlag(f: Frame, mask: bv8, written: bv8, iflag: bool)
    requires f.pc != Handler && f.pc != Iret && FrameOk(f, written) && (iflag <==> Open(f))
    ensures StepFlag(f.pc, iflag) <==> Open(StepFrame(f, mask))
  {
    hide IsSet, Bit;
  }

  lemma FrameAl(f: Frame, mask: bv8)
    requires f.pc != Handler && f.pc != Iret && AlOk(f, mask) && f.pc != WriteMask && f.pc != WriteBack
    ensures AlOk(StepFrame(f, mask), mask)
  {
    hide LineSet, LineCleared;
  }

  /** The byte a stub is about to write differs from the mask in its own line only. */
  lemma AlToWrite(f: Frame, mask: bv8)
    requires AlOk(f, mask)
    ensures f.pc == WriteMask ==> forall n: nat :: n < 8 ==> (IsSet(f.al, n) <==> IsSet(mask, n) || n == f.irq % 8)
    ensures f.pc == WriteBack ==> forall n: nat :: n < 8 ==> (IsSet(f.al, n) <==> IsSet(mask, n) && n != f.irq % 8)
  {
    hide IsSet, Bit;
    forall n: nat | n < 8
      ensures IsSet(LineSet(mask, f.irq), n) <==> IsSet(mask, n) || n == f.irq % 8
      ensures IsSet(LineCleared(mask, f.irq), n) <==> IsSet(mask, n) && n != f.irq % 8
    {
      SetAndClear(mask, f.irq % 8, n);
    }
  }

  lemma FrameServes(f: Frame, mask: bv8, written: bv8)
    requires f.pc != Handler && f.pc != Iret && FrameOk(f, written)
    ensures var g := StepFrame(f, mask);
      && (f.pc == WriteMask ==> Masks(g) && !Masks(f))
      && (f.pc == WriteBack ==> !Masks(g) && Masks(f) && f.irq != 0)
      && (f.pc != WriteMask && f.pc != WriteBack ==> Masks(g) == Masks(f))
  {
    hide IsSet, Bit;
  }

  lemma FrameAcknowledges(f: Frame, mask: bv8, written: bv8)
    requires f.pc != Handler && f.pc != Iret && FrameOk(f, written)
    ensures var g := StepFrame(f, mask);
      && MasterRequest(g) == (if f.pc == AckMaster then Eoi(MasterRequest(f)) else MasterRequest(f))
      && SlaveRequest(g) == (if f.pc == AckSlave then Eoi(SlaveRequest(f)) else SlaveRequest(f))
  {
    hide IsSet, Bit, Eoi;
    EoiOfOne(if f.irq < 8 then f.irq else 2);
    EoiOfOne(f.irq % 8);
  }

  lemma {:induction false} QuietStubStep(st: State)
    requires Inv(st) && st.frames != []
    requires var pc := Top(st).pc; pc != Handler && pc != Iret && pc != WriteMask && pc != WriteBack
    ensures Inv(StepStub(st))
  {
    hide Inv, StackOk, MaskAgreement, StepFrame, MasterRequest, SlaveRequest, Masks, FrameOk, AlOk, Open, Eoi,
      Mask, Written;
    var f := Top(st);
    InvParts(st);
    TopOk(st);
    FrameSteps(f, Mask(st, f.irq), Written(st, f.irq));
    FrameFlag(f, Mask(st, f.irq), Written(st, f.irq), st.iflag);
    FrameAl(f, Mask(st, f.irq));
    FrameServes(f, Mask(st, f.irq), Written(st, f.irq));
    FrameAcknowledges(f, Mask(st, f.irq), Written(st, f.irq));
    QuietStep(st, StepFrame(f, Mask(st, f.irq)), StepStub(st));
  }

  /** One stub's own line changes in the mask and in service together. */
  lemma AgreementMoved(st: State, t: State, irq: Line, b: bv8)
    requires MaskAgreement(st)
    requires t == WithPort(st, irq, Port(st, irq).(mask := b)).(frames := t.frames)
    requires forall n: Line :: n != irq ==> (InService(t.frames, n) <==> InService(st.frames, n))
    requires forall n: nat :: n < 8 && n != irq % 8 ==> (IsSet(b, n) <==> IsSet(Mask(st, irq), n))
    requires IsSet(b, irq % 8) <==> IsSet(Written(st, irq), irq % 8) || InService(t.frames, irq)
    ensures MaskAgreement(t)
  {
    hide IsSet, InService;
    forall n: Line
      ensures IsSet(Mask(t, n), n % 8) <==> IsSet(Written(t, n), n % 8) || InService(t.frames, n)
    {
      assert IsSet(Mask(st, n), n % 8) <==> IsSet(Written(st, n), n % 8) || InService(st.frames, n);
      if n / 8 == irq / 8 && n != irq {
        assert n % 8 != irq % 8;
      }
    }
  }

  lemma AfterWrite(f: Frame, mask: bv8, m: bv8)
    requires f.pc == WriteMask || f.pc == WriteBack
    ensures AlOk(StepFrame(f, mask), m)
  {
    hide Bit;
  }

  /** The stack and the acknowledgements across a write of the mask. */
  lemma {:induction false} MaskWriteStack(st: State)
    requires Inv(st) && st.frames != [] && (Top(st).pc == WriteMask || Top(st).pc == WriteBack)
    ensures var t := StepStub(st);
      && StackOk(t) && CacheOk(t)
      && t.master.isr == MasterIsr(t.frames) && t.slave.isr == SlaveIsr(t.frames)
  {
    hide Inv, MaskAgreement, StackOk, IsSet, Bit, Eoi, FrameOk, Open, Masks, MasterRequest, SlaveRequest, AlOk;
    var f, t := Top(st), StepStub(st);
    InvParts(st);
    TopOk(st);
    FrameSteps(f, Mask(st, f.irq), Written(st, f.irq));
    FrameFlag(f, Mask(st, f.irq), Written(st, f.irq), st.iflag);
    FrameAcknowledges(f, Mask(st, f.irq), Written(st, f.irq));
    AfterWrite(f, Mask(st, f.irq), Mask(t, f.irq));
    StackReplaced(st, Top(t), t);
  }

  /** What is written does not change, so the masks follow the lines in service. */
  lemma MaskFollowsService(st: State, t: State, own: Line)
    requires MaskAgreement(st) && MaskAgreement(t)
    requires t.master.written == st.master.written && t.slave.written == st.slave.written
    ensures (forall n: Line :: InService(t.frames, n) <==> InService(st.frames, n) || n == own) ==>
      forall n: Line :: IsSet(Mask(t, n), n % 8) <==> IsSet(Mask(st, n), n % 8) || n == own
    ensures !IsSet(Written(st, own), own % 8) ==>
      (forall n: Line :: InService(t.frames, n) <==> InService(st.frames, n) && n != own) ==>
      forall n: Line :: IsSet(Mask(t, n), n % 8) <==> IsSet(Mask(st, n), n % 8) && n != own
  {
    hide IsSet, InService;
  }

  /** The write of the mask register adds the stub's own line to what is masked, and no other. */
  lemma MaskingBegins(st: State)
    requires Inv(st) && st.frames != [] && Top(st).pc == WriteMask
    ensures Inv(StepStub(st))
    ensures forall n: Line ::
      IsSet(Mask(StepStub(st), n), n % 8) <==> IsSet(Mask(st, n), n % 8) || n == Top(st).irq
  {
    hide Inv, MaskAgreement, StackOk, IsSet, Bit, Eoi, FrameOk, Open, Masks, MasterRequest, SlaveRequest,
      InService, AlOk;
    var f, t := Top(st), StepStub(st);
    MaskWriteStack(st);
    InvParts(st);
    TopOk(st);
    FrameServes(f, Mask(st, f.irq), Written(st, f.irq));
    forall irq: Line ensures InService(t.frames, irq) <==> InService(st.frames, irq) || irq == f.irq {
      ServiceBegins(st.frames, Top(t), irq);
    }
    AlToWrite(f, Mask(st, f.irq));
    AgreementMoved(st, t, f.irq, f.al);
    InvFromParts(t);
    MaskFollowsService(st, t, f.irq);
  }

  /** The line of a stub on the stack was not masked by anyone else. */
  lemma OwnLineWasOpen(st: State)
    requires StackOk(st) && st.frames != [] && Top(st).irq != 0
    ensures !IsSet(Written(st, Top(st).irq), Top(st).irq % 8)
  {
    hide IsSet;
    TopOk(st);
  }

  /** The write on the way out takes the stub's own line away from what is masked, and no other. */
  lemma MaskingEnds(st: State)
    requires Inv(st) && st.frames != [] && Top(st).pc == WriteBack
    ensures Inv(StepStub(st))
    ensures forall n: Line ::
      IsSet(Mask(StepStub(st), n), n % 8) <==> IsSet(Mask(st, n), n % 8) && n != Top(st).irq
  {
    hide Inv, MaskAgreement, StackOk, IsSet, Bit, Eoi, Open, Masks, MasterRequest, SlaveRequest, InService, AlOk,
      FrameOk;
    var f, t := Top(st), StepStub(st);
    MaskWriteStack(st);
    InvParts(st);
    TopOk(st);
    FrameServes(f, Mask(st, f.irq), Written(st, f.irq));
    DistinctLines(st);
    forall irq: Line ensures InService(t.frames, irq) <==> InService(st.frames, irq) && irq != f.irq {
      ServiceEnds(st.frames, Top(t), irq);
    }
    AlToWrite(f, Mask(st, f.irq));
    OwnLineWasOpen(st);
    AgreementMoved(st, t, f.irq, f.al);
    InvFromParts(t);
    MaskFollowsService(st, t, f.irq);
  }

  lemma IretKeepsInv(st: State)
    requires Inv(st) && st.frames != [] && Top(st).pc == Iret
    ensures Inv(StepStub(st))
  {
    hide IsSet, InService, MaskAgreement, Bit, Eoi, StepFrame, StepPorts;
    var t := StepStub(st);
    forall irq: Line ensures InService(t.frames, irq) <==> InService(st.frames, irq) {
      ServicePopped(st.frames, irq);
    }
    AgreementKept(st, t);
    TopOk(st);
    if t.frames != [] {
      assert Open(st.frames[|st.frames| - 2]);
      assert Top(t) == st.frames[|st.frames| - 2];
    }
  }

  lemma {:induction false} StubKeepsInv(st: State)
    requires Inv(st) && Enabled(st, StubStep)
    ensures Inv(Next(st, StubStep))
  {
    hide Inv, StepStub;
    match Top(st).pc
    case WriteMask => MaskingBegins(st);
    case WriteBack => MaskingEnds(st);
    case Iret => IretKeepsInv(st);
    case _ => QuietStubStep(st);
  }

  /** With interrupts on, nothing is waiting for its acknowledgement. */
  lemma OpenMeansAcknowledged(st: State)
    requires Inv(st) && st.iflag
    ensures st.master.isr == 0 && st.slave.isr == 0
  {
    hide IsSet, InService, MaskAgreement, Bit;
    if st.frames != [] {
      TopOk(st);
    }
  }

  lemma AcceptedIsUnmasked(st: State, irq: Line)
    requires MaskAgreement(st) && Accepts(st, irq)
    ensures st.iflag && !IsSet(Written(st, irq), irq % 8) && !InService(st.frames, irq)
  {
    hide IsSet, Admits, InService;
    assert IsSet(Mask(st, irq), irq % 8) <==> IsSet(Written(st, irq), irq % 8) || InService(st.frames, irq);
  }

  lemma AllOpen(st: State)
    requires StackOk(st) && st.iflag
    ensures forall i :: 0 <= i < |st.frames| ==> Open(st.frames[i])
  {
    hide FrameOk, AlOk, Open;
    if st.frames != [] {
      TopOk(st);
    }
  }

  /** A line that gets through has no stub on the stack, and nothing waits for its acknowledgement. */
  lemma AcceptedIsFresh(st: State, irq: Line)
    requires Inv(st) && Accepts(st, irq)
    ensures forall i :: 0 <= i < |st.frames| ==> Open(st.frames[i]) && st.frames[i].irq != irq
    ensures !IsSet(Written(st, irq), irq % 8)
    ensures st.master.isr == 0 && st.slave.isr == 0
  {
    OpenMeansAcknowledged(st);
    AcceptedIsUnmasked(st, irq);
    AllOpen(st);
    hide Inv, StackOk, IsSet, Accepts;
    forall i | 0 <= i < |st.frames| ensures Open(st.frames[i]) && st.frames[i].irq != irq {
      assert Masks(st.frames[i]);
    }
  }

  lemma DeliverKeepsInv(st: State, irq: Line)
    requires Inv(st) && Accepts(st, irq)
    ensures Inv(Taken(st, irq))
  {
    hide IsSet, InService, MaskAgreement, Bit, Admits;
    var t := Taken(st, irq);
    var g := Top(t);
    AcceptedIsFresh(st, irq);
    forall n: Line ensures InService(t.frames, n) <==> InService(st.frames, n) {
      ServicePushed(st.frames, g, n);
    }
    AgreementKept(st, t);
    StackPushed(st, irq);
    hide StackOk;
    OrWithNothing(Bit(if irq < 8 then irq else 2));
    OrWithNothing(Bit(irq % 8));
  }

  lemma OrWithNothing(b: bv8)
    ensures 0 | b == b
  {
  }

  lemma StackPushed(st: State, irq: Line)
    requires StackOk(st) && st.iflag && !IsSet(Written(st, irq), irq % 8)
    requires forall i :: 0 <= i < |st.frames| ==> Open(st.frames[i]) && st.frames[i].irq != irq
    ensures StackOk(Taken(st, irq))
  {
    hide IsSet, Bit;
    var t := Taken(st, irq);
    forall i | 0 <= i < |t.frames| ensures FrameOk(t.frames[i], Written(t, t.frames[i].irq)) {
      if i < |st.frames| {
        assert FrameOk(st.frames[i], Written(st, st.frames[i].irq));
      }
    }
  }

  /** What a handler's own steps do to its stub, and to the interrupt flag. */
  lemma HandlerFrame(f: Frame, written: bv8, mask: bv8, iflag: bool)
    requires f.pc == Handler && FrameOk(f, written) && (iflag <==> Open(f))
    ensures var g := f.(saved := f.saved + [iflag]);
      FrameOk(g, written) && AlOk(g, mask) && !Open(g)
    ensures f.saved != [] ==>
      var k := |f.saved| - 1;
      var g := f.(saved := f.saved[..k]);
      FrameOk(g, written) && AlOk(g, mask) && (f.saved[k] <==> Open(g))
    ensures f.saved == [] ==>
      var g := f.(pc := if f.irq == 0 then AckMaster else Cli);
      FrameOk(g, written) && AlOk(g, mask) && (iflag <==> Open(g))
  {
    hide IsSet, Bit;
  }

  /** They neither mask a line nor acknowledge a request. */
  lemma HandlerFrameServes(f: Frame, g: Frame)
    requires f.pc == Handler && g.irq == f.irq
    requires g.pc == Handler || g.pc == if f.irq == 0 then AckMaster else Cli
    ensures Masks(g) == Masks(f) && MasterRequest(g) == MasterRequest(f) && SlaveRequest(g) == SlaveRequest(f)
  {
    hide Bit;
  }

  lemma HandlerKeepsInv(st: State, a: Action)
    requires Inv(st) && Enabled(st, a)
    requires a.HandlerReturn? || a.HandlerSaveCli? || a.HandlerRestore?
    ensures Inv(Next(st, a))
  {
    hide IsSet, InService, MaskAgreement, StackOk, Bit, Inv, StepStub, Taken, Eoi, FrameOk, AlOk, Open, Accepts,
      Flushed, Cached, Masks, MasterRequest, SlaveRequest;
    var f, t := Top(st), Next(st, a);
    InvParts(st);
    TopOk(st);
    HandlerFrame(f, Written(st, f.irq), Mask(st, f.irq), st.iflag);
    HandlerFrameServes(f, Top(t));
    QuietStep(st, Top(t), t);
  }

  /** The keyboard handler's own end of interrupt acknowledges nothing: its stub has acknowledged already. */
  lemma HandlerEoiIsNoOp(st: State)
    requires Inv(st) && Enabled(st, HandlerEoi)
    ensures Next(st, HandlerEoi) == st
  {
    hide IsSet, InService, MaskAgreement, StackOk, Bit;
  }

  lemma ThreadKeepsInv(st: State, a: Action)
    requires Inv(st) && Enabled(st, a)
    requires a.EnableIrq? || a.DisableIrq? || a.WritePort? || a.SetFlag?
    ensures Inv(Next(st, a))
  {
    hide IsSet, Bit, StepStub, Taken, Eoi, FrameOk, Open, AlOk, MaskAgreement, ShiftedIn, LineCleared, InService;
    var t := Next(st, a);
    if a.WritePort? {
      NobodyInService(st);
      NobodyInService(t);
    } else {
      AgreementKept(st, t);
    }
  }

  /** With no stub on the stack, agreement means that the masks are what was written. */
  lemma NobodyInService(st: State)
    requires st.frames == []
    ensures MaskAgreement(st) <==> st.master.mask == st.master.written && st.slave.mask == st.slave.written
  {
    hide Bit, IsSet;
    if MaskAgreement(st) {
      forall n: nat | n < 8 ensures IsSet(st.master.mask, n) <==> IsSet(st.master.written, n) {
        var irq: Line := n;
        assert IsSet(Mask(st, irq), irq % 8) <==> IsSet(Written(st, irq), irq % 8) || InService(st.frames, irq);
      }
      forall n: nat | n < 8 ensures IsSet(st.slave.mask, n) <==> IsSet(st.slave.written, n) {
        var irq: Line := n + 8;
        assert IsSet(Mask(st, irq), irq % 8) <==> IsSet(Written(st, irq), irq % 8) || InService(st.frames, irq);
      }
      SameBits(st.master.mask, st.master.written);
      SameBits(st.slave.mask, st.slave.written);
    }
  }

  lemma {:induction false} NextKeepsInv(st: State, a: Action)
    requires Inv(st) && Enabled(st, a)
    ensures Inv(Next(st, a))
  {
    hide Inv;
    match a
    case Deliver(irq) => DeliverKeepsInv(st, irq);
    case StubStep => StubKeepsInv(st);
    case HandlerReturn => HandlerKeepsInv(st, a);
    case HandlerSaveCli => HandlerKeepsInv(st, a);
    case HandlerRestore => HandlerKeepsInv(st, a);
    case HandlerEoi => HandlerEoiIsNoOp(st);
    case _ => ThreadKeepsInv(st, a);
  }

  /** Every state of every run. */
  lemma {:induction false} RunKeepsInv(states: seq<State>, actions: seq<Action>, i: nat)
    requires IsRun(states, actions) && i <= |actions| && Inv(states[0])
    ensures Inv(states[i])
    decreases i
  {
    hide Inv, Next, Enabled;
    if i > 0 {
      RunKeepsInv(states, actions, i - 1);
      var a := actions[i - 1];
      NextKeepsInv(states[i - 1], a);
    }
  }

  lemma InitialInv()
    ensures Inv(INITIAL)
  {
  }
}
