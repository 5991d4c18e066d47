/** What holds over every run of the interrupt system, however deeply interrupts nest. */
module InterruptRuns {
  import opened Pic
  import opened Interrupts

  /** Every state the kernel can reach once the controllers are set up. */
  lemma {:induction false} ReachedInv(states: seq<State>, actions: seq<Action>, i: nat)
    requires IsRun(states, actions) && states[0] == INITIAL && i <= |actions|
    ensures Inv(states[i])
  {
    InitialInv();
    RunKeepsInv(states, actions, i);
  }

  /**
   * The two writers of the mask registers agree: in every reachable state each mask bit is set exactly when the last
   * `enable_irq` or `disable_irq` set it or a stub for its line is between its two writes.
   */
  lemma {:induction false} MasksAgree(states: seq<State>, actions: seq<Action>, i: nat, irq: Line)
    requires IsRun(states, actions) && states[0] == INITIAL && i <= |actions|
    ensures var st := states[i];
      IsSet(Mask(st, irq), irq % 8) <==> IsSet(Written(st, irq), irq % 8) || InService(st.frames, irq)
  {
    hide IsSet, IsRun;
    ReachedInv(states, actions, i);
  }

  /** Once all handlers have returned, the masks are what was last written, and the caches unless a write is owed. */
  lemma {:induction false} MasksRestored(states: seq<State>, actions: seq<Action>, i: nat)
    requires IsRun(states, actions) && states[0] == INITIAL && i <= |actions| && states[i].frames == []
    ensures var st := states[i];
      && st.master.mask == st.master.written && st.slave.mask == st.slave.written
      && (st.pending == Nothing ==> st.master.mask == st.master.cache && st.slave.mask == st.slave.cache)
  {
    hide IsSet, Next, Enabled;
    ReachedInv(states, actions, i);
    NobodyInService(states[i]);
  }

  ghost function LinesOf(frames: seq<Frame>): (r: set<int>)
    ensures forall n :: n in r <==> exists i :: 0 <= i < |frames| && frames[i].irq == n
  {
    set i | 0 <= i < |frames| :: frames[i].irq as int
  }

  ghost function Below(n: nat): (r: set<int>)
    ensures |r| == n && forall k :: k in r <==> 0 <= k < n
  {
    if n == 0 then {} else Below(n - 1) + {n - 1}
  }

  lemma SubsetSize(a: set<int>, b: set<int>)
    requires a <= b
    ensures |a| <= |b|
  {
    if exists x :: x in a {
      var x :| x in a;
      SubsetSize(a - {x}, b - {x});
    } else {
      assert a == {};
    }
  }

  lemma {:induction false} DistinctCount(frames: seq<Frame>)
    requires forall i, j :: 0 <= i < j < |frames| ==> frames[i].irq != frames[j].irq
    ensures |LinesOf(frames)| == |frames|
    decreases |frames|
  {
    if frames != [] {
      var k := |frames| - 1;
      DistinctCount(frames[..k]);
      assert LinesOf(frames) == LinesOf(frames[..k]) + {frames[k].irq};
    } else {
      assert LinesOf(frames) == {};
    }
  }

  /**
   * No line is served twice at a time, the nesting is at most sixteen deep, and the timer's stub, which never turns
   * interrupts on, is only ever the innermost.
   */
  lemma {:induction false} NestingBounded(states: seq<State>, actions: seq<Action>, k: nat)
    requires IsRun(states, actions) && states[0] == INITIAL && k <= |actions|
    ensures var frames := states[k].frames;
      && (forall i, j :: 0 <= i < j < |frames| ==> frames[i].irq != frames[j].irq)
      && |frames| <= 16
      && (forall i :: 0 <= i < |frames| - 1 ==> frames[i].irq != 0)
  {
    hide IsSet, FrameOk, AlOk, MaskAgreement, Next, Enabled;
    ReachedInv(states, actions, k);
    var frames := states[k].frames;
    DistinctCount(frames);
    SubsetSize(LinesOf(frames), Below(16));
  }

  /** Whenever interrupts are on, no request waits for an acknowledgement at either controller. */
  lemma {:induction false} AcknowledgedWhenOpen(states: seq<State>, actions: seq<Action>, i: nat)
    requires IsRun(states, actions) && states[0] == INITIAL && i <= |actions| && states[i].iflag
    ensures states[i].master.isr == 0 && states[i].slave.isr == 0
  {
    hide IsSet, Next, Enabled;
    ReachedInv(states, actions, i);
    OpenMeansAcknowledged(states[i]);
  }

  /** So the end of interrupt the keyboard handler sends by itself takes nothing from any other line. */
  lemma {:induction false} KeyboardEoiHarmless(states: seq<State>, actions: seq<Action>, i: nat)
    requires IsRun(states, actions) && states[0] == INITIAL && i < |actions| && actions[i] == HandlerEoi
    ensures states[i + 1] == states[i]
  {
    hide IsSet, Next, Enabled, Inv;
    ReachedInv(states, actions, i);
    var a := actions[i];
    HandlerEoiIsNoOp(states[i]);
  }

  // ---- an interrupt is transparent ----

  /** Everything the thread owns is as it was: the caches, what it has written, and what it owes. */
  predicate SameThread(st: State, t: State) {
    && t.pending == st.pending
    && t.master.cache == st.master.cache && t.master.written == st.master.written
    && t.slave.cache == st.slave.cache && t.slave.written == st.slave.written
  }

  lemma StubLeavesThread(st: State)
    requires st.frames != [] && Top(st).pc != Handler
    ensures SameThread(st, StepStub(st))
  {
    hide Eoi, StepFrame, StepFlag;
  }

  /** What the interrupt side does leaves the thread alone. */
  lemma OnlyThreadWrites(st: State, a: Action)
    requires Enabled(st, a) && !a.EnableIrq? && !a.DisableIrq? && !a.WritePort?
    ensures SameThread(st, Next(st, a))
  {
    if a.StubStep? {
      StubLeavesThread(st);
    }
    hide StepStub, IsSet, Bit, Admits, Eoi;
  }

  /** While the stack is deeper than `d`, what lies below stays, and so does everything the thread owns. */
  predicate Beneath(st: State, t: State, d: nat) {
    |t.frames| >= d && |st.frames| >= d && t.frames[..d] == st.frames[..d] && SameThread(st, t)
  }

  lemma NextBeneath(st: State, a: Action, d: nat)
    requires Enabled(st, a) && |st.frames| > d
    ensures Beneath(st, Next(st, a), d)
  {
    OnlyThreadWrites(st, a);
    hide IsSet, Bit, Eoi, StepFrame, StepPorts, Admits, SameThread;
  }

  /**
   * The run from the acceptance of a request to the `iret` of its own stub: in between, the stack is always deeper than
   * it was before.
   */
  ghost predicate Interrupt(states: seq<State>, actions: seq<Action>, irq: Line) {
    && IsRun(states, actions)
    && 0 < |actions| && actions[0] == Deliver(irq)
    && (forall i :: 0 < i < |actions| ==> |states[i].frames| > |states[0].frames|)
    && |states[|actions|].frames| == |states[0].frames|
  }

  lemma {:induction false} RunBeneath(states: seq<State>, actions: seq<Action>, irq: Line, i: nat)
    requires Interrupt(states, actions, irq) && 1 <= i <= |actions|
    ensures Beneath(states[0], states[i], |states[0].frames|)
    decreases i
  {
    hide Enabled, IsSet, Admits, Bit, StepStub;
    var a := actions[i - 1];
    if i > 1 {
      RunBeneath(states, actions, irq, i - 1);
      hide Next;
      NextBeneath(states[i - 1], a, |states[0].frames|);
    } else {
      assert a == Deliver(irq);
      assert states[1] == Taken(states[0], irq);
      assert states[1].frames[..|states[0].frames|] == states[0].frames;
    }
  }

  /** The stub that brings the stack down turns interrupts back on, because they were on when it was entered. */
  lemma {:induction false} ReturnsOpen(st: State, a: Action)
    requires Inv(st) && Enabled(st, a) && |Next(st, a).frames| < |st.frames|
    ensures Next(st, a).iflag
  {
    hide IsSet, Eoi, Bit, StepFrame, StepPorts, MaskAgreement;
    TopOk(st);
  }

  /** Two states with the same stack, writes and debts have the same controllers. */
  lemma SameControllers(st: State, t: State)
    requires Inv(st) && Inv(t)
    requires t.frames == st.frames && SameThread(st, t)
    ensures t.master == st.master && t.slave == st.slave
  {
    hide IsSet, StackOk, InService;
    forall n: nat | n < 8 ensures IsSet(st.master.mask, n) <==> IsSet(t.master.mask, n) {
      var irq: Line := n;
      assert IsSet(Mask(st, irq), irq % 8) <==> IsSet(Written(st, irq), irq % 8) || InService(st.frames, irq);
      assert IsSet(Mask(t, irq), irq % 8) <==> IsSet(Written(t, irq), irq % 8) || InService(t.frames, irq);
    }
    forall n: nat | n < 8 ensures IsSet(st.slave.mask, n) <==> IsSet(t.slave.mask, n) {
      var irq: Line := n + 8;
      assert IsSet(Mask(st, irq), irq % 8) <==> IsSet(Written(st, irq), irq % 8) || InService(st.frames, irq);
      assert IsSet(Mask(t, irq), irq % 8) <==> IsSet(Written(t, irq), irq % 8) || InService(t.frames, irq);
    }
    SameBits(st.master.mask, t.master.mask);
    SameBits(st.slave.mask, t.slave.mask);
  }

  /**
   * An interrupt, with every interrupt that nests inside it, is transparent: from the moment it is taken to the moment
   * its own stub returns, masks, caches, requests in service, interrupt flag and stack all come back to what they were.
   */
  lemma {:induction false} InterruptTransparent(states: seq<State>, actions: seq<Action>, irq: Line)
    requires Interrupt(states, actions, irq) && Inv(states[0])
    ensures states[|actions|] == states[0]
  {
    hide IsSet, Inv, Admits, Taken;
    var n, d := |actions|, |states[0].frames|;
    var first, last := actions[0], actions[n - 1];
    RunKeepsInv(states, actions, n - 1);
    RunKeepsInv(states, actions, n);
    RunBeneath(states, actions, irq, n);
    if n == 1 {
      DeliverDeepens(states[0], irq);
    }
    hide Next, Enabled, Accepts;
    ReturnsOpen(states[n - 1], last);
    assert states[n].frames == states[n].frames[..d] == states[0].frames[..d] == states[0].frames;
    SameControllers(states[0], states[n]);
    AcceptedWhileOpen(states[0], irq);
  }

  lemma DeliverDeepens(st: State, irq: Line)
    ensures |Taken(st, irq).frames| == |st.frames| + 1
  {
  }

  lemma AcceptedWhileOpen(st: State, irq: Line)
    ensures Enabled(st, Deliver(irq)) ==> st.iflag
  {
  }

  // ---- enabling and disabling a line ----

  /** `enable_irq` or `disable_irq` without an interrupt in between: the cache update and the port write. */
  function Called(st: State, a: Action): State
    requires (a.EnableIrq? || a.DisableIrq?) && a.n < 16 && Enabled(st, a)
  {
    Next(Next(st, a), WritePort)
  }

  lemma CalledEnable(st: State, irq: Line)
    requires Inv(st) && Enabled(st, EnableIrq(irq))
    ensures var m := LineCleared(Mask(st, irq), irq);
      Called(st, EnableIrq(irq)) == WithPort(st, irq, Controller(m, m, m, Port(st, irq).isr))
  {
    hide IsSet, Bit, InService, LineCleared;
    NobodyInService(st);
  }

  lemma {:induction false} CalledEnableMasks(st: State, irq: Line)
    requires Inv(st) && Enabled(st, EnableIrq(irq))
    ensures forall n: Line ::
      IsSet(Mask(Called(st, EnableIrq(irq)), n), n % 8) <==> IsSet(Mask(st, n), n % 8) && n != irq
  {
    hide IsSet, Bit, Inv, Called;
    CalledEnable(st, irq);
    forall n: Line
      ensures IsSet(Mask(Called(st, EnableIrq(irq)), n), n % 8) <==> IsSet(Mask(st, n), n % 8) && n != irq
    {
      SetAndClear(Mask(st, irq), irq % 8, n % 8);
    }
  }

  lemma CalledDisable(st: State, irq: Line)
    requires Inv(st) && Enabled(st, DisableIrq(irq))
    ensures var m := ShiftedIn(Mask(st, irq), irq);
      Called(st, DisableIrq(irq)) == WithPort(st, irq, Controller(m, m, m, Port(st, irq).isr))
  {
    hide IsSet, Bit, InService, ShiftedIn;
    NobodyInService(st);
  }

  lemma ShiftedInMasks(b: bv8, irq: Line, n: nat)
    requires n < 8
    ensures IsSet(ShiftedIn(b, irq), n) <==> IsSet(b, n) || n == irq
    ensures irq >= 8 ==> ShiftedIn(b, irq) == b
  {
    if irq < 8 {
      SetAndClear(b, irq, n);
    } else {
      assert b | 0 == b;
    }
  }

  lemma {:induction false} CalledDisableMasks(st: State, irq: Line)
    requires Inv(st) && Enabled(st, DisableIrq(irq))
    ensures var t := Called(st, DisableIrq(irq));
      && (forall n: Line :: IsSet(Mask(t, n), n % 8) <==> IsSet(Mask(st, n), n % 8) || (n == irq && irq <= 7))
      && (irq >= 8 ==> t.master.mask == st.master.mask && t.slave.mask == st.slave.mask)
  {
    hide IsSet, Bit, Inv, Called, ShiftedIn;
    CalledDisable(st, irq);
    forall n: Line
      ensures IsSet(Mask(Called(st, DisableIrq(irq)), n), n % 8)
        <==> IsSet(Mask(st, n), n % 8) || (n == irq && irq <= 7)
    {
      ShiftedInMasks(Mask(st, irq), irq, n % 8);
    }
    ShiftedInMasks(Mask(st, irq), irq, 0);
  }

  /**
   * A call of `enable_irq` or `disable_irq` with whatever lands inside it: it starts with the update of the cache and
   * ends with the next write of a mask register. Interrupts, nested to any depth, may come in between.
   */
  ghost predicate CallRun(states: seq<State>, actions: seq<Action>, call: Action) {
    && IsRun(states, actions)
    && (call.EnableIrq? || call.DisableIrq?) && call.n < 16
    && 2 <= |actions| && actions[0] == call && actions[|actions| - 1] == WritePort
    && forall i :: 0 < i < |actions| - 1 ==> actions[i] != WritePort
  }

  lemma {:induction false} InsideCall(states: seq<State>, actions: seq<Action>, call: Action, i: nat)
    requires CallRun(states, actions, call) && 1 <= i < |actions|
    ensures SameThread(states[1], states[i]) && states[i].pending != Nothing
    decreases i
  {
    if i > 1 {
      InsideCall(states, actions, call, i - 1);
      var a := actions[i - 1];
      OnlyThreadWrites(states[i - 1], a);
    } else {
      assert actions[0] == call;
    }
  }

  /** Interrupts inside a call make no difference to it: the state is the one the undisturbed call leaves. */
  lemma {:induction false} CallUndisturbed(states: seq<State>, actions: seq<Action>, call: Action)
    requires CallRun(states, actions, call) && Inv(states[0])
    ensures Enabled(states[0], call)
    ensures states[|actions|] == Called(states[0], call).(iflag := states[|actions|].iflag)
  {
    hide Inv, LineCleared, ShiftedIn;
    var n, u := |actions|, Next(states[0], call);
    assert actions[0] == call && actions[n - 1] == WritePort;
    InsideCall(states, actions, call, n - 1);
    RunKeepsInv(states, actions, n);
    NextKeepsInv(states[0], call);
    NextKeepsInv(u, WritePort);
    SameControllers(Next(u, WritePort), states[n]);
  }

  /** `enable_irq` unmasks its line and no other, on either controller, whatever interrupts land inside the call. */
  lemma {:induction false} EnableOpensLine(states: seq<State>, actions: seq<Action>, irq: Line)
    requires CallRun(states, actions, EnableIrq(irq)) && Inv(states[0])
    ensures forall n: Line ::
      IsSet(Mask(states[|actions|], n), n % 8) <==> IsSet(Mask(states[0], n), n % 8) && n != irq
  {
    hide IsSet, Inv, Called;
    CallUndisturbed(states, actions, EnableIrq(irq));
    CalledEnableMasks(states[0], irq);
  }

  /**
   * `disable_irq` shifts by the number of the line, not by its place in its controller: for lines 8 to 15 nothing is
   * left of the bit. So it masks its line exactly when the line belongs to the master, and no other line ever, whatever
   * interrupts land inside the call.
   */
  lemma {:induction false} DisableMasksMasterOnly(states: seq<State>, actions: seq<Action>, irq: Line)
    requires CallRun(states, actions, DisableIrq(irq)) && Inv(states[0])
    ensures forall n: Line ::
      IsSet(Mask(states[|actions|], n), n % 8) <==> IsSet(Mask(states[0], n), n % 8) || (n == irq && irq <= 7)
    ensures irq >= 8 ==> var t := states[|actions|];
      t.master.mask == states[0].master.mask && t.slave.mask == states[0].slave.mask
  {
    hide IsSet, Inv, Called;
    CallUndisturbed(states, actions, DisableIrq(irq));
    CalledDisableMasks(states[0], irq);
  }

  predicate NeverEnables(actions: seq<Action>, irq: Line) {
    forall k :: 0 <= k < |actions| ==> actions[k] != EnableIrq(irq)
  }

  /** The line is masked in the cache, and as far as the controller has been told. */
  ghost predicate ShutOut(st: State, irq: Line) {
    IsSet(Port(st, irq).cache, irq % 8) && IsSet(Written(st, irq), irq % 8)
  }

  lemma NotDelivered(st: State, irq: Line)
    requires Inv(st) && ShutOut(st, irq)
    ensures !Accepts(st, irq)
  {
    hide IsSet, Bit, Admits, InService, StackOk;
    assert IsSet(Mask(st, irq), irq % 8) <==> IsSet(Written(st, irq), irq % 8) || InService(st.frames, irq);
  }

  lemma CallShutsOut(st: State, a: Action, irq: Line)
    requires Enabled(st, a) && ShutOut(st, irq) && a != EnableIrq(irq) && (a.EnableIrq? || a.DisableIrq?)
    ensures ShutOut(Next(st, a), irq)
  {
    hide IsSet, Bit, ShiftedIn, LineCleared;
    if a.EnableIrq? && a.n < 16 && a.n % 8 != irq % 8 {
      ClearedKeeps(Port(st, irq).cache, a.n, irq % 8);
    } else if a.DisableIrq? && a.n < 16 {
      ShiftedByteSets(Port(st, irq).cache, a.n, irq % 8);
    }
  }

  lemma {:induction false} NextShutsOut(st: State, a: Action, irq: Line)
    requires Inv(st) && Enabled(st, a) && ShutOut(st, irq) && a != EnableIrq(irq)
    ensures a != Deliver(irq) && ShutOut(Next(st, a), irq)
  {
    hide IsSet, Inv, Accepts;
    NotDelivered(st, irq);
    if a.EnableIrq? || a.DisableIrq? {
      CallShutsOut(st, a, irq);
    } else if !a.WritePort? {
      hide Next;
      OnlyThreadWrites(st, a);
    }
  }

  lemma ClearedKeeps(b: bv8, n: Line, k: nat)
    requires k < 8 && IsSet(b, k) && k != n % 8
    ensures IsSet(LineCleared(b, n), k)
  {
    SetAndClear(b, n % 8, k);
  }

  lemma ShiftedByteSets(b: bv8, n: nat, k: nat)
    requires k < 8 && IsSet(b, k)
    ensures IsSet(ShiftedIn(b, n), k)
  {
    if n < 8 {
      SetAndClear(b, n, k);
    } else {
      assert b | 0 == b;
    }
  }

  /** A line shut out is never delivered again until the kernel enables it. */
  lemma {:induction false} ShutOutStays(states: seq<State>, actions: seq<Action>, irq: Line, i: nat)
    requires IsRun(states, actions) && i <= |actions|
    requires Inv(states[0]) && ShutOut(states[0], irq) && NeverEnables(actions, irq)
    ensures ShutOut(states[i], irq)
    ensures i < |actions| ==> actions[i] != Deliver(irq)
    decreases i
  {
    hide Inv, Next, Enabled, ShutOut;
    if i > 0 {
      ShutOutStays(states, actions, irq, i - 1);
      var a := actions[i - 1];
      RunKeepsInv(states, actions, i - 1);
      NextShutsOut(states[i - 1], a, irq);
    }
    if i < |actions| {
      var b := actions[i];
      RunKeepsInv(states, actions, i);
      NextShutsOut(states[i], b, irq);
    }
  }
}
