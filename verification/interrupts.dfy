/** Timer interrupts landing anywhere in a run of machine code. */
module Interrupts {
  import opened Common
  import opened Dyadic
  import opened Preempt
  import opened Machine
  import opened Stub
  import Protocol

  const TABLE: nat := 1120

  /** The stack has room for an interrupt and does not run into the frame
      table. */
  predicate Room(frames: nat, rsp: nat)
  {
    rsp >= SPILL_ROOM && (rsp <= frames || frames + TABLE + SPILL_ROOM <= rsp)
  }

  /** Words no interrupt at `rsp` can reach: clear of the room just below it and
      of the frame table. */
  predicate Safe(frames: nat, rsp: nat, a: nat)
  {
    !Touches(a, rsp - SPILL_ROOM, rsp) && !Touches(a, frames, frames + TABLE)
  }

  ghost predicate AllSafe(frames: nat, rsp: nat, live: iset<nat>)
  {
    forall a: nat :: a in live ==> Safe(frames, rsp, a)
  }

  predicate SameControl(s: Cpu, t: Cpu)
  {
    && t.regs == s.regs && t.rip == s.rip && t.cs == s.cs && t.ss == s.ss && t.rflags == s.rflags
    && t.g.fence == s.g.fence && t.g.current == s.g.current && t.g.used == s.g.used && t.g.eoiBase == s.g.eoiBase
  }

  ghost predicate SameLive(live: iset<nat>, m: Memory, m': Memory)
  {
    forall a: nat :: a in live ==> Read(m', a) == Read(m, a)
  }

  /** Equal registers, equal globals apart from the three counters, and equal
      memory at the words of `live`. */
  ghost predicate Agree(live: iset<nat>, s: Cpu, t: Cpu)
  {
    Whole(s) && SameControl(s, t) && SameLive(live, s.mem, t.mem)
  }

  lemma RoomClears(hw: HwFrame, frames: nat, rsp: nat, i: nat)
    requires Room(frames, rsp) && i < MAX_TASKS
    ensures StackClear(hw, rsp, SlotAddr(frames, i)) && frames <= SlotAddr(frames, i) <= frames + TABLE - STRIDE
  {
    AfterPushBounds(hw, rsp);
  }

  /** One interrupt, if there is room for it. */
  function Tick(hw: HwFrame, stub: seq<Instr>, s: Cpu): (t: Cpu)
    requires Whole(s)
    ensures Whole(t)
  {
    if s.regs[RSP] < SPILL_ROOM then s else Interrupt(hw, stub, s)
  }

  function Ticks(hw: HwFrame, stub: seq<Instr>, n: nat, s: Cpu): (t: Cpu)
    requires Whole(s)
    ensures Whole(t)
    decreases n, s
  {
    if n == 0 then s else Tick(hw, stub, Ticks(hw, stub, n - 1, s))
  }

  /** Wherever it lands with room, an interrupt through `stub` is invisible. */
  ghost predicate Transparent(hw: HwFrame, frames: nat, stub: seq<Instr>)
  {
    forall s: Cpu {:trigger Tick(hw, stub, s)} :: Whole(s) && Room(frames, s.regs[RSP]) ==>
      Invisible(hw, SlotAddr(frames, s.g.current), s, Tick(hw, stub, s))
  }

  lemma TimerTransparent(hw: HwFrame, frames: nat)
    ensures Transparent(hw, frames, TimerStub(frames))
  {
    forall s: Cpu | Whole(s) && Room(frames, s.regs[RSP])
      ensures Invisible(hw, SlotAddr(frames, s.g.current), s, Tick(hw, TimerStub(frames), s))
    {
      if s.g.current < MAX_TASKS { RoomClears(hw, frames, s.regs[RSP], s.g.current); }
      StubTransparent(hw, frames, s);
    }
  }

  lemma InvisibleAgrees(hw: HwFrame, frames: nat, live: iset<nat>, s: Cpu, t: Cpu)
    requires Whole(s) && Room(frames, s.regs[RSP]) && AllSafe(frames, s.regs[RSP], live)
    requires Invisible(hw, SlotAddr(frames, s.g.current), s, t)
    ensures Agree(live, s, t)
  {
    var f := SlotAddr(frames, s.g.current);
    AfterPushBounds(hw, s.regs[RSP]);
    if Yanks(s.g) { RoomClears(hw, frames, s.regs[RSP], s.g.current); }
    forall a: nat | a in live ensures Read(t.mem, a) == Read(s.mem, a) {
      assert Safe(frames, s.regs[RSP], a);
      assert Kept(hw, f, s, a);
    }
  }

  lemma AgreeTrans(live: iset<nat>, s: Cpu, t: Cpu, u: Cpu)
    requires Agree(live, s, t) && Agree(live, t, u)
    ensures Agree(live, s, u)
  {
    forall a: nat | a in live ensures Read(u.mem, a) == Read(s.mem, a) {
      assert Read(t.mem, a) == Read(s.mem, a);
    }
  }

  /** An interrupt leaves every safe word, and all control state, as it was. */
  lemma TickAgrees(hw: HwFrame, frames: nat, stub: seq<Instr>, live: iset<nat>, s: Cpu, t: Cpu)
    requires Transparent(hw, frames, stub) && Agree(live, s, t)
    requires Room(frames, s.regs[RSP]) && AllSafe(frames, s.regs[RSP], live)
    ensures Agree(live, s, Tick(hw, stub, t))
  {
    InvisibleAgrees(hw, frames, live, t, Tick(hw, stub, t));
    AgreeTrans(live, s, t, Tick(hw, stub, t));
  }

  lemma {:induction false} TicksAgree(hw: HwFrame, frames: nat, stub: seq<Instr>, live: iset<nat>, n: nat, s: Cpu, t: Cpu)
    requires Transparent(hw, frames, stub) && Agree(live, s, t)
    requires Room(frames, s.regs[RSP]) && AllSafe(frames, s.regs[RSP], live)
    ensures Agree(live, s, Ticks(hw, stub, n, t))
    decreases n
  {
    if n > 0 {
      TicksAgree(hw, frames, stub, live, n - 1, s, t);
      TickAgrees(hw, frames, stub, live, s, Ticks(hw, stub, n - 1, t));
    }
  }

  // ------------------------------------------------------------ interrupted code

  /** The word an instruction writes. */
  function Target(s: Cpu, i: Instr): Option<nat>
    requires Whole(s)
  {
    match i
    case Push(_) => Some(Down(s.regs[RSP], 8))
    case Store(base, off, _) => Some(Reg(s, base) + off)
    case _ => None
  }

  /** The word an instruction reads. */
  function Source(s: Cpu, i: Instr): Option<nat>
    requires Whole(s)
  {
    match i
    case Pop(_) => Some(s.regs[RSP])
    case Load(_, base, off) => Some(Reg(s, base) + off)
    case _ => None
  }

  /** Words the code may rely on after an instruction: those it could rely on
      before and the one just written, as long as they are safe where rsp is
      now. */
  ghost function Live(frames: nat, live: iset<nat>, s: Cpu, i: Instr): iset<nat>
    requires Whole(s)
  {
    iset a: nat | Safe(frames, Do(s, i).regs[RSP], a) && (Target(s, i) == Some(a) || (a in live && !Overwritten(s, i, a)))
  }

  predicate Overwritten(s: Cpu, i: Instr, a: nat)
    requires Whole(s)
  {
    Target(s, i).Some? && Touches(a, Target(s, i).value, Target(s, i).value + 8)
  }

  /** Where the code goes next. */
  function Next(code: seq<Instr>, s: Cpu): (rest: seq<Instr>)
    requires Whole(s) && code != []
    ensures |rest| < |code|
  {
    var k := 1 + Skips(s, code[0]);
    if k <= |code| then code[k..] else []
  }

  /** The uninterrupted run from `s` has room for an interrupt at every
      instruction and reads only words it may rely on: none that it let fall
      into the room below rsp without writing it again. */
  ghost predicate TameRun(frames: nat, live: iset<nat>, code: seq<Instr>, s: Cpu)
    requires Whole(s)
    decreases |code|
  {
    code == [] ||
    (&& Room(frames, s.regs[RSP]) && AllSafe(frames, s.regs[RSP], live)
     && (Source(s, code[0]).Some? ==> Source(s, code[0]).value in live)
     && TameRun(frames, Live(frames, live, s, code[0]), Next(code, s), Do(s, code[0])))
  }

  /** What the code may rely on at the end of that run. */
  ghost function LiveAtEnd(frames: nat, live: iset<nat>, code: seq<Instr>, s: Cpu): iset<nat>
    requires Whole(s)
    decreases |code|, s
  {
    if code == [] then live
    else LiveAtEnd(frames, Live(frames, live, s, code[0]), Next(code, s), Do(s, code[0]))
  }

  /** The same code with `irqs[k]` interrupts before the `k`-th instruction
      executed, none once `irqs` runs out. */
  function ExecUnder(hw: HwFrame, stub: seq<Instr>, code: seq<Instr>, irqs: seq<nat>, s: Cpu): (t: Cpu)
    requires Whole(s)
    ensures Whole(t)
    decreases |code|, s
  {
    if code == [] then s
    else
      var u := AfterIrqs(hw, stub, irqs, s);
      ExecUnder(hw, stub, Next(code, u), if irqs == [] then [] else irqs[1..], Do(u, code[0]))
  }

  function AfterIrqs(hw: HwFrame, stub: seq<Instr>, irqs: seq<nat>, s: Cpu): (u: Cpu)
    requires Whole(s)
    ensures Whole(u)
  {
    if irqs == [] then s else Ticks(hw, stub, irqs[0], s)
  }

  lemma DoControl(live: iset<nat>, s: Cpu, t: Cpu, i: Instr)
    requires Agree(live, s, t) && (Source(s, i).Some? ==> Source(s, i).value in live)
    ensures SameControl(Do(s, i), Do(t, i)) && Skips(s, i) == Skips(t, i)
  {
  }

  lemma DoMemory(s: Cpu, t: Cpu, i: Instr, a: nat)
    requires Whole(s) && t.regs == s.regs
    ensures Target(s, i) == Some(a) ==> Read(Do(t, i).mem, a) == Read(Do(s, i).mem, a)
    ensures Target(s, i) != Some(a) ==> Read(Do(t, i).mem, a) == Read(t.mem, a) && Read(Do(s, i).mem, a) == Read(s.mem, a)
  {
  }

  lemma DoAgrees(frames: nat, live: iset<nat>, s: Cpu, t: Cpu, i: Instr)
    requires Agree(live, s, t) && (Source(s, i).Some? ==> Source(s, i).value in live)
    ensures Agree(Live(frames, live, s, i), Do(s, i), Do(t, i)) && Skips(s, i) == Skips(t, i)
  {
    DoControl(live, s, t, i);
    var after := Live(frames, live, s, i);
    forall a: nat | a in after ensures Read(Do(t, i).mem, a) == Read(Do(s, i).mem, a) { DoMemory(s, t, i, a); }
  }

  lemma IrqsAgree(hw: HwFrame, frames: nat, stub: seq<Instr>, live: iset<nat>, irqs: seq<nat>, s: Cpu, t: Cpu)
    requires Transparent(hw, frames, stub) && Agree(live, s, t)
    requires Room(frames, s.regs[RSP]) && AllSafe(frames, s.regs[RSP], live)
    ensures Agree(live, s, AfterIrqs(hw, stub, irqs, t))
  {
    if irqs != [] { TicksAgree(hw, frames, stub, live, irqs[0], s, t); }
  }

  lemma {:induction false} RunsAgree(hw: HwFrame, frames: nat, stub: seq<Instr>, live: iset<nat>,
                                     code: seq<Instr>, irqs: seq<nat>, s: Cpu, t: Cpu)
    requires Transparent(hw, frames, stub) && Agree(live, s, t) && TameRun(frames, live, code, s)
    ensures Agree(LiveAtEnd(frames, live, code, s), Exec(code, s), ExecUnder(hw, stub, code, irqs, t))
    decreases |code|
  {
    if code != [] {
      var u := AfterIrqs(hw, stub, irqs, t);
      IrqsAgree(hw, frames, stub, live, irqs, s, t);
      DoAgrees(frames, live, s, u, code[0]);
      NextSame(code, s, u);
      RunsAgree(hw, frames, stub, Live(frames, live, s, code[0]), Next(code, s), if irqs == [] then [] else irqs[1..],
                Do(s, code[0]), Do(u, code[0]));
    }
  }

  /** Timer interrupts between any instructions change nothing the code can
      rely on: whatever it does with rsp, stack switches included, the
      interrupted run ends with the registers, control state and live memory of
      the uninterrupted one. */
  lemma InterruptsInvisible(hw: HwFrame, frames: nat, live: iset<nat>, code: seq<Instr>, irqs: seq<nat>, s: Cpu)
    requires Whole(s) && TameRun(frames, live, code, s)
    ensures Agree(LiveAtEnd(frames, live, code, s), Exec(code, s), ExecUnder(hw, TimerStub(frames), code, irqs, s))
  {
    TimerTransparent(hw, frames);
    RunsAgree(hw, frames, TimerStub(frames), live, code, irqs, s, s);
  }

  lemma NextSame(code: seq<Instr>, s: Cpu, u: Cpu)
    requires Whole(s) && Whole(u) && code != [] && Skips(s, code[0]) == Skips(u, code[0])
    ensures Next(code, s) == Next(code, u) && Exec(code, s) == Exec(Next(code, s), Do(s, code[0]))
  {
  }

  /** A frame stashed while a task runs on its own stack, with room below it
      for the interrupt, passes the validity test of its slot. */
  lemma YankedFrameValid(hw: HwFrame, frames: nat, s: Cpu, bottom: nat, top: nat)
    requires Whole(s) && Window(bottom, top) && bottom + SPILL_ROOM <= s.regs[RSP] <= top && Room(frames, s.regs[RSP])
    requires Yanks(s.g)
    ensures Holds(Tick(hw, TimerStub(frames), s).mem, SlotAddr(frames, s.g.current), Stash(hw, Context(s)))
    ensures ValidFor(Stash(hw, Context(s)), bottom, top)
  {
    TimerTransparent(hw, frames);
    StashValid(hw, Context(s), bottom, top);
  }

  /** A yank by name, through any stub that is transparent, as the timer stub is:
      which word of which slot holds what, slots being 160 bytes apart. */
  lemma YankByName(hw: HwFrame, frames: nat, stub: seq<Instr>, s: Cpu)
    requires Transparent(hw, frames, stub) && Whole(s) && Room(frames, s.regs[RSP]) && Yanks(s.g)
    ensures HeldByName(hw, Tick(hw, stub, s).mem, frames + 160 * s.g.current, s)
  {
    InvisibleByName(hw, frames, s, Tick(hw, stub, s));
  }

  lemma InvisibleByName(hw: HwFrame, frames: nat, s: Cpu, t: Cpu)
    requires Whole(s) && Room(frames, s.regs[RSP]) && Yanks(s.g) && Invisible(hw, SlotAddr(frames, s.g.current), s, t)
    ensures HeldByName(hw, t.mem, frames + 160 * s.g.current, s)
  {
    HoldsByName(hw, t.mem, frames + 160 * s.g.current, s);
  }

  // --------------------------------------------- the stub is the protocol's timer

  lemma HalveByte(u: bv8)
    ensures (u >> 1) as nat == u as nat / 2
    ensures u & 1 != 0 <==> u as nat % 2 == 1
  {
  }

  /** Shifting the byte is shifting its value. */
  lemma ShiftByte(u: bv8, k: nat, v: bv8, w: bv8)
    requires Shr(u as nat, k) == v as nat && w == v >> 1
    ensures Shr(u as nat, k + 1) == w as nat
  {
    HalveByte(v);
    ShrSucc(u as nat, k);
  }

  lemma ShiftedLow(u: bv8)
    ensures Shr(u as nat, 0) == u as nat && Shr(u as nat, 1) == (u >> 1) as nat
    ensures Shr(u as nat, 2) == (u >> 2) as nat && Shr(u as nat, 3) == (u >> 3) as nat
  {
    ShiftByte(u, 0, u, u >> 1);
    ShiftByte(u, 1, u >> 1, u >> 2);
    ShiftByte(u, 2, u >> 2, u >> 3);
  }

  lemma ShiftedHigh(u: bv8)
    ensures Shr(u as nat, 4) == (u >> 4) as nat && Shr(u as nat, 5) == (u >> 5) as nat
    ensures Shr(u as nat, 6) == (u >> 6) as nat
  {
    ShiftedLow(u);
    ShiftByte(u, 3, u >> 3, u >> 4);
    ShiftByte(u, 4, u >> 4, u >> 5);
    ShiftByte(u, 5, u >> 5, u >> 6);
  }

  lemma MaskBits(u: bv8)
    ensures (u >> 1) & 1 != 0 <==> u & 2 != 0
    ensures (u >> 2) & 1 != 0 <==> u & 4 != 0
    ensures (u >> 3) & 1 != 0 <==> u & 8 != 0
    ensures (u >> 4) & 1 != 0 <==> u & 16 != 0
    ensures (u >> 5) & 1 != 0 <==> u & 32 != 0
    ensures (u >> 6) & 1 != 0 <==> u & 64 != 0
  {
  }

  lemma BitOfShift(u: bv8, k: nat, v: bv8)
    requires Shr(u as nat, k) == v as nat
    ensures Bit(u as nat, k) <==> v & 1 != 0
  {
    HalveByte(v);
  }

  lemma UsedIsShift(u: bv8, i: nat, v: bv8)
    requires i < MAX_TASKS && Shr(u as nat, i) == v as nat && (v & 1 != 0 <==> u & Mask(i) != 0)
    ensures Bit(u as nat, i) <==> Used(u, i)
  {
    BitOfShift(u, i, v);
  }

  /** The machine's bit test reads the driver's bitmap. */
  lemma BitIsUsed(used: bv8, i: nat)
    requires i < MAX_TASKS
    ensures Bit(used as nat, i) <==> Used(used, i)
  {
    if i < 4 { BitIsUsedLow(used, i); } else { BitIsUsedHigh(used, i); }
  }

  lemma BitIsUsedLow(used: bv8, i: nat)
    requires i < 4
    ensures Bit(used as nat, i) <==> Used(used, i)
  {
    MaskBits(used);
    ShiftedLow(used);
    if i == 0 { UsedIsShift(used, 0, used); }
    if i == 1 { UsedIsShift(used, 1, used >> 1); }
    if i == 2 { UsedIsShift(used, 2, used >> 2); }
    if i == 3 { UsedIsShift(used, 3, used >> 3); }
  }

  lemma BitIsUsedHigh(used: bv8, i: nat)
    requires 4 <= i < MAX_TASKS
    ensures Bit(used as nat, i) <==> Used(used, i)
  {
    MaskBits(used);
    ShiftedHigh(used);
    if i == 4 { UsedIsShift(used, 4, used >> 4); }
    if i == 5 { UsedIsShift(used, 5, used >> 5); }
    if i == 6 { UsedIsShift(used, 6, used >> 6); }
  }

  /** The machine's statics and frame table hold what the protocol state says. */
  ghost predicate Mirrors(frames: nat, c: Cpu, used: bv8, s: Protocol.State)
    requires Protocol.Sized(s)
  {
    && (c.g.fence != 0 <==> s.fence) && c.g.current == s.current
    && c.g.used == used as nat && Occupied(used) == s.tables.occ
    && forall i: nat :: i < MAX_TASKS ==> Holds(c.mem, SlotAddr(frames, i), s.tables.frames[i])
  }

  lemma YanksIsStashes(frames: nat, c: Cpu, used: bv8, s: Protocol.State)
    requires Protocol.Sized(s) && Mirrors(frames, c, used, s)
    ensures Yanks(c.g) <==> Protocol.Stashes(s)
  {
    if c.g.current < MAX_TASKS { BitIsUsed(used, c.g.current); }
  }

  lemma HoldsSame(m: Memory, m': Memory, f: nat, x: FullFrame)
    requires Holds(m, f, x) && forall a: nat :: f <= a && a + 8 <= f + STRIDE ==> Read(m', a) == Read(m, a)
    ensures Holds(m', f, x)
  {
  }

  lemma SlotsApart(frames: nat, i: nat, j: nat, a: nat)
    requires i != j && SlotAddr(frames, i) <= a && a + 8 <= SlotAddr(frames, i) + STRIDE
    ensures !Touches(a, SlotAddr(frames, j), SlotAddr(frames, j) + STRIDE)
  {
  }

  /** No interrupt touches another task's slot. */
  lemma OtherSlotKept(hw: HwFrame, frames: nat, s: Cpu, t: Cpu, i: nat, x: FullFrame)
    requires Whole(s) && Room(frames, s.regs[RSP]) && i < MAX_TASKS && (Yanks(s.g) ==> i != s.g.current)
    requires Invisible(hw, SlotAddr(frames, s.g.current), s, t) && Holds(s.mem, SlotAddr(frames, i), x)
    ensures Holds(t.mem, SlotAddr(frames, i), x)
  {
    var f := SlotAddr(frames, i);
    RoomClears(hw, frames, s.regs[RSP], i);
    forall a: nat | f <= a && a + 8 <= f + STRIDE ensures Read(t.mem, a) == Read(s.mem, a) {
      if Yanks(s.g) { SlotsApart(frames, i, s.g.current, a); }
      assert Kept(hw, SlotAddr(frames, s.g.current), s, a);
    }
    HoldsSame(s.mem, t.mem, f, x);
  }

  lemma FramesFollow(hw: HwFrame, frames: nat, c: Cpu, t: Cpu, used: bv8, s: Protocol.State, i: nat)
    requires Whole(c) && Room(frames, c.regs[RSP]) && Protocol.Sized(s) && Mirrors(frames, c, used, s) && i < MAX_TASKS
    requires Invisible(hw, SlotAddr(frames, c.g.current), c, t)
    ensures Holds(t.mem, SlotAddr(frames, i), Protocol.Apply(hw, s, Protocol.Timer(Context(c))).tables.frames[i])
  {
    YanksIsStashes(frames, c, used, s);
    if !(Yanks(c.g) && i == c.g.current) { OtherSlotKept(hw, frames, c, t, i, s.tables.frames[i]); }
  }

  lemma MirrorsFollow(hw: HwFrame, frames: nat, c: Cpu, t: Cpu, used: bv8, s: Protocol.State)
    requires Whole(c) && Room(frames, c.regs[RSP]) && Protocol.Sized(s) && Mirrors(frames, c, used, s)
    requires Invisible(hw, SlotAddr(frames, c.g.current), c, t)
    ensures Mirrors(frames, t, used, Protocol.Apply(hw, s, Protocol.Timer(Context(c))))
  {
    var s' := Protocol.Apply(hw, s, Protocol.Timer(Context(c)));
    forall i: nat | i < MAX_TASKS ensures Holds(t.mem, SlotAddr(frames, i), s'.tables.frames[i]) {
      FramesFollow(hw, frames, c, t, used, s, i);
    }
  }

  /** Run instruction by instruction, an interrupt does to the statics and the
      frame table exactly what the protocol's timer event does to its state. */
  lemma StubImplementsTimer(hw: HwFrame, frames: nat, c: Cpu, used: bv8, s: Protocol.State)
    requires Whole(c) && Room(frames, c.regs[RSP]) && Protocol.Sized(s) && Mirrors(frames, c, used, s)
    ensures Mirrors(frames, Tick(hw, TimerStub(frames), c), used, Protocol.Apply(hw, s, Protocol.Timer(Context(c))))
  {
    TimerTransparent(hw, frames);
    MirrorsFollow(hw, frames, c, Tick(hw, TimerStub(frames), c), used, s);
  }
}
