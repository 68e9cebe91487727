/** The LAPIC timer stub, instruction by instruction, between the CPU's
    interrupt delivery and its return. */
module Stub {
  import opened Preempt
  import opened Machine

  const STRIDE: nat := 160

  /** All general registers, in push order. */
  const SPILL: seq<nat> := [R15, R14, R13, R12, R11, R10, R9, R8, RDI, RSI, RBP, RBX, RDX, RCX, RAX]
  const SPILL_BYTES: nat := 120

  // ----------------------------------------------------------- the CPU's part

  /** Take an interrupt at ring 0. */
  function Deliver(hw: HwFrame, s: Cpu): (t: Cpu)
    requires Whole(s) && s.regs[RSP] >= SPILL_ROOM
    ensures Whole(t)
  {
    var sp := AfterPush(hw, s.regs[RSP]);
    var m := if hw == ThreeWords then s.mem else s.mem[sp + 32 := s.ss][sp + 24 := s.regs[RSP]];
    s.(regs := s.regs[RSP := sp], mem := m[sp + 16 := s.rflags][sp + 8 := s.cs][sp := s.rip])
  }

  /** `iretq`: pop what was pushed. */
  function Iretq(hw: HwFrame, s: Cpu): (t: Cpu)
    requires Whole(s)
    ensures Whole(t)
  {
    var sp := s.regs[RSP];
    var back := s.(rip := Read(s.mem, sp), cs := Read(s.mem, sp + 8), rflags := Read(s.mem, sp + 16));
    match hw
    case ThreeWords => back.(regs := s.regs[RSP := sp + 24])
    case FiveWords => back.(regs := s.regs[RSP := Read(s.mem, sp + 24)], ss := Read(s.mem, sp + 32))
  }

  // ------------------------------------------------------------ the stub's part

  /** A spilled word and the frame field it belongs to. */
  datatype Copy = Copy(src: nat, dst: nat)

  function Copies(cs: seq<Copy>): (code: seq<Instr>)
    ensures |code| == 2 * |cs|
  {
    if cs == [] then [] else [Load(RAX, RSP, cs[0].src)] + ([Store(RDI, cs[0].dst, RAX)] + Copies(cs[1..]))
  }

  /** Copy the words at offsets `ws` to consecutive fields from `at` on. */
  function WordCopies(ws: seq<nat>, at: nat): (cs: seq<Copy>)
    ensures |cs| == |ws| && forall k :: 0 <= k < |cs| ==> cs[k] == Copy(ws[k], at + 8 * k)
  {
    if ws == [] then [] else [Copy(ws[0], at)] + WordCopies(ws[1..], at + 8)
  }

  /** Where the spill holds registers `rs`: the first pushed is highest (0x70
      for r15 down to 0x00 for rax). */
  function SpillWords(rs: seq<nat>): (ws: seq<nat>)
    ensures |ws| == |rs| && forall k :: 0 <= k < |ws| ==> ws[k] == 8 * (|rs| - 1 - k)
  {
    if rs == [] then [] else [8 * (|rs| - 1)] + SpillWords(rs[1..])
  }

  /** Where the CPU left rip, cs and rflags. */
  const HW_WORDS: seq<nat> := [0x78, 0x80, 0x88]

  function GprCopies(): seq<Copy>
  {
    WordCopies(SpillWords(SPILL), 0)
  }

  function HwCopies(): seq<Copy>
  {
    WordCopies(HW_WORDS, 0x80)
  }

  /** Build the frame behind rdi: registers, then rsp, then the CPU's words
      and the magic. */
  function FillFrame(gs: seq<Copy>, hs: seq<Copy>): seq<Instr>
  {
    Copies(gs) + FillRsp(hs)
  }

  function FillRsp(hs: seq<Copy>): seq<Instr>
  {
    [Lea(RAX, RSP, 0x90)] + ([Store(RDI, 0x78, RAX)] + FillHw(hs))
  }

  function FillHw(hs: seq<Copy>): seq<Instr>
  {
    Copies(hs) + ([Imm(RAX, MAGIC)] + ([Store(RDI, 0x98, RAX)] + []))
  }

  function StashCode(frames: nat, fill: seq<Instr>): seq<Instr>
  {
    [IncSwitches] + ([Scale(RAX, STRIDE)] + ([Imm(RDI, frames)] + ([AddReg(RDI, RAX)] + fill)))
  }

  function IfOccupied(stash: seq<Instr>): seq<Instr>
  {
    [LoadUsed(RCX)] + ([SkipIfBitClear(RCX, RAX, |stash|)] + stash)
  }

  function IfInRange(body: seq<Instr>): seq<Instr>
  {
    [LoadCurrent(RAX)] + ([SkipIfAtLeast(RAX, MAX_TASKS, |body|)] + body)
  }

  /** From label 2 on: acknowledge the interrupt and restore. */
  function Finish(rs: seq<nat>): seq<Instr>
  {
    [LoadEoiBase(RAX)] + ([SkipIfZero(RAX, 1)] + [WriteEoi]) + (Pops(Reversed(rs)) + [])
  }

  function Guarded(body: seq<Instr>, finish: seq<Instr>): seq<Instr>
  {
    [SkipIfFenceDown(|body|)] + body + finish
  }

  /** The stub that spills `rs` and fills a frame by the copies `gs` and `hs`. */
  function StubCode(frames: nat, rs: seq<nat>, gs: seq<Copy>, hs: seq<Copy>): seq<Instr>
  {
    Pushes(rs) + ([IncTicks] + Guarded(IfInRange(IfOccupied(StashCode(frames, FillFrame(gs, hs)))), Finish(rs)))
  }

  function TimerStub(frames: nat): seq<Instr>
  {
    StubCode(frames, SPILL, GprCopies(), HwCopies())
  }

  // ------------------------------------------------------------------ copying

  /** Put `v` into rax and from there into the field at `dst`. */
  function PutValue(s: Cpu, v: nat, dst: nat): (t: Cpu)
    requires Whole(s)
    ensures Whole(t)
  {
    s.(regs := s.regs[RAX := v], mem := s.mem[s.regs[RDI] + dst := v])
  }

  function CopyOne(s: Cpu, c: Copy): (t: Cpu)
    requires Whole(s)
    ensures Whole(t)
  {
    PutValue(s, Read(s.mem, s.regs[RSP] + c.src), c.dst)
  }

  function CopyAll(s: Cpu, cs: seq<Copy>): (t: Cpu)
    requires Whole(s)
    ensures Whole(t)
    decreases |cs|
  {
    if cs == [] then s else CopyAll(CopyOne(s, cs[0]), cs[1..])
  }

  lemma CopySteps(c: Copy, s: Cpu)
    requires Whole(s)
    ensures Do(Do(s, Load(RAX, RSP, c.src)), Store(RDI, c.dst, RAX)) == CopyOne(s, c)
  {
  }

  lemma ExecCopy(c: Copy, rest: seq<Instr>, s: Cpu)
    requires Whole(s)
    ensures Exec([Load(RAX, RSP, c.src)] + ([Store(RDI, c.dst, RAX)] + rest), s) == Exec(rest, CopyOne(s, c))
  {
    ExecTwo(Load(RAX, RSP, c.src), Store(RDI, c.dst, RAX), rest, s);
    CopySteps(c, s);
  }

  lemma {:induction false} ExecCopies(cs: seq<Copy>, rest: seq<Instr>, s: Cpu)
    requires Whole(s)
    ensures Exec(Copies(cs) + rest, s) == Exec(rest, CopyAll(s, cs))
    decreases |cs|
  {
    if cs == [] {
      assert Copies(cs) + rest == rest;
    } else {
      var more := Copies(cs[1..]) + rest;
      assert Copies(cs) + rest == [Load(RAX, RSP, cs[0].src)] + ([Store(RDI, cs[0].dst, RAX)] + more);
      ExecCopy(cs[0], more, s);
      ExecCopies(cs[1..], rest, CopyOne(s, cs[0]));
    }
  }

  /** Copies read below `0x90` and write below `0xA0`, each field once. */
  ghost predicate CopiesOk(cs: seq<Copy>)
  {
    && (forall i :: 0 <= i < |cs| ==> cs[i].src < 0x90 && cs[i].dst < STRIDE)
    && (forall i, j :: 0 <= i < j < |cs| ==> cs[i].dst != cs[j].dst)
  }

  /** The spill at `sp` and the slot at `f` do not overlap. */
  ghost predicate Apart(sp: nat, f: nat)
  {
    sp + 0x90 <= f || f + STRIDE <= sp
  }

  ghost predicate Copied(m: Memory, sp: nat, m': Memory, f: nat, cs: seq<Copy>)
  {
    forall i :: 0 <= i < |cs| ==> Read(m', f + cs[i].dst) == Read(m, sp + cs[i].src)
  }

  /** Address `a` is one of the fields written. */
  ghost predicate Field(f: nat, cs: seq<Copy>, a: nat)
  {
    exists i :: 0 <= i < |cs| && a == f + cs[i].dst
  }

  ghost predicate OthersSame(m: Memory, m': Memory, f: nat, cs: seq<Copy>)
  {
    forall a: nat :: !Field(f, cs, a) ==> Read(m', a) == Read(m, a)
  }

  /** Only rax and memory differ. */
  ghost predicate OnlyRax(s: Cpu, t: Cpu)
  {
    Whole(s) && Whole(t) && t == s.(regs := s.regs[RAX := t.regs[RAX]], mem := t.mem)
  }

  /** `t` is `s` after the copies: their words in place, nothing else. */
  ghost predicate CopiedTo(s: Cpu, t: Cpu, cs: seq<Copy>)
  {
    && OnlyRax(s, t) && Copied(s.mem, s.regs[RSP], t.mem, s.regs[RDI], cs)
    && OthersSame(s.mem, t.mem, s.regs[RDI], cs)
  }

  lemma OnlyRaxTrans(s: Cpu, t: Cpu, u: Cpu)
    requires OnlyRax(s, t) && OnlyRax(t, u)
    ensures OnlyRax(s, u)
  {
    assert s.regs[RAX := t.regs[RAX]][RAX := u.regs[RAX]] == s.regs[RAX := u.regs[RAX]];
  }

  lemma PutOnlyRax(s: Cpu, v: nat, dst: nat)
    requires Whole(s)
    ensures var t := PutValue(s, v, dst); OnlyRax(s, t) && t.regs[RSP] == s.regs[RSP] && t.regs[RDI] == s.regs[RDI]
  {
  }

  lemma CopyStep(s: Cpu, t: Cpu, cs: seq<Copy>)
    requires Whole(s) && cs != [] && CopiesOk(cs) && Apart(s.regs[RSP], s.regs[RDI])
    requires CopiedTo(CopyOne(s, cs[0]), t, cs[1..])
    ensures CopiedTo(s, t, cs)
  {
    var u := CopyOne(s, cs[0]);
    PutOnlyRax(s, Read(s.mem, s.regs[RSP] + cs[0].src), cs[0].dst);
    OnlyRaxTrans(s, u, t);
    CopiedCons(s.mem, s.regs[RSP], u.mem, t.mem, s.regs[RDI], cs);
  }

  lemma {:induction false} CopySpec(s: Cpu, cs: seq<Copy>)
    requires Whole(s) && CopiesOk(cs) && Apart(s.regs[RSP], s.regs[RDI])
    ensures CopiedTo(s, CopyAll(s, cs), cs)
    decreases |cs|
  {
    if cs == [] {
      assert s.regs[RAX := s.regs[RAX]] == s.regs;
    } else {
      var u := CopyOne(s, cs[0]);
      CopiesTail(cs);
      CopySpec(u, cs[1..]);
      CopyStep(s, CopyAll(u, cs[1..]), cs);
    }
  }

  lemma CopiesTail(cs: seq<Copy>)
    requires CopiesOk(cs) && cs != []
    ensures CopiesOk(cs[1..])
  {
  }

  lemma FieldTail(f: nat, cs: seq<Copy>, a: nat)
    requires cs != []
    ensures Field(f, cs[1..], a) ==> Field(f, cs, a)
  {
    if Field(f, cs[1..], a) {
      var k :| 0 <= k < |cs[1..]| && a == f + cs[1..][k].dst;
      assert cs[k + 1] == cs[1..][k];
    }
  }

  lemma CopiedCons(m: Memory, sp: nat, mid: Memory, m': Memory, f: nat, cs: seq<Copy>)
    requires cs != [] && CopiesOk(cs) && Apart(sp, f) && mid == m[f + cs[0].dst := Read(m, sp + cs[0].src)]
    requires Copied(mid, sp, m', f, cs[1..]) && OthersSame(mid, m', f, cs[1..])
    ensures Copied(m, sp, m', f, cs) && OthersSame(m, m', f, cs)
  {
    forall i | 0 <= i < |cs| ensures Read(m', f + cs[i].dst) == Read(m, sp + cs[i].src) {
      if i > 0 { LaterCopied(m, sp, mid, m', f, cs, i); } else { FirstNotLater(f, cs); }
    }
    forall a: nat | !Field(f, cs, a) ensures Read(m', a) == Read(m, a) {
      assert a != f + cs[0].dst;
      FieldTail(f, cs, a);
    }
  }

  lemma LaterCopied(m: Memory, sp: nat, mid: Memory, m': Memory, f: nat, cs: seq<Copy>, i: nat)
    requires 0 < i < |cs| && CopiesOk(cs) && Apart(sp, f) && mid == m[f + cs[0].dst := Read(m, sp + cs[0].src)]
    requires Copied(mid, sp, m', f, cs[1..])
    ensures Read(m', f + cs[i].dst) == Read(m, sp + cs[i].src)
  {
    assert cs[1..][i - 1] == cs[i];
    assert sp + cs[i].src != f + cs[0].dst;
  }

  lemma FirstNotLater(f: nat, cs: seq<Copy>)
    requires cs != [] && CopiesOk(cs)
    ensures !Field(f, cs[1..], f + cs[0].dst)
  {
  }

  // -------------------------------------------------------------- the stash

  lemma {:induction false} CopiesStraight(cs: seq<Copy>)
    ensures Straight(Copies(cs))
    decreases |cs|
  {
    if cs != [] { CopiesStraight(cs[1..]); }
  }

  lemma StraightConcat(a: seq<Instr>, b: seq<Instr>)
    requires Straight(a) && Straight(b)
    ensures Straight(a + b)
  {
  }

  lemma StraightCons(i: Instr, b: seq<Instr>)
    requires !Branch(i) && Straight(b)
    ensures Straight([i] + b)
  {
  }

  lemma FillStraight(gs: seq<Copy>, hs: seq<Copy>)
    ensures Straight(FillFrame(gs, hs))
  {
    StraightCons(Store(RDI, 0x98, RAX), []);
    StraightCons(Imm(RAX, MAGIC), [Store(RDI, 0x98, RAX)] + []);
    CopiesStraight(hs);
    StraightConcat(Copies(hs), [Imm(RAX, MAGIC)] + ([Store(RDI, 0x98, RAX)] + []));
    StraightCons(Store(RDI, 0x78, RAX), FillHw(hs));
    StraightCons(Lea(RAX, RSP, 0x90), [Store(RDI, 0x78, RAX)] + FillHw(hs));
    CopiesStraight(gs);
    StraightConcat(Copies(gs), FillRsp(hs));
  }

  lemma StashStraight(frames: nat, fill: seq<Instr>)
    requires Straight(fill)
    ensures Straight(StashCode(frames, fill))
  {
    var add := [AddReg(RDI, RAX)] + fill;
    StraightCons(AddReg(RDI, RAX), fill);
    StraightCons(Imm(RDI, frames), add);
    StraightCons(Scale(RAX, STRIDE), [Imm(RDI, frames)] + add);
    StraightCons(IncSwitches, [Scale(RAX, STRIDE)] + ([Imm(RDI, frames)] + add));
  }

  /** The state once the rsp field is in. */
  function RspPut(s: Cpu): (t: Cpu)
    requires Whole(s)
    ensures Whole(t)
  {
    PutValue(s, s.regs[RSP] + 0x90, 0x78)
  }

  /** The state once the frame behind rdi is complete. */
  function Filled(s: Cpu, gs: seq<Copy>, hs: seq<Copy>): (t: Cpu)
    requires Whole(s)
    ensures Whole(t)
  {
    PutValue(CopyAll(RspPut(CopyAll(s, gs)), hs), MAGIC, 0x98)
  }

  lemma ExecFillHw(s: Cpu, hs: seq<Copy>)
    requires Whole(s)
    ensures Exec(FillHw(hs), s) == PutValue(CopyAll(s, hs), MAGIC, 0x98)
  {
    ExecCopies(hs, [Imm(RAX, MAGIC)] + ([Store(RDI, 0x98, RAX)] + []), s);
    ExecPutMagic(CopyAll(s, hs));
  }

  lemma PutMagicSteps(s: Cpu)
    requires Whole(s)
    ensures Do(Do(s, Imm(RAX, MAGIC)), Store(RDI, 0x98, RAX)) == PutValue(s, MAGIC, 0x98)
  {
  }

  lemma ExecPutMagic(s: Cpu)
    requires Whole(s)
    ensures Exec([Imm(RAX, MAGIC)] + ([Store(RDI, 0x98, RAX)] + []), s) == PutValue(s, MAGIC, 0x98)
  {
    ExecTwo(Imm(RAX, MAGIC), Store(RDI, 0x98, RAX), [], s);
    PutMagicSteps(s);
  }

  lemma ExecFillRsp(s: Cpu, hs: seq<Copy>)
    requires Whole(s)
    ensures Exec(FillRsp(hs), s) == Exec(FillHw(hs), RspPut(s))
  {
    ExecPutRsp(FillHw(hs), s);
  }

  lemma ExecPutRsp(rest: seq<Instr>, s: Cpu)
    requires Whole(s)
    ensures Exec([Lea(RAX, RSP, 0x90)] + ([Store(RDI, 0x78, RAX)] + rest), s) == Exec(rest, RspPut(s))
  {
    ExecTwo(Lea(RAX, RSP, 0x90), Store(RDI, 0x78, RAX), rest, s);
    PutRspSteps(s);
  }

  lemma PutRspSteps(s: Cpu)
    requires Whole(s)
    ensures Do(Do(s, Lea(RAX, RSP, 0x90)), Store(RDI, 0x78, RAX)) == RspPut(s)
  {
  }

  lemma ExecFill(s: Cpu, gs: seq<Copy>, hs: seq<Copy>)
    requires Whole(s)
    ensures Exec(FillFrame(gs, hs), s) == Filled(s, gs, hs)
  {
    ExecCopies(gs, FillRsp(hs), s);
    ExecFillRsp(CopyAll(s, gs), hs);
    ExecFillHw(RspPut(CopyAll(s, gs)), hs);
  }

  /** Slot `f` holds the spill at `sp` turned round, the computed rsp, the
      CPU's three words and the magic. */
  ghost predicate Stashed(m: Memory, sp: nat, m': Memory, f: nat)
  {
    && TurnedRound(m, sp, m', f)
    && HwCopied(m, sp, m', f)
    && Read(m', f + 0x78) == sp + 0x90 && Read(m', f + 0x98) == MAGIC
  }

  ghost predicate TurnedRound(m: Memory, sp: nat, m': Memory, f: nat)
  {
    forall i: nat :: i < 15 ==> Read(m', f + 8 * i) == Read(m, sp + 8 * (14 - i))
  }

  ghost predicate OutsideSame(m: Memory, m': Memory, f: nat)
  {
    forall a: nat :: a < f || f + STRIDE <= a ==> Read(m', a) == Read(m, a)
  }

  ghost predicate IsGpr(gs: seq<Copy>)
  {
    |gs| == 15 && CopiesOk(gs) && forall i: nat :: i < 15 ==> gs[i] == Copy(8 * (14 - i), 8 * i)
  }

  ghost predicate IsHw(hs: seq<Copy>)
  {
    hs == [Copy(0x78, 0x80), Copy(0x80, 0x88), Copy(0x88, 0x90)]
  }

  /** The fifteen general registers, in register order. */
  ghost predicate IsSpill(rs: seq<nat>)
  {
    |rs| == 15 && General(rs) && forall r :: 0 <= r < 15 ==> rs[r] == r
  }

  lemma Tables()
    ensures IsSpill(SPILL) && IsGpr(GprCopies()) && IsHw(HwCopies())
  {
    assert |SPILL| == 15;
  }

  lemma TurnedByCopies(m: Memory, sp: nat, m': Memory, f: nat, gs: seq<Copy>)
    requires IsGpr(gs) && Copied(m, sp, m', f, gs)
    ensures TurnedRound(m, sp, m', f)
  {
    forall i: nat | i < 15 ensures Read(m', f + 8 * i) == Read(m, sp + 8 * (14 - i)) {
      assert Read(m', f + gs[i].dst) == Read(m, sp + gs[i].src);
    }
  }

  lemma CopiedInside(m: Memory, m': Memory, f: nat, cs: seq<Copy>)
    requires CopiesOk(cs) && OthersSame(m, m', f, cs)
    ensures OutsideSame(m, m', f)
  {
    forall a: nat | a < f || f + STRIDE <= a ensures Read(m', a) == Read(m, a) {
      assert !Field(f, cs, a);
    }
  }

  lemma GprStage(s: Cpu, gs: seq<Copy>)
    requires Whole(s) && Apart(s.regs[RSP], s.regs[RDI]) && IsGpr(gs)
    ensures OnlyRax(s, CopyAll(s, gs)) && OutsideSame(s.mem, CopyAll(s, gs).mem, s.regs[RDI])
    ensures TurnedRound(s.mem, s.regs[RSP], CopyAll(s, gs).mem, s.regs[RDI])
  {
    CopySpec(s, gs);
    TurnedByCopies(s.mem, s.regs[RSP], CopyAll(s, gs).mem, s.regs[RDI], gs);
    CopiedInside(s.mem, CopyAll(s, gs).mem, s.regs[RDI], gs);
  }

  ghost predicate HwCopied(m: Memory, sp: nat, m': Memory, f: nat)
  {
    && Read(m', f + 0x80) == Read(m, sp + 0x78)
    && Read(m', f + 0x88) == Read(m, sp + 0x80)
    && Read(m', f + 0x90) == Read(m, sp + 0x88)
  }

  /** The fields below rip are as they were. */
  ghost predicate LowSame(m: Memory, m': Memory, f: nat)
  {
    forall a: nat :: f <= a < f + 0x80 ==> Read(m', a) == Read(m, a)
  }

  lemma HwByCopies(m: Memory, sp: nat, m': Memory, f: nat, hs: seq<Copy>)
    requires IsHw(hs) && Copied(m, sp, m', f, hs) && OthersSame(m, m', f, hs)
    ensures HwCopied(m, sp, m', f) && LowSame(m, m', f)
  {
    assert Read(m', f + hs[0].dst) == Read(m, sp + hs[0].src);
    assert Read(m', f + hs[1].dst) == Read(m, sp + hs[1].src);
    assert Read(m', f + hs[2].dst) == Read(m, sp + hs[2].src);
    forall a: nat | f <= a < f + 0x80 ensures Read(m', a) == Read(m, a) { assert !Field(f, hs, a); }
  }

  lemma HwStage(s: Cpu, hs: seq<Copy>)
    requires Whole(s) && Apart(s.regs[RSP], s.regs[RDI]) && IsHw(hs)
    ensures OnlyRax(s, CopyAll(s, hs)) && OutsideSame(s.mem, CopyAll(s, hs).mem, s.regs[RDI])
    ensures HwCopied(s.mem, s.regs[RSP], CopyAll(s, hs).mem, s.regs[RDI])
    ensures LowSame(s.mem, CopyAll(s, hs).mem, s.regs[RDI])
  {
    CopySpec(s, hs);
    HwByCopies(s.mem, s.regs[RSP], CopyAll(s, hs).mem, s.regs[RDI], hs);
    CopiedInside(s.mem, CopyAll(s, hs).mem, s.regs[RDI], hs);
  }

  lemma OnlyRaxRegs(s: Cpu, t: Cpu)
    requires OnlyRax(s, t)
    ensures forall r :: 0 <= r < REGS && r != RAX ==> t.regs[r] == s.regs[r]
  {
  }

  lemma FilledSpec(s: Cpu, gs: seq<Copy>, hs: seq<Copy>)
    requires Whole(s) && Apart(s.regs[RSP], s.regs[RDI]) && IsGpr(gs) && IsHw(hs)
    ensures OnlyRax(s, Filled(s, gs, hs))
    ensures OutsideSame(s.mem, Filled(s, gs, hs).mem, s.regs[RDI])
    ensures Stashed(s.mem, s.regs[RSP], Filled(s, gs, hs).mem, s.regs[RDI])
  {
    var g := CopyAll(s, gs);
    GprStage(s, gs);
    PutOnlyRax(g, g.regs[RSP] + 0x90, 0x78);
    OnlyRaxTrans(s, g, RspPut(g));
    FilledTail(s, g, hs);
  }

  lemma FilledTail(s: Cpu, g: Cpu, hs: seq<Copy>)
    requires Whole(s) && Apart(s.regs[RSP], s.regs[RDI]) && IsHw(hs) && OnlyRax(s, g) && OnlyRax(s, RspPut(g))
    requires OutsideSame(s.mem, g.mem, s.regs[RDI]) && TurnedRound(s.mem, s.regs[RSP], g.mem, s.regs[RDI])
    ensures var t := PutValue(CopyAll(RspPut(g), hs), MAGIC, 0x98);
            && OnlyRax(s, t) && OutsideSame(s.mem, t.mem, s.regs[RDI])
            && Stashed(s.mem, s.regs[RSP], t.mem, s.regs[RDI])
  {
    var p := RspPut(g);
    OnlyRaxRegs(s, g);
    OnlyRaxRegs(s, p);
    HwStage(p, hs);
    var h := CopyAll(p, hs);
    OnlyRaxTrans(s, p, h);
    OnlyRaxRegs(s, h);
    PutOnlyRax(h, MAGIC, 0x98);
    OnlyRaxTrans(s, h, PutValue(h, MAGIC, 0x98));
    FilledMemory(s.mem, s.regs[RSP], g.mem, p.mem, h.mem, PutValue(h, MAGIC, 0x98).mem, s.regs[RDI]);
  }

  lemma FilledMemory(m: Memory, sp: nat, mg: Memory, mp: Memory, mh: Memory, mt: Memory, f: nat)
    requires Apart(sp, f) && OutsideSame(m, mg, f) && TurnedRound(m, sp, mg, f) && mp == mg[f + 0x78 := sp + 0x90]
    requires OutsideSame(mp, mh, f) && HwCopied(mp, sp, mh, f) && LowSame(mp, mh, f) && mt == mh[f + 0x98 := MAGIC]
    ensures OutsideSame(m, mt, f) && Stashed(m, sp, mt, f)
  {
    forall i: nat | i < 15 ensures Read(mt, f + 8 * i) == Read(m, sp + 8 * (14 - i)) {
      assert Read(mh, f + 8 * i) == Read(mp, f + 8 * i) == Read(mg, f + 8 * i);
    }
    forall a: nat | a < f || f + STRIDE <= a ensures Read(mt, a) == Read(m, a) {
      assert Read(mt, a) == Read(mh, a) == Read(mp, a) == Read(mg, a);
    }
    assert Read(mh, f + 0x78) == Read(mp, f + 0x78) == sp + 0x90;
    assert Read(mp, sp + 0x78) == Read(mg, sp + 0x78) == Read(m, sp + 0x78);
    assert Read(mp, sp + 0x80) == Read(mg, sp + 0x80) == Read(m, sp + 0x80);
    assert Read(mp, sp + 0x88) == Read(mg, sp + 0x88) == Read(m, sp + 0x88);
  }

  // ------------------------------------------------------------- the branches

  /** At label 2 the spill area, rsp and everything outside the slot are as
      they were before the branches. */
  ghost predicate SkippedTo(s: Cpu, t: Cpu)
  {
    && Whole(s) && Whole(t) && t.regs[RSP] == s.regs[RSP] && t.mem == s.mem && t.g == s.g
    && t.rip == s.rip && t.cs == s.cs && t.ss == s.ss && t.rflags == s.rflags
  }

  ghost predicate StashedTo(s: Cpu, t: Cpu, f: nat)
  {
    && Whole(s) && Whole(t) && t.regs[RSP] == s.regs[RSP]
    && t.g == s.g.(switches := (s.g.switches + 1) % WORD_LIMIT)
    && OutsideSame(s.mem, t.mem, f) && Stashed(s.mem, s.regs[RSP], t.mem, f)
    && t.rip == s.rip && t.cs == s.cs && t.ss == s.ss && t.rflags == s.rflags
  }

  function SlotAddr(frames: nat, i: nat): nat
  {
    frames + i * STRIDE
  }

  /** rdi points at the slot rax names, and the yank is counted. */
  function AtSlot(frames: nat, s: Cpu): (t: Cpu)
    requires Whole(s)
    ensures Whole(t)
  {
    s.(g := s.g.(switches := (s.g.switches + 1) % WORD_LIMIT),
       regs := s.regs[RAX := s.regs[RAX] * STRIDE][RDI := SlotAddr(frames, s.regs[RAX])])
  }

  lemma ExecToSlot(frames: nat, fill: seq<Instr>, s: Cpu)
    requires Whole(s)
    ensures Exec(StashCode(frames, fill), s) == Exec(fill, AtSlot(frames, s))
  {
    var add := [AddReg(RDI, RAX)] + fill;
    var imm := [Imm(RDI, frames)] + add;
    ExecOne(IncSwitches, [Scale(RAX, STRIDE)] + imm, s);
    var a := Do(s, IncSwitches);
    ExecOne(Scale(RAX, STRIDE), imm, a);
    var b := Do(a, Scale(RAX, STRIDE));
    ExecOne(Imm(RDI, frames), add, b);
    var c := Do(b, Imm(RDI, frames));
    ExecOne(AddReg(RDI, RAX), fill, c);
    ToSlotSteps(frames, s);
  }

  lemma ToSlotSteps(frames: nat, s: Cpu)
    requires Whole(s)
    ensures Do(Do(Do(Do(s, IncSwitches), Scale(RAX, STRIDE)), Imm(RDI, frames)), AddReg(RDI, RAX)) == AtSlot(frames, s)
  {
    var t := Do(Do(Do(Do(s, IncSwitches), Scale(RAX, STRIDE)), Imm(RDI, frames)), AddReg(RDI, RAX));
    assert t.regs == AtSlot(frames, s).regs;
  }

  lemma StashSpec(frames: nat, gs: seq<Copy>, hs: seq<Copy>, s: Cpu)
    requires Whole(s) && IsGpr(gs) && IsHw(hs) && Apart(s.regs[RSP], SlotAddr(frames, s.regs[RAX]))
    ensures StashedTo(s, Exec(StashCode(frames, FillFrame(gs, hs)), s), SlotAddr(frames, s.regs[RAX]))
  {
    ExecToSlot(frames, FillFrame(gs, hs), s);
    var b := AtSlot(frames, s);
    ExecFill(b, gs, hs);
    FilledSpec(b, gs, hs);
    OnlyRaxRegs(b, Filled(b, gs, hs));
  }

  /** The stub's decision, on the bytes it reads. */
  predicate Yanks(g: Globals)
  {
    g.fence != 0 && g.current < MAX_TASKS && Bit(g.used, g.current)
  }

  lemma OccupiedStage(stash: seq<Instr>, rest: seq<Instr>, s: Cpu)
    requires Whole(s) && Straight(stash) && stash != []
    ensures var t := Do(s, LoadUsed(RCX)); var u := Exec(IfOccupied(stash) + rest, s);
            u == if Bit(s.g.used, s.regs[RAX]) then Exec(rest, Exec(stash, t)) else Exec(rest, t)
  {
    var skip := SkipIfBitClear(RCX, RAX, |stash|);
    assert Skips(Do(s, LoadUsed(RCX)), skip) == if Bit(s.g.used, s.regs[RAX]) then 0 else |stash|;
    ExecTest(LoadUsed(RCX), skip, stash, rest, s);
    ExecThen(stash, rest, Do(s, LoadUsed(RCX)));
  }

  lemma RangeStage(body: seq<Instr>, rest: seq<Instr>, s: Cpu)
    requires Whole(s) && body != []
    ensures var t := Do(s, LoadCurrent(RAX)); var u := Exec(IfInRange(body) + rest, s);
            u == if s.g.current < MAX_TASKS then Exec(body + rest, t) else Exec(rest, t)
  {
    var skip := SkipIfAtLeast(RAX, MAX_TASKS, |body|);
    assert Skips(Do(s, LoadCurrent(RAX)), skip) == if s.g.current < MAX_TASKS then 0 else |body|;
    ExecTest(LoadCurrent(RAX), skip, body, rest, s);
  }

  lemma FenceStage(body: seq<Instr>, finish: seq<Instr>, s: Cpu)
    requires Whole(s) && body != []
    ensures Exec(Guarded(body, finish), s) == if s.g.fence != 0 then Exec(body + finish, s) else Exec(finish, s)
  {
    ExecBranch(SkipIfFenceDown(|body|), body, finish, s);
  }

  /** The state both loads leave. */
  function Loaded(s: Cpu): (t: Cpu)
    requires Whole(s)
    ensures Whole(t)
  {
    s.(regs := s.regs[RAX := s.g.current][RCX := s.g.used])
  }

  lemma GuardedYank(stash: seq<Instr>, finish: seq<Instr>, s: Cpu)
    requires Whole(s) && Straight(stash) && stash != [] && Yanks(s.g)
    ensures Exec(Guarded(IfInRange(IfOccupied(stash)), finish), s) == Exec(finish, Exec(stash, Loaded(s)))
  {
    FenceStage(IfInRange(IfOccupied(stash)), finish, s);
    RangeStage(IfOccupied(stash), finish, s);
    var a := Do(s, LoadCurrent(RAX));
    OccupiedStage(stash, finish, a);
    assert Do(a, LoadUsed(RCX)) == Loaded(s);
  }

  lemma GuardedSkip(stash: seq<Instr>, finish: seq<Instr>, s: Cpu) returns (t: Cpu)
    requires Whole(s) && Straight(stash) && stash != [] && !Yanks(s.g)
    ensures Whole(t) && Exec(Guarded(IfInRange(IfOccupied(stash)), finish), s) == Exec(finish, t) && SkippedTo(s, t)
  {
    FenceStage(IfInRange(IfOccupied(stash)), finish, s);
    if s.g.fence == 0 { return s; }
    RangeStage(IfOccupied(stash), finish, s);
    var a := Do(s, LoadCurrent(RAX));
    if s.g.current >= MAX_TASKS { return a; }
    OccupiedStage(stash, finish, a);
    return Do(a, LoadUsed(RCX));
  }

  /** The three tests lead to label 2 with the slot filled exactly when the
      stub yanks, and with memory untouched otherwise. */
  lemma GuardedSpec(frames: nat, gs: seq<Copy>, hs: seq<Copy>, finish: seq<Instr>, s: Cpu) returns (t: Cpu)
    requires Whole(s) && IsGpr(gs) && IsHw(hs)
    requires s.g.current < MAX_TASKS ==> Apart(s.regs[RSP], SlotAddr(frames, s.g.current))
    ensures var stash := StashCode(frames, FillFrame(gs, hs));
            Whole(t) && Exec(Guarded(IfInRange(IfOccupied(stash)), finish), s) == Exec(finish, t)
    ensures if Yanks(s.g) then StashedTo(s, t, SlotAddr(frames, s.g.current)) else SkippedTo(s, t)
  {
    var stash := StashCode(frames, FillFrame(gs, hs));
    FillStraight(gs, hs);
    StashStraight(frames, FillFrame(gs, hs));
    if Yanks(s.g) {
      GuardedYank(stash, finish, s);
      StashSpec(frames, gs, hs, Loaded(s));
      t := Exec(stash, Loaded(s));
    } else {
      t := GuardedSkip(stash, finish, s);
    }
  }

  // -------------------------------------------------------------- the way out

  /** The state after the acknowledgement. */
  function Acknowledged(s: Cpu): (t: Cpu)
    requires Whole(s)
    ensures Whole(t)
  {
    s.(regs := s.regs[RAX := s.g.eoiBase],
       g := s.g.(eoiWrites := s.g.eoiWrites + if s.g.eoiBase == 0 then 0 else 1))
  }

  lemma AcknowledgeStep(s: Cpu)
    requires Whole(s)
    ensures var a := Do(s, LoadEoiBase(RAX)); Acknowledged(s) == if s.g.eoiBase == 0 then a else Do(a, WriteEoi)
  {
    assert s.g.(eoiWrites := s.g.eoiWrites) == s.g;
  }

  lemma ExecAcknowledge(rest: seq<Instr>, s: Cpu)
    requires Whole(s)
    ensures Exec([LoadEoiBase(RAX)] + ([SkipIfZero(RAX, 1)] + [WriteEoi]) + rest, s) == Exec(rest, Acknowledged(s))
  {
    assert Skips(Do(s, LoadEoiBase(RAX)), SkipIfZero(RAX, 1)) == if s.g.eoiBase == 0 then 1 else 0;
    ExecTest(LoadEoiBase(RAX), SkipIfZero(RAX, 1), [WriteEoi], rest, s);
    ExecOne(WriteEoi, rest, Do(s, LoadEoiBase(RAX)));
    AcknowledgeStep(s);
  }

  lemma ExecFinish(rs: seq<nat>, s: Cpu)
    requires Whole(s)
    ensures Exec(Finish(rs), s) == PopAll(Reversed(rs), Acknowledged(s))
  {
    ExecAcknowledge(Pops(Reversed(rs)) + [], s);
    ExecPops(Reversed(rs), [], Acknowledged(s));
  }

  /** Popping a surviving spill gives every general register back and leaves
      rsp where the CPU did. */
  lemma RestoresAll(rs: seq<nat>, s: Cpu, regs: seq<nat>)
    requires Whole(s) && |regs| == REGS && IsSpill(rs) && Spilled(s.mem, s.regs[RSP], rs, regs)
    ensures PopAll(Reversed(rs), s) == s.(regs := regs[RSP := s.regs[RSP] + SPILL_BYTES])
  {
    RefillRestores(rs, s, regs);
    var t := PopAll(Reversed(rs), s);
    forall r | 0 <= r < 15 ensures t.regs[r] == regs[r] { assert rs[r] == r; }
    assert t.regs == regs[RSP := s.regs[RSP] + SPILL_BYTES];
  }

  // ------------------------------------------------------- the whole interrupt

  /** One timer interrupt, from delivery to return. */
  function Interrupt(hw: HwFrame, code: seq<Instr>, s: Cpu): (t: Cpu)
    requires Whole(s) && s.regs[RSP] >= SPILL_ROOM
    ensures Whole(t)
  {
    Iretq(hw, Exec(code, Deliver(hw, s)))
  }

  /** Everything below the interrupted rsp that the interrupt may write is clear
      of the slot at `f`. */
  ghost predicate StackClear(hw: HwFrame, rsp: nat, f: nat)
  {
    rsp <= f || f + STRIDE <= AfterPush(hw, rsp) - SPILL_BYTES
  }

  lemma AfterPushBounds(hw: HwFrame, rsp: nat)
    ensures rsp - 56 < AfterPush(hw, rsp) <= rsp - 24
    ensures hw == FiveWords ==> AfterPush(hw, rsp) <= rsp - 40
    ensures hw == ThreeWords ==> AfterPush(hw, rsp) == rsp - 24
  {
  }

  /** The words the CPU pushed. */
  ghost predicate Delivered(hw: HwFrame, s: Cpu, m: Memory, sp: nat)
    requires Whole(s)
  {
    && Read(m, sp) == s.rip && Read(m, sp + 8) == s.cs && Read(m, sp + 16) == s.rflags
    && (hw == FiveWords ==> Read(m, sp + 24) == s.regs[RSP] && Read(m, sp + 32) == s.ss)
  }

  lemma DeliverSpec(hw: HwFrame, s: Cpu)
    requires Whole(s) && s.regs[RSP] >= SPILL_ROOM
    ensures var d, sp := Deliver(hw, s), AfterPush(hw, s.regs[RSP]);
            && d == s.(regs := s.regs[RSP := sp], mem := d.mem) && SPILL_BYTES <= sp
            && Delivered(hw, s, d.mem, sp) && Only(s.mem, d.mem, sp, s.regs[RSP])
  {
    AfterPushBounds(hw, s.regs[RSP]);
  }

  /** `iretq` on the words that were pushed resumes the interrupted code. */
  lemma IretqSpec(hw: HwFrame, s: Cpu, t: Cpu)
    requires Whole(s) && Whole(t) && s.regs[RSP] >= SPILL_ROOM
    requires var sp := AfterPush(hw, s.regs[RSP]);
             t.regs == s.regs[RSP := sp] && t.ss == s.ss && Delivered(hw, s, t.mem, sp)
    ensures Iretq(hw, t) == s.(mem := t.mem, g := t.g)
  {
    AfterPushBounds(hw, s.regs[RSP]);
    var sp := AfterPush(hw, s.regs[RSP]);
    assert t.regs[RSP := s.regs[RSP]] == s.regs;
  }

  /** Globals after an interrupt. */
  function Counted(g: Globals): Globals
  {
    g.(ticks := (g.ticks + 1) % WORD_LIMIT,
       switches := if Yanks(g) then (g.switches + 1) % WORD_LIMIT else g.switches,
       eoiWrites := g.eoiWrites + if g.eoiBase == 0 then 0 else 1)
  }

  /** The slot at `f` holds `x`, field by field. */
  ghost predicate Holds(m: Memory, f: nat, x: FullFrame)
  {
    && |x.gprs| == 15 && (forall i: nat :: i < 15 ==> Read(m, f + 8 * i) == x.gprs[i])
    && Read(m, f + 0x78) == x.rsp && Read(m, f + 0x80) == x.rip && Read(m, f + 0x88) == x.cs
    && Read(m, f + 0x90) == x.rflags && Read(m, f + 0x98) == x.magic
  }

  function Context(s: Cpu): Interrupted
    requires Whole(s)
  {
    Interrupted(s.regs[..15], s.regs[RSP], s.rip, s.cs, s.rflags)
  }

  /** `t` is `s` with the tick counted, memory changed only below rsp and in
      the slot `f`, and, if the stub yanks, that slot holding the interrupted
      context. */
  ghost predicate Invisible(hw: HwFrame, f: nat, s: Cpu, t: Cpu)
    requires Whole(s) && s.regs[RSP] >= SPILL_ROOM
  {
    && t == s.(mem := t.mem, g := Counted(s.g))
    && (forall a: nat :: Kept(hw, f, s, a) ==> Read(t.mem, a) == Read(s.mem, a))
    && (Yanks(s.g) ==> Holds(t.mem, f, Stash(hw, Context(s))))
  }

  /** Words an interrupt leaves alone. */
  predicate Kept(hw: HwFrame, f: nat, s: Cpu, a: nat)
    requires Whole(s)
  {
    && !Touches(a, AfterPush(hw, s.regs[RSP]) - SPILL_BYTES, s.regs[RSP])
    && (Yanks(s.g) ==> !Touches(a, f, f + STRIDE))
  }

  /** State when the guards are reached. */
  function Entered(rs: seq<nat>, d: Cpu): (q: Cpu)
    requires Whole(d)
    ensures Whole(q)
  {
    Do(PushAll(rs, d), IncTicks)
  }

  lemma EnteredSpec(rs: seq<nat>, d: Cpu)
    requires Whole(d) && IsSpill(rs) && d.regs[RSP] >= SPILL_BYTES
    ensures var q, sp := Entered(rs, d), d.regs[RSP] - SPILL_BYTES;
            && q == d.(regs := d.regs[RSP := sp], mem := q.mem, g := d.g.(ticks := (d.g.ticks + 1) % WORD_LIMIT))
            && Spilled(q.mem, sp, rs, d.regs) && Only(d.mem, q.mem, sp, d.regs[RSP])
  {
    PushesSpill(rs, d);
  }

  /** The spill is still there at label 2. */
  lemma SpillSurvives(rs: seq<nat>, m: Memory, m': Memory, sp: nat, f: nat, regs: seq<nat>)
    requires IsSpill(rs) && Spilled(m, sp, rs, regs) && OutsideSame(m, m', f) && Apart(sp, f)
    ensures Spilled(m', sp, rs, regs)
  {
  }

  lemma StubRun(frames: nat, rs: seq<nat>, gs: seq<Copy>, hs: seq<Copy>, d: Cpu) returns (t: Cpu)
    requires Whole(d) && IsSpill(rs) && IsGpr(gs) && IsHw(hs) && d.regs[RSP] >= SPILL_BYTES
    requires d.g.current < MAX_TASKS ==> Apart(d.regs[RSP] - SPILL_BYTES, SlotAddr(frames, d.g.current))
    ensures Whole(t) && Exec(StubCode(frames, rs, gs, hs), d) == PopAll(Reversed(rs), Acknowledged(t))
    ensures var q := Entered(rs, d);
            if Yanks(d.g) then StashedTo(q, t, SlotAddr(frames, d.g.current)) else SkippedTo(q, t)
  {
    var guarded := Guarded(IfInRange(IfOccupied(StashCode(frames, FillFrame(gs, hs)))), Finish(rs));
    ExecPushes(rs, [IncTicks] + guarded, d);
    ExecOne(IncTicks, guarded, PushAll(rs, d));
    EnteredSpec(rs, d);
    t := GuardedSpec(frames, gs, hs, Finish(rs), Entered(rs, d));
    ExecFinish(rs, t);
  }

  /** Memory at the end of the stub against memory at delivery. */
  ghost predicate MemoryAfter(rs: seq<nat>, d: Cpu, m: Memory, f: nat)
    requires Whole(d) && d.regs[RSP] >= SPILL_BYTES
  {
    var sp := d.regs[RSP] - SPILL_BYTES;
    && (forall a: nat :: (a < sp || d.regs[RSP] <= a) && (Yanks(d.g) ==> a < f || f + STRIDE <= a) ==> Read(m, a) == Read(d.mem, a))
    && (Yanks(d.g) ==> exists q :: Spilled(q, sp, rs, d.regs) && Only(d.mem, q, sp, d.regs[RSP]) && Stashed(q, sp, m, f))
  }

  lemma MemoryByStash(rs: seq<nat>, d: Cpu, q: Memory, m: Memory, f: nat)
    requires Whole(d) && d.regs[RSP] >= SPILL_BYTES
    requires var sp := d.regs[RSP] - SPILL_BYTES; Spilled(q, sp, rs, d.regs) && Only(d.mem, q, sp, d.regs[RSP])
    requires if Yanks(d.g) then OutsideSame(q, m, f) && Stashed(q, d.regs[RSP] - SPILL_BYTES, m, f) else m == q
    ensures MemoryAfter(rs, d, m, f)
  {
  }

  lemma SpillAtEnd(frames: nat, rs: seq<nat>, d: Cpu, t: Cpu)
    requires Whole(d) && IsSpill(rs) && d.regs[RSP] >= SPILL_BYTES
    requires d.g.current < MAX_TASKS ==> Apart(d.regs[RSP] - SPILL_BYTES, SlotAddr(frames, d.g.current))
    requires var q := Entered(rs, d);
             if Yanks(d.g) then StashedTo(q, t, SlotAddr(frames, d.g.current)) else SkippedTo(q, t)
    ensures t.regs[RSP] == d.regs[RSP] - SPILL_BYTES && Spilled(t.mem, t.regs[RSP], rs, d.regs)
    ensures MemoryAfter(rs, d, t.mem, SlotAddr(frames, d.g.current))
  {
    var q := Entered(rs, d);
    EnteredSpec(rs, d);
    if Yanks(d.g) { SpillSurvives(rs, q.mem, t.mem, q.regs[RSP], SlotAddr(frames, d.g.current), d.regs); }
    MemoryByStash(rs, d, q.mem, t.mem, SlotAddr(frames, d.g.current));
  }

  lemma CountsAtEnd(frames: nat, rs: seq<nat>, d: Cpu, t: Cpu)
    requires Whole(d) && IsSpill(rs) && d.regs[RSP] >= SPILL_BYTES
    requires var q := Entered(rs, d);
             if Yanks(d.g) then StashedTo(q, t, SlotAddr(frames, d.g.current)) else SkippedTo(q, t)
    ensures t.regs[RSP] == d.regs[RSP] - SPILL_BYTES
    ensures Acknowledged(t).(regs := d.regs[RSP := t.regs[RSP] + SPILL_BYTES]) == d.(mem := t.mem, g := Counted(d.g))
  {
    EnteredSpec(rs, d);
    assert d.regs[RSP := d.regs[RSP]] == d.regs;
  }

  lemma EndState(rs: seq<nat>, d: Cpu, t: Cpu)
    requires Whole(d) && Whole(t) && IsSpill(rs) && d.regs[RSP] >= SPILL_BYTES
    requires Spilled(t.mem, t.regs[RSP], rs, d.regs)
    requires Acknowledged(t).(regs := d.regs[RSP := t.regs[RSP] + SPILL_BYTES]) == d.(mem := t.mem, g := Counted(d.g))
    ensures PopAll(Reversed(rs), Acknowledged(t)) == d.(mem := t.mem, g := Counted(d.g))
  {
    RestoresAll(rs, Acknowledged(t), d.regs);
  }

  /** The stub gives every register back and counts what it did. */
  lemma StubSpec(frames: nat, rs: seq<nat>, gs: seq<Copy>, hs: seq<Copy>, d: Cpu)
    requires Whole(d) && IsSpill(rs) && IsGpr(gs) && IsHw(hs) && d.regs[RSP] >= SPILL_BYTES
    requires d.g.current < MAX_TASKS ==> Apart(d.regs[RSP] - SPILL_BYTES, SlotAddr(frames, d.g.current))
    ensures var u := Exec(StubCode(frames, rs, gs, hs), d);
            && u == d.(mem := u.mem, g := Counted(d.g))
            && MemoryAfter(rs, d, u.mem, SlotAddr(frames, d.g.current))
  {
    var t := StubRun(frames, rs, gs, hs, d);
    SpillAtEnd(frames, rs, d, t);
    CountsAtEnd(frames, rs, d, t);
    EndState(rs, d, t);
  }

  /** Field by field, the slot is the interrupted context. */
  lemma StashHolds(hw: HwFrame, s: Cpu, rs: seq<nat>, dm: Memory, q: Memory, m: Memory, f: nat)
    requires Whole(s) && s.regs[RSP] >= SPILL_ROOM && IsSpill(rs)
    requires var top := AfterPush(hw, s.regs[RSP]); var sp := top - SPILL_BYTES;
             && sp >= 0 && Delivered(hw, s, dm, top) && Spilled(q, sp, rs, s.regs[RSP := top])
             && Only(dm, q, sp, top) && Stashed(q, sp, m, f)
    ensures Holds(m, f, Stash(hw, Context(s)))
  {
    var top := AfterPush(hw, s.regs[RSP]);
    var sp := top - SPILL_BYTES;
    forall i: nat | i < 15 ensures Read(m, f + 8 * i) == s.regs[..15][i] {
      assert rs[i] == i && Read(q, sp + 8 * (14 - i)) == s.regs[RSP := top][rs[i]];
    }
    assert Read(q, top) == Read(dm, top) && Read(q, top + 8) == Read(dm, top + 8) && Read(q, top + 16) == Read(dm, top + 16);
  }

  /** `d` is `s` with an interrupt delivered. */
  ghost predicate JustDelivered(hw: HwFrame, s: Cpu, d: Cpu)
  {
    && Whole(s) && s.regs[RSP] >= SPILL_ROOM
    && var sp := AfterPush(hw, s.regs[RSP]);
       && SPILL_BYTES <= sp <= s.regs[RSP] && d == s.(regs := s.regs[RSP := sp], mem := d.mem)
       && Delivered(hw, s, d.mem, sp) && Only(s.mem, d.mem, sp, s.regs[RSP])
  }

  /** The CPU's words lie above the spill and clear of the slot. */
  lemma DeliveredStays(hw: HwFrame, rs: seq<nat>, s: Cpu, d: Cpu, m: Memory, f: nat)
    requires JustDelivered(hw, s, d) && MemoryAfter(rs, d, m, f) && (Yanks(s.g) ==> StackClear(hw, s.regs[RSP], f))
    ensures Delivered(hw, s, m, AfterPush(hw, s.regs[RSP]))
  {
    var sp := AfterPush(hw, s.regs[RSP]);
    AfterPushBounds(hw, s.regs[RSP]);
    assert Read(m, sp) == Read(d.mem, sp) && Read(m, sp + 8) == Read(d.mem, sp + 8) && Read(m, sp + 16) == Read(d.mem, sp + 16);
    if hw == FiveWords { assert Read(m, sp + 24) == Read(d.mem, sp + 24) && Read(m, sp + 32) == Read(d.mem, sp + 32); }
  }

  lemma KeptStays(hw: HwFrame, rs: seq<nat>, s: Cpu, d: Cpu, m: Memory, f: nat, a: nat)
    requires JustDelivered(hw, s, d) && MemoryAfter(rs, d, m, f) && Kept(hw, f, s, a)
    ensures Read(m, a) == Read(s.mem, a)
  {
    assert Read(m, a) == Read(d.mem, a);
  }

  lemma SlotHolds(hw: HwFrame, rs: seq<nat>, s: Cpu, d: Cpu, m: Memory, f: nat)
    requires JustDelivered(hw, s, d) && IsSpill(rs) && MemoryAfter(rs, d, m, f) && Yanks(s.g)
    ensures Holds(m, f, Stash(hw, Context(s)))
  {
    var sp := AfterPush(hw, s.regs[RSP]);
    var q :| Spilled(q, sp - SPILL_BYTES, rs, d.regs) && Only(d.mem, q, sp - SPILL_BYTES, sp) && Stashed(q, sp - SPILL_BYTES, m, f);
    StashHolds(hw, s, rs, d.mem, q, m, f);
  }

  /** A timer interrupt is invisible to the code it interrupts: under either
      hardware frame, all registers, rip, cs, ss and flags come back, the
      counters move by one tick, and the only memory written at or above rsp
      is the current slot, which then holds exactly the interrupted context. */
  lemma InterruptInvisible(hw: HwFrame, frames: nat, rs: seq<nat>, gs: seq<Copy>, hs: seq<Copy>, s: Cpu)
    requires Whole(s) && IsSpill(rs) && IsGpr(gs) && IsHw(hs) && s.regs[RSP] >= SPILL_ROOM
    requires s.g.current < MAX_TASKS ==> StackClear(hw, s.regs[RSP], SlotAddr(frames, s.g.current))
    ensures Invisible(hw, SlotAddr(frames, s.g.current), s, Interrupt(hw, StubCode(frames, rs, gs, hs), s))
  {
    var d, f := Deliver(hw, s), SlotAddr(frames, s.g.current);
    DeliverSpec(hw, s);
    AfterPushBounds(hw, s.regs[RSP]);
    StubSpec(frames, rs, gs, hs, d);
    FromDelivery(hw, rs, s, d, Exec(StubCode(frames, rs, gs, hs), d), f);
  }

  lemma FromDelivery(hw: HwFrame, rs: seq<nat>, s: Cpu, d: Cpu, u: Cpu, f: nat)
    requires JustDelivered(hw, s, d) && IsSpill(rs) && (Yanks(s.g) ==> StackClear(hw, s.regs[RSP], f))
    requires u == d.(mem := u.mem, g := Counted(d.g)) && MemoryAfter(rs, d, u.mem, f)
    ensures Invisible(hw, f, s, Iretq(hw, u))
  {
    DeliveredStays(hw, rs, s, d, u.mem, f);
    IretqSpec(hw, s, u);
    forall a: nat | Kept(hw, f, s, a) ensures Read(u.mem, a) == Read(s.mem, a) { KeptStays(hw, rs, s, d, u.mem, f, a); }
    if Yanks(s.g) { SlotHolds(hw, rs, s, d, u.mem, f); }
  }

  lemma StubTransparent(hw: HwFrame, frames: nat, s: Cpu)
    requires Whole(s) && s.regs[RSP] >= SPILL_ROOM
    requires s.g.current < MAX_TASKS ==> StackClear(hw, s.regs[RSP], SlotAddr(frames, s.g.current))
    ensures Invisible(hw, SlotAddr(frames, s.g.current), s, Interrupt(hw, TimerStub(frames), s))
  {
    Tables();
    InterruptInvisible(hw, frames, SPILL, GprCopies(), HwCopies(), s);
  }

  /** The 160 bytes at `f` by name: the fifteen registers of `s`, rsp if the CPU
      pushed three words, rip, cs, rflags and the integrity word. */
  predicate HeldByName(hw: HwFrame, m: Memory, f: nat, s: Cpu)
    requires Whole(s)
  {
    && Read(m, f) == s.regs[R15] && Read(m, f + 0x08) == s.regs[R14] && Read(m, f + 0x10) == s.regs[R13]
    && Read(m, f + 0x18) == s.regs[R12] && Read(m, f + 0x20) == s.regs[R11] && Read(m, f + 0x28) == s.regs[R10]
    && Read(m, f + 0x30) == s.regs[R9] && Read(m, f + 0x38) == s.regs[R8] && Read(m, f + 0x40) == s.regs[RDI]
    && Read(m, f + 0x48) == s.regs[RSI] && Read(m, f + 0x50) == s.regs[RBP] && Read(m, f + 0x58) == s.regs[RBX]
    && Read(m, f + 0x60) == s.regs[RDX] && Read(m, f + 0x68) == s.regs[RCX] && Read(m, f + 0x70) == s.regs[RAX]
    && (hw == ThreeWords ==> Read(m, f + 0x78) == s.regs[RSP])
    && Read(m, f + 0x80) == s.rip && Read(m, f + 0x88) == s.cs && Read(m, f + 0x90) == s.rflags
    && Read(m, f + 0x98) == 0x5052_4545_4D50_5434
  }

  lemma HoldsByName(hw: HwFrame, m: Memory, f: nat, s: Cpu)
    requires Whole(s) && s.regs[RSP] >= SPILL_ROOM && Holds(m, f, Stash(hw, Context(s)))
    ensures HeldByName(hw, m, f, s)
  {
    assert Read(m, f + 8 * 0) == s.regs[0] && Read(m, f + 8 * 1) == s.regs[1] && Read(m, f + 8 * 2) == s.regs[2];
    assert Read(m, f + 8 * 3) == s.regs[3] && Read(m, f + 8 * 4) == s.regs[4] && Read(m, f + 8 * 5) == s.regs[5];
    assert Read(m, f + 8 * 6) == s.regs[6] && Read(m, f + 8 * 7) == s.regs[7] && Read(m, f + 8 * 8) == s.regs[8];
    assert Read(m, f + 8 * 9) == s.regs[9] && Read(m, f + 8 * 10) == s.regs[10] && Read(m, f + 8 * 11) == s.regs[11];
    assert Read(m, f + 8 * 12) == s.regs[12] && Read(m, f + 8 * 13) == s.regs[13] && Read(m, f + 8 * 14) == s.regs[14];
  }
}
