/** A word-memory machine for the naked assembly: registers, memory, and the
    instructions the context switch and the interrupt stub use.

    Registers are numbered in spill order, so registers 0 to 14 read in order
    are the general-purpose block of a preempt frame. Memory maps addresses to
    words; every access of one routine is at the same offset modulo 8, so words
    never overlap. A compare and the branch that follows it are one
    instruction: the flags between them are never read again. */
module Machine {
  import opened Dyadic
  const R15: nat := 0
  const R14: nat := 1
  const R13: nat := 2
  const R12: nat := 3
  const R11: nat := 4
  const R10: nat := 5
  const R9: nat := 6
  const R8: nat := 7
  const RDI: nat := 8
  const RSI: nat := 9
  const RBP: nat := 10
  const RBX: nat := 11
  const RDX: nat := 12
  const RCX: nat := 13
  const RAX: nat := 14
  const RSP: nat := 15
  const REGS: nat := 16

  const WORD_LIMIT: nat := 0x1_0000_0000_0000_0000

  type Memory = map<nat, nat>

  function Read(m: Memory, a: nat): nat
  {
    if a in m then m[a] else 0
  }

  /** Some byte of the word at `a` lies in `[lo, hi)`. */
  predicate Touches(a: nat, lo: int, hi: int)
  {
    lo < a + 8 && a < hi
  }

  /** The byte-sized and counter statics the stub addresses by name. */
  datatype Globals = Globals(fence: nat, current: nat, used: nat, ticks: nat, switches: nat, eoiBase: nat, eoiWrites: nat)

  datatype Cpu = Cpu(regs: seq<nat>, rip: nat, cs: nat, ss: nat, rflags: nat, mem: Memory, g: Globals)

  datatype Instr =
    | Push(r: nat)
    | Pop(r: nat)
    | Load(r: nat, base: nat, off: nat)
    | Store(base: nat, off: nat, r: nat)
    | Lea(r: nat, base: nat, off: nat)
    | Imm(r: nat, value: nat)
    | Scale(r: nat, factor: nat)
    | AddReg(r: nat, other: nat)
    | IncTicks
    | IncSwitches
    | LoadCurrent(r: nat)
    | LoadUsed(r: nat)
    | LoadEoiBase(r: nat)
    | WriteEoi
    | SkipIfFenceDown(n: nat)
    | SkipIfAtLeast(r: nat, limit: nat, n: nat)
    | SkipIfBitClear(r: nat, bit: nat, n: nat)
    | SkipIfZero(r: nat, n: nat)

  predicate Whole(s: Cpu)
  {
    |s.regs| == REGS
  }

  /** Bit `i` of a register. */
  predicate Bit(v: nat, i: nat)
  {
    Shr(v, i) % 2 == 1
  }

  function Reg(s: Cpu, r: nat): nat
    requires Whole(s)
  {
    if r < REGS then s.regs[r] else 0
  }

  /** How many instructions a branch skips, 0 if it falls through. */
  function Skips(s: Cpu, i: Instr): nat
    requires Whole(s)
  {
    match i
    case SkipIfFenceDown(n) => if s.g.fence == 0 then n else 0
    case SkipIfAtLeast(r, limit, n) => if r < REGS && s.regs[r] >= limit then n else 0
    case SkipIfBitClear(r, bit, n) => if !Bit(Reg(s, r), Reg(s, bit)) then n else 0
    case SkipIfZero(r, n) => if r < REGS && s.regs[r] == 0 then n else 0
    case _ => 0
  }

  function SetReg(s: Cpu, r: nat, v: nat): (t: Cpu)
    requires Whole(s)
    ensures Whole(t)
  {
    if r < REGS then s.(regs := s.regs[r := v]) else s
  }

  /** `rsp - n`, wrapping at 64 bits. */
  function Down(a: nat, n: nat): nat
    requires n < WORD_LIMIT
  {
    if a >= n then a - n else a + WORD_LIMIT - n
  }

  function DoPush(s: Cpu, r: nat): (t: Cpu)
    requires Whole(s)
    ensures Whole(t)
  {
    var sp := Down(s.regs[RSP], 8);
    s.(regs := s.regs[RSP := sp], mem := s.mem[sp := Reg(s, r)])
  }

  function DoPop(s: Cpu, r: nat): (t: Cpu)
    requires Whole(s)
    ensures Whole(t)
  {
    SetReg(SetReg(s, RSP, s.regs[RSP] + 8), r, Read(s.mem, s.regs[RSP]))
  }

  /** One instruction that is not a branch. */
  function Do(s: Cpu, i: Instr): (t: Cpu)
    requires Whole(s)
    ensures Whole(t)
  {
    match i
    case Push(r) => DoPush(s, r)
    case Pop(r) => DoPop(s, r)
    case Load(r, base, off) => SetReg(s, r, Read(s.mem, Reg(s, base) + off))
    case Store(base, off, r) => s.(mem := s.mem[Reg(s, base) + off := Reg(s, r)])
    case Lea(r, base, off) => SetReg(s, r, Reg(s, base) + off)
    case Imm(r, v) => SetReg(s, r, v)
    case Scale(r, factor) => SetReg(s, r, Reg(s, r) * factor)
    case AddReg(r, other) => SetReg(s, r, Reg(s, r) + Reg(s, other))
    case IncTicks => s.(g := s.g.(ticks := (s.g.ticks + 1) % WORD_LIMIT))
    case IncSwitches => s.(g := s.g.(switches := (s.g.switches + 1) % WORD_LIMIT))
    case LoadCurrent(r) => SetReg(s, r, s.g.current)
    case LoadUsed(r) => SetReg(s, r, s.g.used)
    case LoadEoiBase(r) => SetReg(s, r, s.g.eoiBase)
    case WriteEoi => s.(g := s.g.(eoiWrites := s.g.eoiWrites + 1))
    case _ => s
  }

  predicate Branch(i: Instr)
  {
    i.SkipIfFenceDown? || i.SkipIfAtLeast? || i.SkipIfBitClear? || i.SkipIfZero?
  }

  function Exec(code: seq<Instr>, s: Cpu): (t: Cpu)
    requires Whole(s)
    ensures Whole(t)
    decreases |code|, s
  {
    if code == [] then s
    else
      var k := 1 + Skips(s, code[0]);
      Exec(if k <= |code| then code[k..] else [], Do(s, code[0]))
  }

  ghost predicate Straight(code: seq<Instr>)
  {
    forall i :: 0 <= i < |code| ==> !Branch(code[i])
  }

  /** Straight-line code composes. */
  lemma {:induction false} ExecThen(a: seq<Instr>, b: seq<Instr>, s: Cpu)
    requires Whole(s) && Straight(a)
    ensures Exec(a + b, s) == Exec(b, Exec(a, s))
    decreases |a|
  {
    if a == [] {
      assert a + b == b;
    } else {
      assert (a + b)[1..] == a[1..] + b && (a + b)[0] == a[0];
      ExecThen(a[1..], b, Do(s, a[0]));
    }
  }

  lemma ExecOne(i: Instr, rest: seq<Instr>, s: Cpu)
    requires Whole(s) && !Branch(i)
    ensures Exec([i] + rest, s) == Exec(rest, Do(s, i))
  {
    assert ([i] + rest)[1..] == rest;
  }

  /** A branch over exactly `body` either skips it or falls into it. */
  lemma ExecBranch(i: Instr, body: seq<Instr>, rest: seq<Instr>, s: Cpu)
    requires Whole(s) && Branch(i) && (Skips(s, i) == 0 || Skips(s, i) == |body|)
    ensures Exec([i] + body + rest, s) == if Skips(s, i) == 0 then Exec(body + rest, s) else Exec(rest, s)
  {
    var code := [i] + body + rest;
    assert code[0] == i;
    if Skips(s, i) == 0 { assert code[1..] == body + rest; } else { assert code[1 + |body|..] == rest; }
  }

  lemma ExecTwo(i: Instr, j: Instr, rest: seq<Instr>, s: Cpu)
    requires Whole(s) && !Branch(i) && !Branch(j)
    ensures Exec([i] + ([j] + rest), s) == Exec(rest, Do(Do(s, i), j))
  {
    ExecOne(i, [j] + rest, s);
    ExecOne(j, rest, Do(s, i));
  }

  /** A load, then a branch over exactly `body` on what it loaded. */
  lemma ExecTest(load: Instr, skip: Instr, body: seq<Instr>, rest: seq<Instr>, s: Cpu)
    requires Whole(s) && !Branch(load) && Branch(skip)
    requires var k := Skips(Do(s, load), skip); k == 0 || k == |body|
    ensures var t := Do(s, load); var u := Exec([load] + ([skip] + body) + rest, s);
            u == if Skips(t, skip) == 0 then Exec(body + rest, t) else Exec(rest, t)
  {
    assert [load] + ([skip] + body) + rest == [load] + ([skip] + body + rest);
    ExecOne(load, [skip] + body + rest, s);
    ExecBranch(skip, body, rest, Do(s, load));
  }

  // --------------------------------------------------------- spill and refill

  function Pushes(rs: seq<nat>): (code: seq<Instr>)
    ensures |code| == |rs| && forall i :: 0 <= i < |rs| ==> code[i] == Push(rs[i])
  {
    if rs == [] then [] else [Push(rs[0])] + Pushes(rs[1..])
  }

  function Pops(rs: seq<nat>): (code: seq<Instr>)
    ensures |code| == |rs| && forall i :: 0 <= i < |rs| ==> code[i] == Pop(rs[i])
  {
    if rs == [] then [] else [Pop(rs[0])] + Pops(rs[1..])
  }

  ghost predicate General(rs: seq<nat>)
  {
    && (forall i :: 0 <= i < |rs| ==> rs[i] < RSP)
    && (forall i, j :: 0 <= i < j < |rs| ==> rs[i] != rs[j])
  }

  /** The words at `sp` are the registers `rs` of `regs`, last pushed first. */
  ghost predicate Spilled(m: Memory, sp: nat, rs: seq<nat>, regs: seq<nat>)
  {
    forall i :: 0 <= i < |rs| && rs[i] < |regs| ==> Read(m, sp + 8 * (|rs| - 1 - i)) == regs[rs[i]]
  }

  /** `m'` differs from `m` only in `[lo, hi)`. */
  ghost predicate Only(m: Memory, m': Memory, lo: nat, hi: nat)
  {
    forall a: nat :: a < lo || hi <= a ==> Read(m', a) == Read(m, a)
  }

  function PushAll(rs: seq<nat>, s: Cpu): (t: Cpu)
    requires Whole(s)
    ensures Whole(t)
  {
    if rs == [] then s else PushAll(rs[1..], DoPush(s, rs[0]))
  }

  function PopAll(rs: seq<nat>, s: Cpu): (t: Cpu)
    requires Whole(s)
    ensures Whole(t)
  {
    if rs == [] then s else PopAll(rs[1..], DoPop(s, rs[0]))
  }

  lemma {:induction false} ExecPushes(rs: seq<nat>, rest: seq<Instr>, s: Cpu)
    requires Whole(s)
    ensures Exec(Pushes(rs) + rest, s) == Exec(rest, PushAll(rs, s))
    decreases |rs|
  {
    if rs == [] {
      assert Pushes(rs) + rest == rest;
    } else {
      assert (Pushes(rs) + rest)[1..] == Pushes(rs[1..]) + rest;
      ExecPushes(rs[1..], rest, DoPush(s, rs[0]));
    }
  }

  lemma {:induction false} ExecPops(rs: seq<nat>, rest: seq<Instr>, s: Cpu)
    requires Whole(s)
    ensures Exec(Pops(rs) + rest, s) == Exec(rest, PopAll(rs, s))
    decreases |rs|
  {
    if rs == [] {
      assert Pops(rs) + rest == rest;
    } else {
      assert (Pops(rs) + rest)[1..] == Pops(rs[1..]) + rest;
      ExecPops(rs[1..], rest, DoPop(s, rs[0]));
    }
  }

  lemma SpilledCons(m: Memory, sp: nat, rs: seq<nat>, regs: seq<nat>)
    requires rs != [] && Spilled(m, sp, rs[1..], regs)
    requires rs[0] < |regs| ==> Read(m, sp + 8 * (|rs| - 1)) == regs[rs[0]]
    ensures Spilled(m, sp, rs, regs)
  {
    forall i | 0 <= i < |rs| && rs[i] < |regs| ensures Read(m, sp + 8 * (|rs| - 1 - i)) == regs[rs[i]] {
      if i > 0 { assert rs[1..][i - 1] == rs[i]; }
    }
  }

  lemma GeneralTail(rs: seq<nat>)
    requires General(rs) && rs != []
    ensures General(rs[1..]) && rs[0] !in rs[1..] && rs[0] < RSP
  {
  }

  /** `t` is `s` with `rs` pushed: stored in order just below rsp, and no other
      word changed. */
  ghost predicate Pushed(rs: seq<nat>, s: Cpu, t: Cpu)
  {
    && Whole(s) && s.regs[RSP] >= 8 * |rs|
    && var sp := s.regs[RSP] - 8 * |rs|;
       && t == s.(regs := s.regs[RSP := sp], mem := t.mem)
       && Spilled(t.mem, sp, rs, s.regs) && Only(s.mem, t.mem, sp, s.regs[RSP])
  }

  lemma {:induction false} PushesSpill(rs: seq<nat>, s: Cpu)
    requires Whole(s) && General(rs) && s.regs[RSP] >= 8 * |rs|
    ensures Pushed(rs, s, PushAll(rs, s))
    decreases |rs|
  {
    if rs != [] {
      GeneralTail(rs);
      PushesSpill(rs[1..], DoPush(s, rs[0]));
      PushStep(rs, s, PushAll(rs[1..], DoPush(s, rs[0])));
    } else {
      assert s.regs[RSP := s.regs[RSP]] == s.regs;
    }
  }

  lemma PushStep(rs: seq<nat>, s: Cpu, t: Cpu)
    requires Whole(s) && General(rs) && rs != [] && s.regs[RSP] >= 8 * |rs| && Pushed(rs[1..], DoPush(s, rs[0]), t)
    ensures Pushed(rs, s, t)
  {
    var u, sp := DoPush(s, rs[0]), s.regs[RSP] - 8 * |rs|;
    GeneralTail(rs);
    assert u.regs[RSP := sp] == s.regs[RSP := sp];
    SpilledSame(t.mem, sp, rs[1..], u.regs, s.regs);
    assert Read(t.mem, s.regs[RSP] - 8) == Read(u.mem, s.regs[RSP] - 8) == s.regs[rs[0]];
    SpilledCons(t.mem, sp, rs, s.regs);
  }

  lemma SpilledSame(m: Memory, sp: nat, rs: seq<nat>, regs: seq<nat>, regs': seq<nat>)
    requires General(rs) && |regs| == |regs'| == REGS && Spilled(m, sp, rs, regs)
    requires forall r :: 0 <= r < RSP ==> regs[r] == regs'[r]
    ensures Spilled(m, sp, rs, regs')
  {
  }

  /** Register `rs[i]` holds the `i`-th word from `sp`. */
  ghost predicate Refilled(m: Memory, sp: nat, rs: seq<nat>, regs: seq<nat>)
  {
    forall i :: 0 <= i < |rs| && rs[i] < |regs| ==> regs[rs[i]] == Read(m, sp + 8 * i)
  }

  /** Registers outside `rs`, rsp apart, are as they were. */
  ghost predicate Untouched(rs: seq<nat>, before: seq<nat>, after: seq<nat>)
  {
    |before| == |after| == REGS && forall r :: 0 <= r < RSP && r !in rs ==> after[r] == before[r]
  }

  /** Popping registers loads them from rsp upward. */
  lemma {:induction false} PopsRefill(rs: seq<nat>, s: Cpu)
    requires Whole(s) && General(rs)
    ensures var t := PopAll(rs, s);
            && t == s.(regs := t.regs) && t.regs[RSP] == s.regs[RSP] + 8 * |rs|
            && Refilled(s.mem, s.regs[RSP], rs, t.regs) && Untouched(rs, s.regs, t.regs)
    decreases |rs|
  {
    if rs != [] {
      var u := DoPop(s, rs[0]);
      GeneralTail(rs);
      PopsRefill(rs[1..], u);
      RefilledCons(s.mem, s.regs[RSP], rs, u.regs, PopAll(rs, s).regs);
    }
  }

  lemma RefilledCons(m: Memory, sp: nat, rs: seq<nat>, mid: seq<nat>, after: seq<nat>)
    requires General(rs) && rs != [] && |mid| == REGS && mid[rs[0]] == Read(m, sp)
    requires Refilled(m, sp + 8, rs[1..], after) && Untouched(rs[1..], mid, after)
    ensures Refilled(m, sp, rs, after)
  {
    forall i | 0 <= i < |rs| && rs[i] < |after| ensures after[rs[i]] == Read(m, sp + 8 * i) {
      if i > 0 { assert rs[1..][i - 1] == rs[i]; } else { assert rs[0] !in rs[1..]; }
    }
  }

  function Reversed(rs: seq<nat>): (r: seq<nat>)
    ensures |r| == |rs| && forall i :: 0 <= i < |rs| ==> r[i] == rs[|rs| - 1 - i]
  {
    if rs == [] then [] else Reversed(rs[1..]) + [rs[0]]
  }

  lemma ReversedGeneral(rs: seq<nat>)
    requires General(rs)
    ensures General(Reversed(rs))
  {
  }

  /** Whatever ran in between, popping in reverse order a block that still
      holds a spill brings the spilled registers back. */
  lemma RefillRestores(rs: seq<nat>, s: Cpu, regs: seq<nat>)
    requires Whole(s) && General(rs) && |regs| == REGS && Spilled(s.mem, s.regs[RSP], rs, regs)
    ensures var t := PopAll(Reversed(rs), s);
            && t == s.(regs := t.regs) && t.regs[RSP] == s.regs[RSP] + 8 * |rs|
            && (forall i :: 0 <= i < |rs| ==> t.regs[rs[i]] == regs[rs[i]])
            && Untouched(rs, s.regs, t.regs)
  {
    ReversedGeneral(rs);
    PopsRefill(Reversed(rs), s);
    SpillMatches(rs, s.mem, s.regs[RSP], regs, PopAll(Reversed(rs), s).regs);
    forall r ensures r in rs <==> r in Reversed(rs) { ReversedMembers(rs, r); }
  }

  lemma SpillMatches(rs: seq<nat>, m: Memory, sp: nat, regs: seq<nat>, after: seq<nat>)
    requires General(rs) && |regs| == |after| == REGS
    requires Spilled(m, sp, rs, regs) && Refilled(m, sp, Reversed(rs), after)
    ensures forall i :: 0 <= i < |rs| ==> after[rs[i]] == regs[rs[i]]
  {
    forall i | 0 <= i < |rs| ensures after[rs[i]] == regs[rs[i]] {
      assert Reversed(rs)[|rs| - 1 - i] == rs[i];
    }
  }

  lemma ReversedMembers(rs: seq<nat>, r: nat)
    ensures r in rs <==> r in Reversed(rs)
  {
    if r in rs {
      var i :| 0 <= i < |rs| && rs[i] == r;
      assert Reversed(rs)[|rs| - 1 - i] == r;
    }
  }
}
