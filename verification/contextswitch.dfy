/** The cooperative switch and the bootstrap frame, instruction by
    instruction. */
module ContextSwitch {
  import opened Machine

  /** The callee-saved registers, in push order. */
  const CALLEE: seq<nat> := [RBP, RBX, R12, R13, R14, R15]

  /** `context_switch` up to its final `ret`, saving `rs`. */
  function SwitchCode(rs: seq<nat>): seq<Instr>
  {
    Pushes(rs) + ([Store(RDI, 0, RSP)] + ([Load(RSP, RSI, 0)] + (Pops(Reversed(rs)) + [])))
  }

  function Ret(s: Cpu): (t: Cpu)
    requires Whole(s)
    ensures Whole(t)
  {
    s.(rip := Read(s.mem, s.regs[RSP]), regs := s.regs[RSP := s.regs[RSP] + 8])
  }

  function Switch(s: Cpu): (t: Cpu)
    requires Whole(s)
    ensures Whole(t)
  {
    Ret(Exec(SwitchCode(CALLEE), s))
  }

  /** What a suspended side gets back: its callee-saved registers, its rsp and
      the address it returns to. */
  datatype Snapshot = Snapshot(regs: seq<nat>, rsp: nat, ret: nat)

  const SAVED: nat := 48
  const FRAME: nat := 56

  /** Context cell `ctx` and the stack below `n.rsp` hold `n`. */
  ghost predicate Suspended(m: Memory, ctx: nat, n: Snapshot)
  {
    && |n.regs| == REGS && n.rsp == Read(m, ctx) + FRAME
    && Spilled(m, Read(m, ctx), CALLEE, n.regs) && Read(m, Read(m, ctx) + SAVED) == n.ret
  }

  /** The six registers a callee must preserve agree: section 3.2.1 of the
      System V AMD64 psABI. */
  predicate SamePreserved(a: seq<nat>, b: seq<nat>)
    requires |a| == |b| == REGS
  {
    && a[RBX] == b[RBX] && a[RBP] == b[RBP]
    && a[R12] == b[R12] && a[R13] == b[R13] && a[R14] == b[R14] && a[R15] == b[R15]
  }

  lemma PreservedAreSaved(a: seq<nat>, b: seq<nat>)
    requires |a| == |b| == REGS && forall i :: 0 <= i < |CALLEE| ==> a[CALLEE[i]] == b[CALLEE[i]]
    ensures SamePreserved(a, b)
  {
    assert a[CALLEE[0]] == b[CALLEE[0]] && a[CALLEE[1]] == b[CALLEE[1]] && a[CALLEE[2]] == b[CALLEE[2]];
    assert a[CALLEE[3]] == b[CALLEE[3]] && a[CALLEE[4]] == b[CALLEE[4]] && a[CALLEE[5]] == b[CALLEE[5]];
  }

  /** Running side `s` is exactly where `n` left off. */
  ghost predicate Resumed(s: Cpu, n: Snapshot)
  {
    && Whole(s) && |n.regs| == REGS && s.rip == n.ret && s.regs[RSP] == n.rsp && SamePreserved(s.regs, n.regs)
  }

  /** A suspended side's frame by name, from the address its context cell holds
      upward: the layout the first frame of a task is planted in. */
  lemma SuspendedByName(m: Memory, ctx: nat, n: Snapshot)
    requires Suspended(m, ctx, n)
    ensures var sp := Read(m, ctx);
            && Read(m, sp) == n.regs[R15] && Read(m, sp + 0x08) == n.regs[R14] && Read(m, sp + 0x10) == n.regs[R13]
            && Read(m, sp + 0x18) == n.regs[R12] && Read(m, sp + 0x20) == n.regs[RBX] && Read(m, sp + 0x28) == n.regs[RBP]
            && Read(m, sp + 0x30) == n.ret && n.rsp == sp + 0x38
  {
    var sp := Read(m, ctx);
    assert Read(m, sp + 8 * (|CALLEE| - 1 - 5)) == n.regs[CALLEE[5]];
    assert Read(m, sp + 8 * (|CALLEE| - 1 - 4)) == n.regs[CALLEE[4]];
    assert Read(m, sp + 8 * (|CALLEE| - 1 - 3)) == n.regs[CALLEE[3]];
    assert Read(m, sp + 8 * (|CALLEE| - 1 - 2)) == n.regs[CALLEE[2]];
    assert Read(m, sp + 8 * (|CALLEE| - 1 - 1)) == n.regs[CALLEE[1]];
    assert Read(m, sp + 8 * (|CALLEE| - 1 - 0)) == n.regs[CALLEE[0]];
  }

  /** What the side calling the switch would want back. */
  function Calling(s: Cpu): Snapshot
    requires Whole(s)
  {
    Snapshot(s.regs, s.regs[RSP] + 8, Read(s.mem, s.regs[RSP]))
  }

  /** The words a switch writes to: its own frame and the old context cell. */
  predicate Writes(s: Cpu, a: nat)
    requires Whole(s)
  {
    Touches(a, s.regs[RDI], s.regs[RDI] + 8) || Touches(a, s.regs[RSP] - SAVED, s.regs[RSP])
  }

  /** The old context cell lies clear of the frame and the return address. */
  predicate CellClear(s: Cpu)
    requires Whole(s)
  {
    !Touches(s.regs[RDI], s.regs[RSP] - SAVED, s.regs[RSP] + 8)
  }

  lemma CalleeGeneral()
    ensures General(CALLEE) && RDI !in CALLEE && RSI !in CALLEE
  {
  }

  /** A suspension survives every change outside its cell and its frame. */
  lemma SuspendedFrame(m: Memory, m': Memory, ctx: nat, n: Snapshot)
    requires Suspended(m, ctx, n) && Read(m', ctx) == Read(m, ctx)
    requires forall a: nat :: n.rsp <= a + FRAME && a + 8 <= n.rsp ==> Read(m', a) == Read(m, a)
    ensures Suspended(m', ctx, n)
  {
  }

  /** `q` is `s` with its registers and rsp saved behind the old context. */
  ghost predicate Saved(s: Cpu, q: Cpu)
  {
    && Whole(s) && s.regs[RSP] >= SAVED
    && q == s.(regs := s.regs[RSP := s.regs[RSP] - SAVED], mem := q.mem)
    && Suspended(q.mem, s.regs[RDI], Calling(s)) && Unwritten(s, q.mem)
  }

  ghost predicate Unwritten(s: Cpu, m: Memory)
    requires Whole(s)
  {
    forall a: nat :: !Writes(s, a) ==> Read(m, a) == Read(s.mem, a)
  }

  lemma SavedMemory(m: Memory, sp: nat, ctx: nat, regs: seq<nat>)
    requires Spilled(m, sp, CALLEE, regs) && !(sp <= ctx < sp + FRAME)
    ensures Spilled(m[ctx := sp], sp, CALLEE, regs) && Read(m[ctx := sp], ctx) == sp
    ensures Read(m[ctx := sp], sp + SAVED) == Read(m, sp + SAVED)
  {
  }

  /** The first half of the switch. */
  lemma SaveHalf(s: Cpu)
    requires Whole(s) && s.regs[RSP] >= SAVED && CellClear(s)
    ensures Saved(s, Do(PushAll(CALLEE, s), Store(RDI, 0, RSP)))
  {
    CalleeGeneral();
    PushesSpill(CALLEE, s);
    SavedMemory(PushAll(CALLEE, s).mem, s.regs[RSP] - SAVED, s.regs[RDI], s.regs);
  }

  /** The second half: whatever the new context holds comes back. */
  lemma LoadHalf(s: Cpu, n: Snapshot)
    requires Whole(s) && Suspended(s.mem, s.regs[RSI], n)
    ensures var t := Ret(PopAll(Reversed(CALLEE), Do(s, Load(RSP, RSI, 0))));
            && Resumed(t, n) && t.mem == s.mem && t.g == s.g
            && forall r :: 0 <= r < RSP && r !in CALLEE ==> t.regs[r] == s.regs[r]
  {
    CalleeGeneral();
    var l := Do(s, Load(RSP, RSI, 0));
    RefillRestores(CALLEE, l, n.regs);
    PreservedAreSaved(Ret(PopAll(Reversed(CALLEE), l)).regs, n.regs);
  }

  lemma SwitchSteps(rs: seq<nat>, s: Cpu)
    requires Whole(s)
    ensures Exec(SwitchCode(rs), s) == PopAll(Reversed(rs), Do(Do(PushAll(rs, s), Store(RDI, 0, RSP)), Load(RSP, RSI, 0)))
  {
    var pops := Pops(Reversed(rs)) + [];
    ExecPushes(rs, [Store(RDI, 0, RSP)] + ([Load(RSP, RSI, 0)] + pops), s);
    ExecSwap(PushAll(rs, s), pops);
    ExecPops(Reversed(rs), [], Do(Do(PushAll(rs, s), Store(RDI, 0, RSP)), Load(RSP, RSI, 0)));
  }

  lemma ExecSwap(p: Cpu, pops: seq<Instr>)
    requires Whole(p)
    ensures Exec([Store(RDI, 0, RSP)] + ([Load(RSP, RSI, 0)] + pops), p)
         == Exec(pops, Do(Do(p, Store(RDI, 0, RSP)), Load(RSP, RSI, 0)))
  {
    ExecTwo(Store(RDI, 0, RSP), Load(RSP, RSI, 0), pops, p);
  }

  /** The other side's suspension survives the save. */
  lemma SaveSpares(s: Cpu, q: Cpu, n: Snapshot)
    requires Saved(s, q) && Suspended(s.mem, s.regs[RSI], n) && !Writes(s, s.regs[RSI])
    requires forall a: nat :: n.rsp <= a + FRAME && a + 8 <= n.rsp ==> !Writes(s, a)
    ensures Suspended(q.mem, s.regs[RSI], n)
  {
    SuspendedFrame(s.mem, q.mem, s.regs[RSI], n);
  }

  /** One switch: the new side resumes exactly where it was suspended, the old
      side is suspended exactly where it is, and no other memory changes. */
  lemma SwitchSpec(s: Cpu, n: Snapshot)
    requires Whole(s) && s.regs[RSP] >= SAVED && CellClear(s) && Suspended(s.mem, s.regs[RSI], n)
    requires !Writes(s, s.regs[RSI]) && forall a: nat :: n.rsp <= a + FRAME && a + 8 <= n.rsp ==> !Writes(s, a)
    ensures var t := Switch(s);
            && Resumed(t, n) && Suspended(t.mem, s.regs[RDI], Calling(s)) && t.g == s.g && Unwritten(s, t.mem)
            && (forall r :: 0 <= r < RSP && r !in CALLEE ==> t.regs[r] == s.regs[r])
  {
    SwitchSteps(CALLEE, s);
    SaveHalf(s);
    var q := Do(PushAll(CALLEE, s), Store(RDI, 0, RSP));
    SaveSpares(s, q, n);
    LoadHalf(q, n);
  }

  // ------------------------------------------------------------ many coroutines

  /** A side of the switch: its context cell and the stack it owns. */
  datatype Side = Side(ctx: nat, lo: nat, hi: nat)

  /** The word at `a` lies on the side's stack. */
  predicate OnStack(d: Side, a: nat)
  {
    d.lo <= a && a + 8 <= d.hi
  }

  /** `a` is on the side's stack or is its context cell. */
  predicate Owns(d: Side, a: nat)
  {
    OnStack(d, a) || a == d.ctx
  }

  /** Stacks are disjoint and context cells lie outside them, all apart. */
  ghost predicate Layout(sides: seq<Side>)
  {
    && (forall i, j :: 0 <= i < |sides| && 0 <= j < |sides| && i != j ==>
          sides[i].hi <= sides[j].lo || sides[j].hi <= sides[i].lo)
    && (forall i, j :: 0 <= i < |sides| && 0 <= j < |sides| ==> !Touches(sides[j].ctx, sides[i].lo, sides[i].hi))
    && (forall i, j :: 0 <= i < |sides| && 0 <= j < |sides| && i != j ==>
          !Touches(sides[j].ctx, sides[i].ctx, sides[i].ctx + 8))
  }

  /** The machine, the running side, and what each suspended side must get
      back. */
  datatype System = System(cpu: Cpu, current: nat, owed: seq<Snapshot>)

  datatype Action =
    | Compute(cpu: Cpu)
    | SwitchTo(side: nat)

  /** The running side computes, changing anything but the other sides' stacks
      and context cells, or calls the switch with room for the frame. */
  ghost predicate Allowed(sides: seq<Side>, y: System, act: Action)
  {
    && y.current < |sides| && Whole(y.cpu)
    && match act
       case Compute(c) =>
         Whole(c) && forall k, a: nat :: 0 <= k < |sides| && k != y.current && Owns(sides[k], a) ==>
           Read(c.mem, a) == Read(y.cpu.mem, a)
       case SwitchTo(j) =>
         && j < |sides| && j != y.current
         && y.cpu.regs[RDI] == sides[y.current].ctx && y.cpu.regs[RSI] == sides[j].ctx
         && sides[y.current].lo + SAVED <= y.cpu.regs[RSP] && y.cpu.regs[RSP] + 8 <= sides[y.current].hi
  }

  function Next(y: System, act: Action): System
    requires Whole(y.cpu) && y.current < |y.owed|
  {
    match act
    case Compute(c) => y.(cpu := c)
    case SwitchTo(j) => System(Switch(y.cpu), j, y.owed[y.current := Calling(y.cpu)])
  }

  /** Every suspended side's frame is intact on its own stack. */
  ghost predicate Intact(sides: seq<Side>, y: System)
  {
    && Whole(y.cpu) && |y.owed| == |sides| && y.current < |sides|
    && forall k :: 0 <= k < |sides| && k != y.current ==> Parked(sides[k], y.cpu.mem, y.owed[k])
  }

  ghost predicate Parked(d: Side, m: Memory, n: Snapshot)
  {
    Suspended(m, d.ctx, n) && d.lo + FRAME <= n.rsp <= d.hi
  }

  lemma ParkedStays(sides: seq<Side>, k: nat, m: Memory, m': Memory, n: Snapshot)
    requires Layout(sides) && k < |sides| && Parked(sides[k], m, n) && Read(m', sides[k].ctx) == Read(m, sides[k].ctx)
    requires forall a: nat :: OnStack(sides[k], a) ==> Read(m', a) == Read(m, a)
    ensures Parked(sides[k], m', n)
  {
    SuspendedFrame(m, m', sides[k].ctx, n);
  }

  lemma ComputeIntact(sides: seq<Side>, y: System, act: Action)
    requires Layout(sides) && Intact(sides, y) && act.Compute? && Allowed(sides, y, act)
    ensures Intact(sides, Next(y, act))
  {
    var i := y.current;
    forall k | 0 <= k < |sides| && k != i ensures Parked(sides[k], act.cpu.mem, y.owed[k]) {
      assert Owns(sides[k], sides[k].ctx);
      forall a: nat | OnStack(sides[k], a) ensures Owns(sides[k], a) {}
      ParkedStays(sides, k, y.cpu.mem, act.cpu.mem, y.owed[k]);
    }
  }

  lemma SwitchKeepsClear(sides: seq<Side>, y: System, act: Action, k: nat)
    requires Layout(sides) && Intact(sides, y) && act.SwitchTo? && Allowed(sides, y, act)
    requires k < |sides| && k != y.current
    ensures !Writes(y.cpu, sides[k].ctx) && forall a: nat :: OnStack(sides[k], a) ==> !Writes(y.cpu, a)
  {
    var d := sides[y.current];
    assert !Touches(sides[k].ctx, d.lo, d.hi) && !Touches(d.ctx, sides[k].lo, sides[k].hi);
    assert d.hi <= sides[k].lo || sides[k].hi <= d.lo;
  }

  /** A switch resumes exactly the side it names and keeps all the others. */
  lemma SwitchIntact(sides: seq<Side>, y: System, act: Action)
    requires Layout(sides) && Intact(sides, y) && act.SwitchTo? && Allowed(sides, y, act)
    ensures Intact(sides, Next(y, act)) && Resumed(Next(y, act).cpu, y.owed[act.side])
  {
    var i, j, s := y.current, act.side, y.cpu;
    var n, d := y.owed[j], sides[i];
    SwitchKeepsClear(sides, y, act, j);
    assert !Touches(d.ctx, d.lo, d.hi);
    SwitchSpec(s, n);
    var t := Switch(s);
    forall k | 0 <= k < |sides| && k != j ensures Parked(sides[k], t.mem, Next(y, act).owed[k]) {
      if k != i {
        SwitchKeepsClear(sides, y, act, k);
        ParkedStays(sides, k, s.mem, t.mem, y.owed[k]);
      }
    }
  }

  function RunAll(y: System, acts: seq<Action>): System
    requires Whole(y.cpu) && y.current < |y.owed|
    decreases |acts|
  {
    if acts == [] then y
    else
      var next := Next(y, acts[0]);
      if Whole(next.cpu) && next.current < |next.owed| then RunAll(next, acts[1..]) else next
  }

  ghost predicate AllAllowed(sides: seq<Side>, y: System, acts: seq<Action>)
    requires Whole(y.cpu) && y.current < |y.owed|
    decreases |acts|
  {
    acts == [] ||
    (&& Allowed(sides, y, acts[0])
     && var next := Next(y, acts[0]); Whole(next.cpu) && next.current < |next.owed| && AllAllowed(sides, next, acts[1..]))
  }

  /** However many sides compute and switch in whatever order, every suspended
      frame stays intact. */
  lemma {:induction false} CoroutinesIntact(sides: seq<Side>, y: System, acts: seq<Action>)
    requires Layout(sides) && Intact(sides, y) && AllAllowed(sides, y, acts)
    ensures Intact(sides, RunAll(y, acts))
    decreases |acts|
  {
    if acts != [] {
      if acts[0].Compute? { ComputeIntact(sides, y, acts[0]); } else { SwitchIntact(sides, y, acts[0]); }
      CoroutinesIntact(sides, Next(y, acts[0]), acts[1..]);
    }
  }

  lemma {:induction false} OwedKept(sides: seq<Side>, y: System, acts: seq<Action>, i: nat)
    requires Layout(sides) && Intact(sides, y) && AllAllowed(sides, y, acts)
    requires i < |sides| && i != y.current && SwitchTo(i) !in acts
    ensures Intact(sides, RunAll(y, acts)) && RunAll(y, acts).current != i && RunAll(y, acts).owed[i] == y.owed[i]
    decreases |acts|
  {
    if acts != [] {
      if acts[0].Compute? { ComputeIntact(sides, y, acts[0]); } else { SwitchIntact(sides, y, acts[0]); }
      OwedKept(sides, Next(y, acts[0]), acts[1..], i);
    }
  }

  /** Coroutine round trip: a side that switches away and is switched back to
      after any history of the others finds its callee-saved registers, rsp and
      return address as they were. */
  lemma RoundTrip(sides: seq<Side>, y: System, j: nat, acts: seq<Action>)
    requires Layout(sides) && Intact(sides, y) && Allowed(sides, y, SwitchTo(j))
    requires var z := Next(y, SwitchTo(j)); AllAllowed(sides, z, acts) && SwitchTo(y.current) !in acts
    requires var z := RunAll(Next(y, SwitchTo(j)), acts);
             Allowed(sides, z, SwitchTo(y.current)) && z.current < |z.owed|
    ensures var before, after := y.cpu, Next(RunAll(Next(y, SwitchTo(j)), acts), SwitchTo(y.current)).cpu;
            && Whole(after) && SamePreserved(after.regs, before.regs)
            && after.regs[RSP] == before.regs[RSP] + 8 && after.rip == Read(before.mem, before.regs[RSP])
  {
    SwitchIntact(sides, y, SwitchTo(j));
    var z := Next(y, SwitchTo(j));
    OwedKept(sides, z, acts, y.current);
    SwitchIntact(sides, RunAll(z, acts), SwitchTo(y.current));
  }

  // ------------------------------------------------------------------ bootstrap

  const ZEROS: seq<nat> := [0, 0, 0, 0, 0, 0, 0, 0, 0, 0, 0, 0, 0, 0, 0, 0]

  /** What the first switch into a task must find: zeroed registers, the entry
      address, and rsp one word below the aligned top. */
  function Start(top: nat, entry: nat): Snapshot
    requires top >= 8
  {
    Snapshot(ZEROS, top - 8, entry)
  }

  /** The first frame lies below `top`. */
  ghost predicate Planted(m: Memory, top: nat, entry: nat)
    requires top >= 64
  {
    Spilled(m, top - 64, CALLEE, ZEROS) && Read(m, top - 64 + SAVED) == entry
  }

  lemma PlantedSuspended(m: Memory, ctx: nat, top: nat, entry: nat)
    requires top >= 64 && Planted(m, top, entry) && Read(m, ctx) == top - 64
    ensures Suspended(m, ctx, Start(top, entry))
  {
  }

  /** Plant the first frame on a fresh stack: six zeros, the entry address and
      a pad word. */
  method InitTaskContext(mem: Memory, top: nat, entry: nat) returns (m: Memory, rsp: nat)
    requires top % 16 == 0 && top >= 64
    ensures rsp == top - 64 && Planted(m, top, entry)
    ensures forall a: nat :: !Touches(a, top - 64, top) ==> Read(m, a) == Read(mem, a)
    ensures (rsp + FRAME) % 16 == 8 && rsp + FRAME == top - 8
  {
    rsp := top - 64;
    m := ZeroWords(mem, rsp);
    PlantedBy(m, m[rsp + 48 := entry][rsp + 56 := 0], top, entry);
    m := m[rsp + 48 := entry][rsp + 56 := 0];
  }

  /** Six zero words from `at` upward. */
  method ZeroWords(mem: Memory, at: nat) returns (m: Memory)
    ensures forall k :: 0 <= k < 6 ==> Read(m, at + 8 * k) == 0
    ensures forall a: nat :: !(at <= a < at + 48) ==> Read(m, a) == Read(mem, a)
  {
    m := mem;
    for i := 0 to 6
      invariant forall k :: 0 <= k < i ==> Read(m, at + 8 * k) == 0
      invariant forall a: nat :: !(at <= a < at + 48) ==> Read(m, a) == Read(mem, a)
    {
      m := m[at + 8 * i := 0];
    }
  }

  lemma PlantedBy(z: Memory, m: Memory, top: nat, entry: nat)
    requires top >= 64 && m == z[top - 64 + 48 := entry][top - 64 + 56 := 0]
    requires forall k :: 0 <= k < 6 ==> Read(z, top - 64 + 8 * k) == 0
    ensures Planted(m, top, entry)
    ensures forall a: nat :: !Touches(a, top - 64, top) ==> Read(m, a) == Read(z, a)
  {
    forall i | 0 <= i < |CALLEE| ensures Read(m, top - 64 + 8 * (|CALLEE| - 1 - i)) == ZEROS[CALLEE[i]] {
      assert Read(z, top - 64 + 8 * (6 - 1 - i)) == 0;
    }
  }

  /** The CPU has entered a task's trampoline: zeroed callee-saved registers and
      the stack parity a function entry has. */
  ghost predicate Entered(t: Cpu, top: nat, entry: nat)
  {
    && Whole(t) && t.rip == entry && t.regs[RSP] == top - 8 && t.regs[RSP] % 16 == 8
    && t.regs[RBX] == 0 && t.regs[RBP] == 0
    && t.regs[R12] == 0 && t.regs[R13] == 0 && t.regs[R14] == 0 && t.regs[R15] == 0
  }

  lemma ResumedEnters(t: Cpu, top: nat, entry: nat)
    requires top % 16 == 0 && top >= 64 && Resumed(t, Start(top, entry))
    ensures Entered(t, top, entry)
  {
  }

  /** The first switch into a bootstrapped task enters the trampoline at
      rsp = top - 8, which is 8 modulo 16. */
  lemma FirstSwitchEnters(s: Cpu, top: nat, entry: nat)
    requires Whole(s) && s.regs[RSP] >= SAVED && top % 16 == 0 && top >= 64
    requires CellClear(s) && Read(s.mem, s.regs[RSI]) == top - 64 && Planted(s.mem, top, entry)
    requires !Writes(s, s.regs[RSI]) && forall a: nat :: top - 64 <= a && a + 8 <= top - 8 ==> !Writes(s, a)
    ensures Entered(Switch(s), top, entry) && Suspended(Switch(s).mem, s.regs[RDI], Calling(s))
  {
    PlantedSuspended(s.mem, s.regs[RSI], top, entry);
    SwitchSpec(s, Start(top, entry));
    ResumedEnters(Switch(s), top, entry);
  }

  // ------------------------------------------------------------- from boot on

  /** Side 0 is the driver; every other side has an aligned stack with room for
      its first frame. */
  ghost predicate Bootable(sides: seq<Side>)
  {
    && sides != [] && Layout(sides)
    && forall k :: 1 <= k < |sides| ==> sides[k].hi % 16 == 0 && sides[k].lo + 64 <= sides[k].hi
  }

  ghost predicate AllPlanted(sides: seq<Side>, n: nat, m: Memory, entry: nat)
    requires n <= |sides| && Bootable(sides)
  {
    forall k :: 1 <= k < n ==> Parked(sides[k], m, Start(sides[k].hi, entry))
  }

  lemma PlantOne(sides: seq<Side>, n: nat, m: Memory, planted: Memory, m': Memory, entry: nat)
    requires Bootable(sides) && 1 <= n < |sides| && AllPlanted(sides, n, m, entry)
    requires Planted(planted, sides[n].hi, entry) && m' == planted[sides[n].ctx := sides[n].hi - 64]
    requires forall a: nat :: !Touches(a, sides[n].hi - 64, sides[n].hi) ==> Read(planted, a) == Read(m, a)
    ensures AllPlanted(sides, n + 1, m', entry)
  {
    var d := sides[n];
    forall k | 1 <= k < n ensures Parked(sides[k], m', Start(sides[k].hi, entry)) {
      assert !Touches(sides[k].ctx, d.lo, d.hi) && !Touches(d.ctx, sides[k].lo, sides[k].hi);
      assert !Touches(sides[k].ctx, d.ctx, d.ctx + 8);
      ParkedStays(sides, k, m, m', Start(sides[k].hi, entry));
    }
    PlantedHere(planted, m', d, entry);
  }

  lemma PlantedHere(planted: Memory, m': Memory, d: Side, entry: nat)
    requires d.lo + 64 <= d.hi && !Touches(d.ctx, d.lo, d.hi)
    requires Planted(planted, d.hi, entry) && m' == planted[d.ctx := d.hi - 64]
    ensures Parked(d, m', Start(d.hi, entry))
  {
    assert forall a: nat :: d.hi - 64 <= a && a + 8 <= d.hi ==> Read(m', a) == Read(planted, a);
    PlantedSuspended(m', d.ctx, d.hi, entry);
  }

  /** Build every task's stack and context, as spawning them one by one does. */
  method BootSides(mem: Memory, sides: seq<Side>, entry: nat) returns (m: Memory)
    requires Bootable(sides)
    ensures AllPlanted(sides, |sides|, m, entry)
  {
    m := mem;
    for k := 1 to |sides|
      invariant AllPlanted(sides, k, m, entry)
    {
      ghost var before := m;
      var rsp;
      m, rsp := InitTaskContext(m, sides[k].hi, entry);
      ghost var planted := m;
      m := m[sides[k].ctx := rsp];
      PlantOne(sides, k, before, planted, m, entry);
    }
  }

  /** The system at boot: the driver runs, every task is suspended at its
      start. */
  lemma BootIntact(sides: seq<Side>, cpu: Cpu, owed: seq<Snapshot>, entry: nat)
    requires Bootable(sides) && Whole(cpu) && |owed| == |sides| && AllPlanted(sides, |sides|, cpu.mem, entry)
    requires forall k :: 1 <= k < |sides| ==> owed[k] == Start(sides[k].hi, entry)
    ensures Intact(sides, System(cpu, 0, owed))
  {
  }

  /** First entry: whatever the driver and the other tasks did since boot, the
      first switch into a task enters its trampoline with zeroed callee-saved
      registers at the top of its own stack. */
  lemma FirstEntry(sides: seq<Side>, y: System, acts: seq<Action>, j: nat, entry: nat)
    requires Bootable(sides) && Intact(sides, y) && 1 <= j < |sides| && j != y.current
    requires y.owed[j] == Start(sides[j].hi, entry) && AllAllowed(sides, y, acts) && SwitchTo(j) !in acts
    requires var z := RunAll(y, acts); Allowed(sides, z, SwitchTo(j)) && z.current < |z.owed|
    ensures Entered(Next(RunAll(y, acts), SwitchTo(j)).cpu, sides[j].hi, entry)
  {
    OwedKept(sides, y, acts, j);
    SwitchIntact(sides, RunAll(y, acts), SwitchTo(j));
    ResumedEnters(Next(RunAll(y, acts), SwitchTo(j)).cpu, sides[j].hi, entry);
  }
}
