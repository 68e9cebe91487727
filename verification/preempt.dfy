/** The preempt frame and the static slot tables the interrupt stub reads. */
module Preempt {
  import opened Common
  import opened Dyadic

  const MAX_TASKS: nat := 7
  const MAGIC: nat := 0x5052_4545_4D50_5434

  /** Saved state of a yanked task. `gprs` holds the fifteen registers in spill
      order, r15 first and rax last. */
  datatype FullFrame = FullFrame(gprs: seq<nat>, rsp: nat, rip: nat, cs: nat, rflags: nat, magic: nat)

  const ZERO_GPRS: seq<nat> := [0, 0, 0, 0, 0, 0, 0, 0, 0, 0, 0, 0, 0, 0, 0]

  /** The all-zero frame: magic 0, so never valid. */
  const ZERO: FullFrame := FullFrame(ZERO_GPRS, 0, 0, 0, 0, 0)

  /** First-resume frame of a new task: interrupts on, one word below the
      aligned top. */
  function Fresh(entry: nat, cs: nat, top: nat): FullFrame
    requires top % 16 == 0 && top >= 16
  {
    FullFrame(ZERO_GPRS, top - 8, entry, cs, 0x202, MAGIC)
  }

  /** Bits 63 to 47 of an address agree. */
  predicate Canonical(a: nat)
  {
    Shr(a, 48) == if Shr(a, 47) % 2 == 0 then 0 else 0xFFFF
  }

  /** Magic intact, rsp canonical and inside the window, ends included. */
  predicate ValidFor(f: FullFrame, bottom: nat, top: nat)
  {
    f.magic == MAGIC && bottom <= f.rsp <= top && Canonical(f.rsp)
  }

  // ---------------------------------------------------- the occupancy bitmap

  function Mask(i: nat): bv8
    requires i < MAX_TASKS
  {
    match i
    case 0 => 1
    case 1 => 2
    case 2 => 4
    case 3 => 8
    case 4 => 16
    case 5 => 32
    case _ => 64
  }

  predicate Used(used: bv8, i: nat)
    requires i < MAX_TASKS
  {
    used & Mask(i) != 0
  }

  lemma SetBit(used: bv8, i: nat, j: nat)
    requires i < MAX_TASKS && j < MAX_TASKS
    ensures Used(used | Mask(i), j) <==> i == j || Used(used, j)
  {
  }

  lemma ClearBit(used: bv8, i: nat, j: nat)
    requires i < MAX_TASKS && j < MAX_TASKS
    ensures Used(used & !Mask(i), j) <==> i != j && Used(used, j)
  {
  }

  /** The slots the bitmap marks as taken. */
  ghost function Occupied(used: bv8): set<nat>
  {
    set i: nat | 0 <= i < MAX_TASKS && Used(used, i)
  }

  lemma SetOccupies(used: bv8, i: nat)
    requires i < MAX_TASKS
    ensures Occupied(used | Mask(i)) == Occupied(used) + {i}
  {
    forall j: nat | j < MAX_TASKS ensures Used(used | Mask(i), j) <==> i == j || Used(used, j) { SetBit(used, i, j); }
  }

  lemma ClearVacates(used: bv8, i: nat)
    requires i < MAX_TASKS
    ensures Occupied(used & !Mask(i)) == Occupied(used) - {i}
  {
    forall j: nat | j < MAX_TASKS ensures Used(used & !Mask(i), j) <==> i != j && Used(used, j) { ClearBit(used, i, j); }
  }

  /** `alloc_slot`: the first free slot; `None` stands for the table-full
      panic. */
  method AllocSlot(used: bv8) returns (r: Option<nat>)
    ensures r == FirstFree(Occupied(used), 0)
  {
    ghost var occ := Occupied(used);
    for i := 0 to MAX_TASKS
      invariant FirstFree(occ, i) == FirstFree(occ, 0)
    {
      InOccupied(used, i);
      if used & Mask(i) == 0 { return Some(i); }
    }
    return None;
  }

  lemma InOccupied(used: bv8, i: nat)
    requires i < MAX_TASKS
    ensures i in Occupied(used) <==> Used(used, i)
  {
  }

  function FirstFree(occ: set<nat>, i: nat): (r: Option<nat>)
    requires i <= MAX_TASKS
    ensures r.Some? ==> i <= r.value < MAX_TASKS && r.value !in occ
    ensures r.None? ==> forall j :: i <= j < MAX_TASKS ==> j in occ
    ensures r.Some? ==> forall j :: i <= j < r.value ==> j in occ
    decreases MAX_TASKS - i, occ
  {
    if i == MAX_TASKS then None else if i !in occ then Some(i) else FirstFree(occ, i + 1)
  }

  // ------------------------------------------------------------- the tables

  datatype Tables = Tables(frames: seq<FullFrame>, bounds: seq<(nat, nat)>, occ: set<nat>)

  ghost predicate Shaped(t: Tables)
  {
    |t.frames| == MAX_TASKS && |t.bounds| == MAX_TASKS
  }

  function SlotBounds(t: Tables, i: nat): Option<(nat, nat)>
    requires Shaped(t)
  {
    if i >= MAX_TASKS || t.bounds[i].0 == 0 then None else Some(t.bounds[i])
  }

  predicate FrameOk(t: Tables, i: nat)
    requires Shaped(t)
  {
    var b := SlotBounds(t, i);
    b.Some? && ValidFor(t.frames[i], b.value.0, b.value.1)
  }

  function WriteFrame(t: Tables, i: nat, f: FullFrame): (r: Tables)
    requires Shaped(t) && i < MAX_TASKS
    ensures Shaped(r)
  {
    t.(frames := t.frames[i := f])
  }

  /** The static tables, as the driver mutates them. */
  class SlotTables {
    var frames: seq<FullFrame>
    var bounds: seq<(nat, nat)>
    var slotUsed: bv8

    ghost function View(): Tables
      reads this
    {
      Tables(frames, bounds, Occupied(slotUsed))
    }

    constructor ()
      ensures Shaped(View()) && View().occ == {}
      ensures forall i :: 0 <= i < MAX_TASKS ==> frames[i] == ZERO && bounds[i] == (0, 0)
    {
      frames := [ZERO, ZERO, ZERO, ZERO, ZERO, ZERO, ZERO];
      bounds := [(0, 0), (0, 0), (0, 0), (0, 0), (0, 0), (0, 0), (0, 0)];
      slotUsed := 0;
    }

    method RegisterTask(i: nat, frame: FullFrame)
      requires Shaped(View()) && i < MAX_TASKS && !Used(slotUsed, i)
      modifies this`frames, this`slotUsed
      ensures View() == WriteFrame(old(View()), i, frame).(occ := old(View()).occ + {i})
    {
      SetOccupies(slotUsed, i);
      frames := frames[i := frame];
      slotUsed := slotUsed | Mask(i);
    }

    method SetSlotBounds(i: nat, bottom: nat, top: nat)
      requires Shaped(View()) && i < MAX_TASKS && bottom < top
      modifies this`bounds
      ensures View() == old(View()).(bounds := old(bounds)[i := (bottom, top)])
      ensures SlotBounds(View(), i) == if bottom == 0 then None else Some((bottom, top))
    {
      bounds := bounds[i := (bottom, top)];
    }

    /** Release a slot: the frame can no longer pass `FrameOk` and the bit is
        clear, but the recorded window stays behind. */
    method UnregisterTask(i: nat)
      requires Shaped(View()) && i < MAX_TASKS && Used(slotUsed, i)
      modifies this`frames, this`slotUsed
      ensures View() == WriteFrame(old(View()), i, ZERO).(occ := old(View()).occ - {i})
      ensures !FrameOk(View(), i) && SlotBounds(View(), i) == SlotBounds(old(View()), i)
      ensures forall j :: 0 <= j < MAX_TASKS && j != i ==> FrameOk(View(), j) == FrameOk(old(View()), j)
    {
      ClearVacates(slotUsed, i);
      frames := frames[i := ZERO];
      slotUsed := slotUsed & !Mask(i);
    }
  }

  // --------------------------------------------------------- stack windows

  const STACK_SIZE: nat := 131072
  const STACK_ALIGN: nat := 16

  /** Kernel stacks lie in the canonical high half. */
  const HIGH_HALF: nat := 0xFFFF_8000_0000_0000
  const ADDRESS_LIMIT: nat := 0x1_0000_0000_0000_0000

  /** Align the backing allocation up and leave a 16-aligned window in it. */
  function StackBottom(raw: nat): nat
  {
    (raw + STACK_ALIGN - 1) / STACK_ALIGN * STACK_ALIGN
  }

  ghost predicate Window(bottom: nat, top: nat)
  {
    HIGH_HALF <= bottom && bottom + 176 <= top < ADDRESS_LIMIT && bottom % 16 == 0 && top % 16 == 0
  }

  /** `TaskStack::new`: wherever the heap puts the backing bytes, the window is
      aligned and inside them. */
  lemma StackInsideBacking(raw: nat)
    requires HIGH_HALF <= raw && raw + STACK_SIZE + STACK_ALIGN < ADDRESS_LIMIT
    ensures var bottom := StackBottom(raw); var top := bottom + STACK_SIZE;
            && raw <= bottom && top <= raw + STACK_SIZE + STACK_ALIGN && Window(bottom, top)
            && top - bottom == 131072 && bottom < raw + 16
  {
  }

  lemma HighHalfCanonical(a: nat)
    requires HIGH_HALF <= a < ADDRESS_LIMIT
    ensures Canonical(a)
  {
    Pow2At47();
    ShrBounds(a, 48);
    ShrUnique(a, 48, 0xFFFF);
    ShrSucc(a, 47);
    ShrBounds(a, 47);
    assert Shr(a, 47) == 0x1_FFFF;
  }

  /** The canonical 64-bit addresses are the lowest and the highest 2^47. */
  lemma CanonicalExact(a: nat)
    requires a < ADDRESS_LIMIT
    ensures Canonical(a) <==> a < 0x8000_0000_0000 || HIGH_HALF <= a
  {
    Pow2At47();
    ShrBounds(a, 48);
    ShrBounds(a, 47);
    ShrSucc(a, 47);
  }

  lemma Pow2At47()
    ensures Pow2(47) == 0x8000_0000_0000 && Pow2(48) == 0x1_0000_0000_0000
  {
    assert Pow2(4) == 16;
    assert Pow2(8) == 256;
    assert Pow2(12) == 4096;
    Pow2Add(12, 12);
    Pow2Add(24, 24);
    assert Pow2(48) == 2 * Pow2(47);
  }

  lemma {:induction false} Pow2Add(a: nat, b: nat)
    ensures Pow2(a + b) == Pow2(a) * Pow2(b)
    decreases a
  {
    if a > 0 {
      Pow2Add(a - 1, b);
      MulDouble(Pow2(b), Pow2(a - 1));
    }
  }

  /** A new task's template passes its own validation, and returning through it
      would enter `entry` as a call does, interrupts on and registers zero. */
  lemma FreshValid(entry: nat, cs: nat, bottom: nat, top: nat)
    requires Window(bottom, top)
    ensures ValidFor(Fresh(entry, cs, top), bottom, top) && Fresh(entry, cs, top).rsp % 16 == 8
    ensures var f := Fresh(entry, cs, top); f.rip == entry && f.cs == cs && Shr(f.rflags, 9) % 2 == 1
    ensures |Fresh(entry, cs, top).gprs| == 15 && forall g :: g in Fresh(entry, cs, top).gprs ==> g == 0
  {
    HighHalfCanonical(top - 8);
  }

  // ------------------------------------------------- what an interrupt saves

  /** How the CPU pushes an interrupt frame at ring 0: the three words the code
      assumes, or the five words long mode pushes after aligning to 16. */
  datatype HwFrame = ThreeWords | FiveWords

  function Align16(a: nat): nat
  {
    a / 16 * 16
  }

  /** Stack pointer right after the CPU pushed its frame. */
  function AfterPush(hw: HwFrame, rsp: nat): int
  {
    match hw
    case ThreeWords => rsp - 24
    case FiveWords => Align16(rsp) - 40
  }

  /** What the stub records as the interrupted rsp: spill + 0x90, where the
      spill starts fifteen words below the CPU's frame. */
  function SavedRsp(hw: HwFrame, rsp: nat): int
  {
    AfterPush(hw, rsp) - 120 + 0x90
  }

  datatype Interrupted = Interrupted(gprs: seq<nat>, rsp: nat, rip: nat, cs: nat, rflags: nat)

  /** Room below rsp for the CPU's frame and the spill, in either model. */
  const SPILL_ROOM: nat := 176

  function Stash(hw: HwFrame, x: Interrupted): FullFrame
    requires x.rsp >= SPILL_ROOM
  {
    FullFrame(x.gprs, SavedRsp(hw, x.rsp), x.rip, x.cs, x.rflags, MAGIC)
  }

  /** The recorded rsp is the interrupted one exactly when the CPU pushes three
      words, as the code assumes. */
  lemma SavedRspExact(hw: HwFrame, rsp: nat)
    ensures SavedRsp(hw, rsp) == rsp <==> hw == ThreeWords
    ensures hw == FiveWords ==> SavedRsp(hw, rsp) == Align16(rsp) - 16
  {
  }

  /** A stash taken on a stack with room for the spill always validates. */
  lemma StashValid(hw: HwFrame, x: Interrupted, bottom: nat, top: nat)
    requires Window(bottom, top) && bottom + SPILL_ROOM <= x.rsp <= top
    ensures ValidFor(Stash(hw, x), bottom, top)
  {
    HighHalfCanonical(SavedRsp(hw, x.rsp));
  }
}
