/** The preemption protocol: driver, trampoline and timer interrupt as one
    small-step machine, with the interrupt enabled at every step where IF is
    set. Each step is one store or one flag change of the code. */
module Protocol {
  import opened Common
  import opened Preempt

  /** A task and the stack window and slot it was given. */
  datatype Task = Task(slot: nat, bottom: nat, top: nat, template: FullFrame)

  /** Which stack the CPU is on. */
  datatype Stack = Boot | Own(id: nat)

  /** Trampoline positions, named after what has just been done. */
  datatype Phase = Entered | IrqsOn | Stepping | Stepped(done: bool) | FenceLowered(done: bool) | IrqsOff(done: bool)

  datatype Pc =
    | Idle
    | SlotChosen(id: nat, t: Task)
    | FrameWritten(id: nat, t: Task)
    | BitSet(id: nat, t: Task)
    | Picked(id: nat)
    | Published(id: nat)
    | Masked(id: nat)
    | Running(id: nat, phase: Phase)
    | Returned(id: nat, done: bool)
    | Unpublished(id: nat, done: bool)
    | Checking(id: nat, done: bool)
    | Releasing(id: nat)
    | PointerCleared(id: nat)
    | FrameWiped(id: nat)

  datatype State = State(
    pc: Pc, ifl: bool, fence: bool, current: nat, stack: Stack,
    tables: Tables, ptrs: seq<Option<nat>>,
    tasks: map<nat, Task>, spawned: set<nat>)

  /** What can happen next: the code advances, the driver starts something, a
      step returns, or the timer fires. */
  datatype Event =
    | Create(id: nat, bottom: nat, top: nat, entry: nat, cs: nat)
    | Spawn(id: nat)
    | Schedule(id: nat)
    | StepReturns(done: bool)
    | Advance
    | Timer(x: Interrupted)

  // -------------------------------------------------------------- transitions

  ghost predicate Enabled(s: State, e: Event)
  {
    match e
    case Create(id, bottom, top, _, _) =>
      s.pc == Idle && id !in s.tasks && Window(bottom, top) && FirstFree(s.tables.occ, 0).Some?
    case Spawn(id) => s.pc == Idle && id in s.tasks && id !in s.spawned
    case Schedule(id) => s.pc == Idle && id in s.spawned
    case StepReturns(_) => s.pc.Running? && s.pc.phase == Stepping
    case Advance => !(s.pc == Idle || (s.pc.Running? && s.pc.phase == Stepping))
    case Timer(x) => s.ifl && x.rsp >= SPILL_ROOM && (s.stack.Own? ==> HasRoom(s, s.stack.id, x.rsp))
  }

  /** The running task left room on its own stack for the interrupt spill. */
  ghost predicate HasRoom(s: State, id: nat, rsp: nat)
  {
    id in s.tasks && s.tasks[id].bottom + SPILL_ROOM <= rsp <= s.tasks[id].top
  }

  /** The stub's three tests: fence up, index in range, slot occupied. */
  predicate Stashes(s: State)
  {
    s.fence && s.current < MAX_TASKS && s.current in s.tables.occ
  }

  function SlotOf(s: State, id: nat): nat
  {
    if id in s.tasks && s.tasks[id].slot < MAX_TASKS then s.tasks[id].slot else 0
  }

  /** One code step of the driver outside task execution. */
  function DriverStep(s: State): (r: State)
    requires Sized(s)
    ensures Sized(r)
  {
    match s.pc
    case SlotChosen(id, t) =>
      if t.slot < MAX_TASKS then s.(tables := WriteFrame(s.tables, t.slot, t.template), pc := FrameWritten(id, t)) else s
    case FrameWritten(id, t) =>
      if t.slot < MAX_TASKS then
        s.(tables := s.tables.(occ := s.tables.occ + {t.slot}), tasks := s.tasks[id := t], pc := BitSet(id, t))
      else s
    case BitSet(id, t) =>
      if t.slot < MAX_TASKS then
        s.(tables := s.tables.(bounds := s.tables.bounds[t.slot := (t.bottom, t.top)]), pc := Idle)
      else s
    case Picked(id) => s.(current := SlotOf(s, id), pc := Published(id))
    case Published(id) => s.(ifl := false, pc := Masked(id))
    case Masked(id) => s.(stack := Own(id), pc := Running(id, Entered))
    case Returned(id, done) => s.(current := MAX_TASKS, pc := Unpublished(id, done))
    case Unpublished(id, done) => s.(ifl := true, pc := Checking(id, done))
    case Checking(id, done) => s.(pc := if done then Releasing(id) else Idle)
    case Releasing(id) => s.(ptrs := s.ptrs[SlotOf(s, id) := None], spawned := s.spawned - {id}, pc := PointerCleared(id))
    case PointerCleared(id) => s.(tables := WriteFrame(s.tables, SlotOf(s, id), ZERO), pc := FrameWiped(id))
    case FrameWiped(id) =>
      s.(tables := s.tables.(occ := s.tables.occ - {SlotOf(s, id)}), tasks := s.tasks - {id}, pc := Idle)
    case _ => s
  }

  /** One step of the trampoline on the task's own stack. */
  function TrampolineStep(s: State): (r: State)
    ensures r.tables == s.tables && r.ptrs == s.ptrs
  {
    match s.pc
    case Running(id, Entered) => s.(ifl := true, pc := Running(id, IrqsOn))
    case Running(id, IrqsOn) => s.(fence := true, pc := Running(id, Stepping))
    case Running(id, Stepped(done)) => s.(fence := false, pc := Running(id, FenceLowered(done)))
    case Running(id, FenceLowered(done)) => s.(ifl := false, pc := Running(id, IrqsOff(done)))
    case Running(id, IrqsOff(done)) => s.(stack := Boot, pc := Returned(id, done))
    case _ => s
  }

  function Apply(hw: HwFrame, s: State, e: Event): (r: State)
    requires Sized(s)
    ensures Sized(r)
  {
    match e
    case Create(id, bottom, top, entry, cs) =>
      var slot := FirstFree(s.tables.occ, 0);
      if slot.Some? && top % 16 == 0 && top >= 16 then
        s.(pc := SlotChosen(id, Task(slot.value, bottom, top, Fresh(entry, cs, top))))
      else s
    case Spawn(id) => s.(ptrs := s.ptrs[SlotOf(s, id) := Some(id)], spawned := s.spawned + {id})
    case Schedule(id) => s.(pc := Picked(id))
    case StepReturns(done) => if s.pc.Running? then s.(pc := Running(s.pc.id, Stepped(done))) else s
    case Advance => if s.pc.Running? then TrampolineStep(s) else DriverStep(s)
    case Timer(x) =>
      if Stashes(s) && x.rsp >= SPILL_ROOM then s.(tables := WriteFrame(s.tables, s.current, Stash(hw, x))) else s
  }

  // ---------------------------------------------------------------- invariant

  ghost predicate Sized(s: State)
  {
    Shaped(s.tables) && |s.ptrs| == MAX_TASKS
  }

  /** Interrupts are masked only around the two stack switches. */
  predicate IfAt(pc: Pc)
  {
    !(pc.Masked? || pc.Returned? || pc.Unpublished? || (pc.Running? && (pc.phase.Entered? || pc.phase.IrqsOff?)))
  }

  /** The fence is up only inside the step window. */
  predicate FenceAt(pc: Pc)
  {
    pc.Running? && (pc.phase.Stepping? || pc.phase.Stepped?)
  }

  function StackAt(pc: Pc): Stack
  {
    if pc.Running? then Own(pc.id) else Boot
  }

  /** The running index names the task's slot around its turn. */
  predicate Publishes(pc: Pc)
  {
    pc.Published? || pc.Masked? || pc.Running? || pc.Returned?
  }

  /** The program counter works for a spawned task. */
  predicate Serves(pc: Pc)
  {
    Publishes(pc) || pc.Picked? || pc.Unpublished? || pc.Checking? || pc.Releasing?
  }

  /** Flags, stack and published index at every program point. */
  ghost predicate Control(s: State)
    requires Sized(s)
  {
    && s.ifl == IfAt(s.pc) && s.fence == FenceAt(s.pc) && s.stack == StackAt(s.pc)
    && (Serves(s.pc) ==> s.pc.id in s.tasks && s.pc.id in s.spawned)
    && s.current == (if Publishes(s.pc) then SlotOf(s, s.pc.id) else MAX_TASKS)
    && (MidTask(s.pc) ==> MidTaskOk(s))
  }

  /** A task is being registered or released. */
  predicate MidTask(pc: Pc)
  {
    pc.SlotChosen? || pc.FrameWritten? || pc.BitSet? || pc.PointerCleared? || pc.FrameWiped?
  }

  ghost predicate MidTaskOk(s: State)
    requires Sized(s) && MidTask(s.pc)
  {
    && s.pc.id !in s.spawned
    && (s.pc.SlotChosen? || s.pc.FrameWritten? ==>
          s.pc.id !in s.tasks && TaskOk(s.pc.t) && s.pc.t.slot !in s.tables.occ)
    && (s.pc.FrameWritten? ==> s.tables.frames[s.pc.t.slot] == s.pc.t.template)
    && (s.pc.BitSet? ==> s.pc.id in s.tasks && s.tasks[s.pc.id] == s.pc.t)
    && (s.pc.PointerCleared? || s.pc.FrameWiped? ==> s.pc.id in s.tasks)
    && (s.pc.FrameWiped? ==> s.tasks[s.pc.id].slot < MAX_TASKS && s.tables.frames[s.tasks[s.pc.id].slot] == ZERO)
  }

  ghost predicate TaskOk(t: Task)
  {
    t.slot < MAX_TASKS && Window(t.bottom, t.top) && ValidFor(t.template, t.bottom, t.top)
  }

  /** Each live task has a sound window, its own slot, and a set bit. */
  ghost predicate TasksOk(s: State)
  {
    && (forall id :: id in s.tasks ==> TaskOk(s.tasks[id]) && s.tasks[id].slot in s.tables.occ)
    && (forall a, b :: a in s.tasks && b in s.tasks && a != b ==> s.tasks[a].slot != s.tasks[b].slot)
  }

  ghost predicate Owned(s: State, i: nat)
  {
    exists id :: id in s.tasks && s.tasks[id].slot == i
  }

  /** Every occupied slot has an owner. */
  ghost predicate SlotsOwned(s: State)
  {
    forall i :: 0 <= i < MAX_TASKS && i in s.tables.occ ==> Owned(s, i)
  }

  /** The frame of a live slot is valid for its owner's window, and the frame
      of a free slot has no magic. */
  ghost predicate FramesOk(s: State)
    requires Sized(s)
  {
    && (forall id :: id in s.tasks && s.pc != FrameWiped(id) ==>
          s.tasks[id].slot < MAX_TASKS
          && ValidFor(s.tables.frames[s.tasks[id].slot], s.tasks[id].bottom, s.tasks[id].top))
    && (forall i :: 0 <= i < MAX_TASKS && i !in s.tables.occ && !InFlight(s, i) ==>
          s.tables.frames[i].magic != MAGIC)
  }

  /** Slot `i` is between writing its frame and setting its bit. */
  ghost predicate InFlight(s: State, i: nat)
  {
    s.pc.FrameWritten? && s.pc.t.slot == i
  }

  ghost predicate BoundsOk(s: State)
    requires Sized(s)
  {
    forall id :: id in s.tasks && !(s.pc.BitSet? && s.pc.id == id) ==>
      s.tasks[id].slot < MAX_TASKS && s.tables.bounds[s.tasks[id].slot] == (s.tasks[id].bottom, s.tasks[id].top)
  }

  /** A slot's pointer is set exactly for its spawned owner. */
  ghost predicate PointersOk(s: State)
    requires Sized(s)
  {
    && s.spawned <= s.tasks.Keys
    && (forall id :: id in s.spawned ==> id in s.tasks && s.tasks[id].slot < MAX_TASKS && s.ptrs[s.tasks[id].slot] == Some(id))
    && (forall i :: 0 <= i < MAX_TASKS && s.ptrs[i].Some? ==>
          s.ptrs[i].value in s.spawned && s.ptrs[i].value in s.tasks && s.tasks[s.ptrs[i].value].slot == i)
  }

  ghost predicate Inv(s: State)
  {
    && Sized(s)
    && TasksOk(s) && Control(s) && SlotsOwned(s) && FramesOk(s) && BoundsOk(s) && PointersOk(s)
  }

  ghost predicate Init(s: State)
  {
    && Sized(s) && s.tables.occ == {}
    && (forall i :: 0 <= i < MAX_TASKS ==> s.tables.frames[i] == ZERO && s.tables.bounds[i] == (0, 0) && s.ptrs[i] == None)
    && s.pc == Idle && s.stack == Boot && s.ifl && !s.fence && s.current == MAX_TASKS
    && s.tasks == map[] && s.spawned == {}
  }

  // ------------------------------------------------------------- preservation

  lemma InitInv(s: State)
    requires Init(s)
    ensures Inv(s)
  {
  }

  /** Program points at which the tables are between two stores. */
  ghost predicate MidStore(pc: Pc)
  {
    pc.FrameWritten? || pc.BitSet? || pc.FrameWiped?
  }

  lemma TasksSame(s: State, s': State)
    requires TasksOk(s) && s'.tables.occ == s.tables.occ && s'.tasks == s.tasks
    ensures TasksOk(s')
  {
  }

  lemma OwnersSame(s: State, s': State)
    requires SlotsOwned(s) && s'.tables.occ == s.tables.occ && s'.tasks == s.tasks
    ensures SlotsOwned(s')
  {
    forall i | 0 <= i < MAX_TASKS && i in s'.tables.occ ensures Owned(s', i) { assert Owned(s, i); }
  }

  lemma FramesSame(s: State, s': State)
    requires Sized(s) && Sized(s') && FramesOk(s)
    requires s'.tables.frames == s.tables.frames && s'.tables.occ == s.tables.occ && s'.tasks == s.tasks
    requires !(s.pc.FrameWritten? || s.pc.FrameWiped?) && !(s'.pc.FrameWritten? || s'.pc.FrameWiped?)
    ensures FramesOk(s')
  {
  }

  lemma BoundsSame(s: State, s': State)
    requires Sized(s) && Sized(s') && BoundsOk(s) && s'.tables.bounds == s.tables.bounds && s'.tasks == s.tasks
    requires !s.pc.BitSet? && !s'.pc.BitSet?
    ensures BoundsOk(s')
  {
  }

  lemma PointersSame(s: State, s': State)
    requires Sized(s) && Sized(s') && PointersOk(s) && s'.ptrs == s.ptrs && s'.tasks == s.tasks && s'.spawned == s.spawned
    ensures PointersOk(s')
  {
  }

  /** Steps that touch no table keep everything the tables are about. */
  lemma ControlOnly(s: State, s': State)
    requires Inv(s) && s'.tables == s.tables && s'.ptrs == s.ptrs && s'.tasks == s.tasks && s'.spawned == s.spawned
    requires !MidStore(s.pc) && !MidStore(s'.pc) && Control(s')
    ensures Inv(s')
  {
    TasksSame(s, s');
    OwnersSame(s, s');
    FramesSame(s, s');
    BoundsSame(s, s');
    PointersSame(s, s');
  }

  lemma CreateInv(hw: HwFrame, s: State, e: Event)
    requires Inv(s) && e.Create? && Enabled(s, e)
    ensures Inv(Apply(hw, s, e))
  {
    FreshValid(e.entry, e.cs, e.bottom, e.top);
    ControlOnly(s, Apply(hw, s, e));
  }

  lemma SpawnInv(hw: HwFrame, s: State, e: Event)
    requires Inv(s) && e.Spawn? && Enabled(s, e)
    ensures Inv(Apply(hw, s, e))
  {
    var s' := Apply(hw, s, e);
    SpawnPointers(s, s', e.id);
    TasksSame(s, s');
    OwnersSame(s, s');
    FramesSame(s, s');
    BoundsSame(s, s');
  }

  lemma SpawnPointers(s: State, s': State, id: nat)
    requires Sized(s) && Sized(s') && TasksOk(s) && PointersOk(s) && id in s.tasks && id !in s.spawned
    requires s'.tasks == s.tasks && s'.spawned == s.spawned + {id}
    requires s'.ptrs == s.ptrs[s.tasks[id].slot := Some(id)]
    ensures PointersOk(s')
  {
    assert forall a :: a in s.tasks && a != id ==> s.tasks[a].slot != s.tasks[id].slot;
  }

  lemma ClearPointers(s: State, s': State, id: nat)
    requires Sized(s) && Sized(s') && TasksOk(s) && PointersOk(s) && id in s.tasks
    requires s'.tasks == s.tasks && s'.spawned == s.spawned - {id}
    requires s'.ptrs == s.ptrs[s.tasks[id].slot := None]
    ensures PointersOk(s')
  {
    assert forall a :: a in s.tasks && a != id ==> s.tasks[a].slot != s.tasks[id].slot;
  }

  /** A valid frame written over a live task's own. */
  lemma OwnFrameWritten(s: State, s': State, id: nat, f: FullFrame)
    requires Sized(s) && Sized(s') && TasksOk(s) && FramesOk(s) && id in s.tasks && s'.tasks == s.tasks && s'.pc == s.pc
    requires !(s.pc.FrameWritten? || s.pc.FrameWiped?) && ValidFor(f, s.tasks[id].bottom, s.tasks[id].top)
    requires s.tasks[id].slot < MAX_TASKS && s'.tables == WriteFrame(s.tables, s.tasks[id].slot, f)
    ensures FramesOk(s')
  {
    assert forall a :: a in s.tasks && a != id ==> s.tasks[a].slot != s.tasks[id].slot;
  }

  lemma StashOwner(s: State)
    requires Inv(s) && Stashes(s)
    ensures s.pc.Running? && s.pc.id in s.tasks && s.stack == Own(s.pc.id) && s.current == s.tasks[s.pc.id].slot
  {
    assert TaskOk(s.tasks[s.pc.id]);
  }

  /** The stub writes only the running task's own slot, with a valid frame. */
  lemma TimerInv(hw: HwFrame, s: State, e: Event)
    requires Inv(s) && e.Timer? && Enabled(s, e)
    ensures Inv(Apply(hw, s, e))
  {
    if Stashes(s) {
      var s' := Apply(hw, s, e);
      StashOwner(s);
      var t := s.tasks[s.pc.id];
      StashValid(hw, e.x, t.bottom, t.top);
      OwnFrameWritten(s, s', s.pc.id, Stash(hw, e.x));
      TasksSame(s, s');
      OwnersSame(s, s');
      BoundsSame(s, s');
      PointersSame(s, s');
    }
  }

  lemma TrampolineControl(s: State)
    requires Sized(s) && Control(s) && s.pc.Running? && s.pc.phase != Stepping
    ensures var s' := TrampolineStep(s);
            && Control(s') && !MidStore(s'.pc) && s'.tables == s.tables && s'.ptrs == s.ptrs
            && s'.tasks == s.tasks && s'.spawned == s.spawned
  {
  }

  lemma TrampolineInv(hw: HwFrame, s: State)
    requires Inv(s) && Enabled(s, Advance) && s.pc.Running?
    ensures Inv(Apply(hw, s, Advance))
  {
    TrampolineControl(s);
    ControlOnly(s, TrampolineStep(s));
  }

  // -- the stores of registration and release, one by one

  lemma FreshWritten(s: State, s': State, t: Task)
    requires Sized(s) && Sized(s') && TasksOk(s) && FramesOk(s) && s'.tasks == s.tasks && t.slot < MAX_TASKS
    requires s.pc.SlotChosen? && s'.pc == FrameWritten(s.pc.id, t) && t.slot !in s.tables.occ
    requires s'.tables == WriteFrame(s.tables, t.slot, t.template)
    ensures FramesOk(s')
  {
    assert forall a :: a in s.tasks ==> s.tasks[a].slot != t.slot;
  }

  lemma WriteFreshInv(s: State)
    requires Inv(s) && s.pc.SlotChosen?
    ensures Inv(DriverStep(s))
  {
    var s' := DriverStep(s);
    FreshWritten(s, s', s.pc.t);
    TasksSame(s, s');
    OwnersSame(s, s');
    BoundsSame(s, s');
    PointersSame(s, s');
  }

  /** The state with task `id` registered in its slot. */
  ghost predicate Added(s: State, s': State, id: nat, t: Task)
  {
    && Sized(s) && Sized(s') && TaskOk(t) && id !in s.tasks && t.slot !in s.tables.occ
    && s'.tasks == s.tasks[id := t] && s'.tables == s.tables.(occ := s.tables.occ + {t.slot})
    && s.pc == FrameWritten(id, t) && s'.pc == BitSet(id, t)
  }

  lemma AddedTasks(s: State, s': State, id: nat, t: Task)
    requires Added(s, s', id, t) && TasksOk(s)
    ensures TasksOk(s')
  {
  }

  lemma AddedOwners(s: State, s': State, id: nat, t: Task)
    requires Added(s, s', id, t) && SlotsOwned(s)
    ensures SlotsOwned(s')
  {
    forall i | 0 <= i < MAX_TASKS && i in s'.tables.occ ensures Owned(s', i) {
      if i == t.slot {
        assert id in s'.tasks;
      } else {
        var x :| x in s.tasks && s.tasks[x].slot == i;
        assert x in s'.tasks;
      }
    }
  }

  lemma AddedFrames(s: State, s': State, id: nat, t: Task)
    requires Added(s, s', id, t) && FramesOk(s) && s.tables.frames[t.slot] == t.template
    ensures FramesOk(s')
  {
  }

  lemma AddedBounds(s: State, s': State, id: nat, t: Task)
    requires Added(s, s', id, t) && BoundsOk(s)
    ensures BoundsOk(s')
  {
  }

  lemma AddedPointers(s: State, s': State, id: nat, t: Task)
    requires Added(s, s', id, t) && PointersOk(s) && s'.ptrs == s.ptrs && s'.spawned == s.spawned && id !in s.spawned
    ensures PointersOk(s')
  {
  }

  lemma SetBitInv(s: State)
    requires Inv(s) && s.pc.FrameWritten?
    ensures Inv(DriverStep(s))
  {
    var s', id, t := DriverStep(s), s.pc.id, s.pc.t;
    AddedTasks(s, s', id, t);
    AddedOwners(s, s', id, t);
    AddedFrames(s, s', id, t);
    AddedBounds(s, s', id, t);
    AddedPointers(s, s', id, t);
  }

  lemma BoundsRecorded(s: State, s': State, id: nat, t: Task)
    requires Sized(s) && Sized(s') && TasksOk(s) && BoundsOk(s) && s'.tasks == s.tasks && !s'.pc.BitSet?
    requires id in s.tasks && s.tasks[id] == t && t.slot < MAX_TASKS && s.pc == BitSet(id, t)
    requires s'.tables.bounds == s.tables.bounds[t.slot := (t.bottom, t.top)]
    ensures BoundsOk(s')
  {
    assert forall a :: a in s.tasks && a != id ==> s.tasks[a].slot != t.slot;
  }

  lemma SetBoundsInv(s: State)
    requires Inv(s) && s.pc.BitSet?
    ensures Inv(DriverStep(s))
  {
    assert TaskOk(s.tasks[s.pc.id]);
    var s' := DriverStep(s);
    BoundsRecorded(s, s', s.pc.id, s.pc.t);
    TasksSame(s, s');
    OwnersSame(s, s');
    FramesSame(s, s');
    PointersSame(s, s');
  }

  lemma ClearPointerInv(s: State)
    requires Inv(s) && s.pc.Releasing?
    ensures Inv(DriverStep(s))
  {
    assert TaskOk(s.tasks[s.pc.id]);
    var s' := DriverStep(s);
    ClearPointers(s, s', s.pc.id);
    TasksSame(s, s');
    OwnersSame(s, s');
    FramesSame(s, s');
    BoundsSame(s, s');
  }

  lemma FrameWipedOver(s: State, s': State, id: nat)
    requires Sized(s) && Sized(s') && TasksOk(s) && FramesOk(s) && id in s.tasks && s'.tasks == s.tasks
    requires !MidStore(s.pc) && s'.pc == FrameWiped(id) && s.tasks[id].slot < MAX_TASKS
    requires s'.tables == WriteFrame(s.tables, s.tasks[id].slot, ZERO)
    ensures FramesOk(s')
  {
    assert forall a :: a in s.tasks && a != id ==> s.tasks[a].slot != s.tasks[id].slot;
  }

  lemma WipeFrameInv(s: State)
    requires Inv(s) && s.pc.PointerCleared?
    ensures Inv(DriverStep(s))
  {
    assert TaskOk(s.tasks[s.pc.id]);
    var s' := DriverStep(s);
    FrameWipedOver(s, s', s.pc.id);
    TasksSame(s, s');
    OwnersSame(s, s');
    BoundsSame(s, s');
    PointersSame(s, s');
  }

  /** The state with task `id` gone and its slot's bit clear. */
  ghost predicate Removed(s: State, s': State, id: nat)
  {
    && Sized(s) && Sized(s') && TasksOk(s) && id in s.tasks && s.tasks[id].slot < MAX_TASKS
    && s'.tasks == s.tasks - {id} && s'.tables == s.tables.(occ := s.tables.occ - {s.tasks[id].slot})
    && s.pc == FrameWiped(id) && s'.pc == Idle
  }

  lemma RemovedTasks(s: State, s': State, id: nat)
    requires Removed(s, s', id)
    ensures TasksOk(s')
  {
    assert forall a :: a in s.tasks && a != id ==> s.tasks[a].slot != s.tasks[id].slot;
  }

  lemma RemovedOwners(s: State, s': State, id: nat)
    requires Removed(s, s', id) && SlotsOwned(s)
    ensures SlotsOwned(s')
  {
    forall i | 0 <= i < MAX_TASKS && i in s'.tables.occ ensures Owned(s', i) {
      var x :| x in s.tasks && s.tasks[x].slot == i;
      assert x in s'.tasks;
    }
  }

  lemma RemovedFrames(s: State, s': State, id: nat)
    requires Removed(s, s', id) && FramesOk(s) && s.tables.frames[s.tasks[id].slot] == ZERO
    ensures FramesOk(s')
  {
  }

  lemma RemovedBounds(s: State, s': State, id: nat)
    requires Removed(s, s', id) && BoundsOk(s)
    ensures BoundsOk(s')
  {
  }

  lemma RemovedPointers(s: State, s': State, id: nat)
    requires Removed(s, s', id) && PointersOk(s) && id !in s.spawned && s'.ptrs == s.ptrs && s'.spawned == s.spawned
    ensures PointersOk(s')
  {
  }

  lemma ClearBitRemoves(s: State)
    requires Sized(s) && TasksOk(s) && Control(s) && s.pc.FrameWiped?
    ensures Removed(s, DriverStep(s), s.pc.id) && Control(DriverStep(s))
    ensures DriverStep(s).ptrs == s.ptrs && DriverStep(s).spawned == s.spawned
  {
    assert TaskOk(s.tasks[s.pc.id]);
  }

  lemma ClearBitInv(s: State)
    requires Inv(s) && s.pc.FrameWiped?
    ensures Inv(DriverStep(s))
  {
    var s', id := DriverStep(s), s.pc.id;
    ClearBitRemoves(s);
    RemovedTasks(s, s', id);
    RemovedOwners(s, s', id);
    RemovedFrames(s, s', id);
    RemovedBounds(s, s', id);
    RemovedPointers(s, s', id);
  }

  /** Driver steps that only move flags, the stack or the published index. */
  predicate FlagStep(pc: Pc)
  {
    pc.Picked? || pc.Published? || pc.Masked? || pc.Returned? || pc.Unpublished? || pc.Checking?
  }

  lemma FlagControl(s: State)
    requires Sized(s) && Control(s) && FlagStep(s.pc)
    ensures Control(DriverStep(s))
  {
  }

  lemma FlagFields(s: State)
    requires Sized(s) && FlagStep(s.pc)
    ensures var s' := DriverStep(s);
            && !MidStore(s'.pc) && s'.tables == s.tables && s'.ptrs == s.ptrs
            && s'.tasks == s.tasks && s'.spawned == s.spawned
  {
  }

  lemma FlagStepInv(s: State)
    requires Inv(s) && FlagStep(s.pc)
    ensures Inv(DriverStep(s))
  {
    FlagControl(s);
    FlagFields(s);
    ControlOnly(s, DriverStep(s));
  }

  lemma DriverInv(hw: HwFrame, s: State)
    requires Inv(s) && Enabled(s, Advance) && !s.pc.Running?
    ensures Inv(Apply(hw, s, Advance))
  {
    match s.pc
    case SlotChosen(_, _) => WriteFreshInv(s);
    case FrameWritten(_, _) => SetBitInv(s);
    case BitSet(_, _) => SetBoundsInv(s);
    case Releasing(_) => ClearPointerInv(s);
    case PointerCleared(_) => WipeFrameInv(s);
    case FrameWiped(_) => ClearBitInv(s);
    case _ => FlagStepInv(s);
  }

  /** Every step, interrupt included, keeps the invariant. */
  lemma StepInv(hw: HwFrame, s: State, e: Event)
    requires Inv(s) && Enabled(s, e)
    ensures Inv(Apply(hw, s, e))
  {
    match e
    case Create(_, _, _, _, _) => CreateInv(hw, s, e);
    case Spawn(_) => SpawnInv(hw, s, e);
    case Timer(_) => TimerInv(hw, s, e);
    case Advance => if s.pc.Running? { TrampolineInv(hw, s); } else { DriverInv(hw, s); }
    case Schedule(_) => ScheduleInv(hw, s, e);
    case StepReturns(_) => StepReturnsInv(hw, s, e);
  }

  lemma ScheduleInv(hw: HwFrame, s: State, e: Event)
    requires Inv(s) && e.Schedule? && Enabled(s, e)
    ensures Inv(Apply(hw, s, e))
  {
    ControlOnly(s, Apply(hw, s, e));
  }

  lemma StepReturnsInv(hw: HwFrame, s: State, e: Event)
    requires Inv(s) && e.StepReturns? && Enabled(s, e)
    ensures Inv(Apply(hw, s, e))
  {
    ControlOnly(s, Apply(hw, s, e));
  }

  // --------------------------------------------------------------------- runs

  function RunTo(hw: HwFrame, s: State, events: seq<Event>): (r: State)
    requires Sized(s)
    ensures Sized(r)
    decreases |events|
  {
    if events == [] then s else RunTo(hw, Apply(hw, s, events[0]), events[1..])
  }

  ghost predicate Possible(hw: HwFrame, s: State, events: seq<Event>)
    requires Sized(s)
    decreases |events|
  {
    events == [] || (Enabled(s, events[0]) && Possible(hw, Apply(hw, s, events[0]), events[1..]))
  }

  lemma {:induction false} RunInv(hw: HwFrame, s: State, events: seq<Event>)
    requires Inv(s) && Possible(hw, s, events)
    ensures Inv(RunTo(hw, s, events))
    decreases |events|
  {
    if events != [] {
      StepInv(hw, s, events[0]);
      RunInv(hw, Apply(hw, s, events[0]), events[1..]);
    }
  }

  /** Fence safety: whenever a timer interrupt stashes, in any interleaving,
      the CPU is on the stack of the task that owns the published slot, inside
      its step window; the slot is registered and its pointer names that task;
      and no other slot's frame, and nothing else, changes. */
  lemma FenceSafety(hw: HwFrame, s0: State, events: seq<Event>, x: Interrupted)
    requires Init(s0) && Possible(hw, s0, events) && Enabled(RunTo(hw, s0, events), Timer(x))
    ensures var s := RunTo(hw, s0, events); var s' := Apply(hw, s, Timer(x));
            if Stashes(s) then
              && s.pc.Running? && (s.pc.phase.Stepping? || s.pc.phase.Stepped?)
              && s.stack == Own(s.pc.id) && s.pc.id in s.tasks && s.current == s.tasks[s.pc.id].slot
              && s.ptrs[s.current] == Some(s.pc.id)
              && s'.tables.frames[s.current] == Stash(hw, x)
              && ValidFor(s'.tables.frames[s.current], s.tasks[s.pc.id].bottom, s.tasks[s.pc.id].top)
              && s' == s.(tables := s.tables.(frames := s'.tables.frames))
              && forall j :: 0 <= j < MAX_TASKS && j != s.current ==> s'.tables.frames[j] == s.tables.frames[j]
            else s' == s
    ensures var s := RunTo(hw, s0, events); s.stack == Boot ==> !Stashes(s)
  {
    InitInv(s0);
    RunInv(hw, s0, events);
    var s := RunTo(hw, s0, events);
    if Stashes(s) {
      var t := s.tasks[s.pc.id];
      StashValid(hw, x, t.bottom, t.top);
    }
  }

  /** The trampoline always finds its own task behind the published slot. */
  lemma TrampolineFindsItself(hw: HwFrame, s0: State, events: seq<Event>)
    requires Init(s0) && Possible(hw, s0, events) && RunTo(hw, s0, events).pc.Running?
    ensures var s := RunTo(hw, s0, events); s.current < MAX_TASKS && s.ptrs[s.current] == Some(s.pc.id)
  {
    InitInv(s0);
    RunInv(hw, s0, events);
  }

  /** The scheduler's two post-switch assertions hold on every run. */
  lemma PostSwitchAsserts(hw: HwFrame, s0: State, events: seq<Event>)
    requires Init(s0) && Possible(hw, s0, events) && RunTo(hw, s0, events).pc.Checking?
    ensures var s := RunTo(hw, s0, events);
            && s.pc.id in s.tasks
            && var t := s.tasks[s.pc.id];
               ValidFor(t.template, t.bottom, t.top) && FrameOk(s.tables, t.slot)
  {
    InitInv(s0);
    RunInv(hw, s0, events);
  }

  /** Slot identity over every history: between stores, a set bit, a valid
      magic and a single live owner coincide; a pointer is set exactly for a
      spawned live task and names it; and no free slot passes `FrameOk`. */
  lemma SlotIdentity(hw: HwFrame, s0: State, events: seq<Event>, i: nat)
    requires Init(s0) && Possible(hw, s0, events) && i < MAX_TASKS && !MidStore(RunTo(hw, s0, events).pc)
    ensures var s := RunTo(hw, s0, events);
            && (i in s.tables.occ <==> s.tables.frames[i].magic == MAGIC)
            && (i in s.tables.occ <==> Owned(s, i))
            && (forall a, b :: a in s.tasks && b in s.tasks && s.tasks[a].slot == i && s.tasks[b].slot == i ==> a == b)
            && (FrameOk(s.tables, i) <==> i in s.tables.occ)
            && (forall id :: s.ptrs[i] == Some(id) <==> id in s.spawned && id in s.tasks && s.tasks[id].slot == i)
  {
    InitInv(s0);
    RunInv(hw, s0, events);
    SlotFacts(RunTo(hw, s0, events), i);
  }

  lemma SlotFacts(s: State, i: nat)
    requires Inv(s) && !MidStore(s.pc) && i < MAX_TASKS
    ensures i in s.tables.occ <==> s.tables.frames[i].magic == MAGIC
    ensures i in s.tables.occ <==> Owned(s, i)
    ensures FrameOk(s.tables, i) <==> i in s.tables.occ
    ensures forall id :: s.ptrs[i] == Some(id) <==> id in s.spawned && id in s.tasks && s.tasks[id].slot == i
  {
    if i in s.tables.occ {
      var id :| id in s.tasks && s.tasks[id].slot == i;
    }
  }

  /** `alloc_slot` never returns a live task's slot, and refuses only when
      every slot has a live owner. */
  lemma AllocSlotSafe(hw: HwFrame, s0: State, events: seq<Event>)
    requires Init(s0) && Possible(hw, s0, events) && RunTo(hw, s0, events).pc == Idle
    ensures var s := RunTo(hw, s0, events);
            match FirstFree(s.tables.occ, 0)
            case Some(slot) => forall id :: id in s.tasks ==> s.tasks[id].slot != slot
            case None => forall i :: 0 <= i < MAX_TASKS ==> Owned(s, i)
  {
    InitInv(s0);
    RunInv(hw, s0, events);
  }

  // ------------------------------------------------- bounds outlive their task

  /** Slot `i` has an owner whose window is recorded. */
  ghost predicate Settled(s: State, i: nat)
  {
    Owned(s, i) && !s.pc.BitSet?
  }

  /** Slot `i` was settled at some point of the run. */
  ghost predicate EverSettled(hw: HwFrame, s: State, events: seq<Event>, i: nat)
    requires Sized(s)
    decreases |events|
  {
    Settled(s, i) || (events != [] && EverSettled(hw, Apply(hw, s, events[0]), events[1..], i))
  }

  lemma BoundsStay(hw: HwFrame, s: State, e: Event, i: nat)
    requires Inv(s) && Enabled(s, e) && i < MAX_TASKS && SlotBounds(s.tables, i).Some?
    ensures SlotBounds(Apply(hw, s, e).tables, i).Some?
  {
    if s.pc.BitSet? && e == Advance { assert TaskOk(s.tasks[s.pc.id]); }
  }

  lemma BoundsAppear(hw: HwFrame, s: State, e: Event, i: nat)
    requires Inv(s) && Enabled(s, e) && i < MAX_TASKS && SlotBounds(s.tables, i).None?
    ensures SlotBounds(Apply(hw, s, e).tables, i).Some? ==> Settled(Apply(hw, s, e), i)
  {
    var s' := Apply(hw, s, e);
    if s.pc.BitSet? && e == Advance {
      assert s.pc.id in s'.tasks && s'.pc == Idle;
    } else {
      assert s'.tables.bounds == s.tables.bounds;
    }
  }

  lemma SettledBounds(s: State, i: nat)
    requires Inv(s) && i < MAX_TASKS && Settled(s, i)
    ensures SlotBounds(s.tables, i).Some?
  {
    var id :| id in s.tasks && s.tasks[id].slot == i;
  }

  lemma {:induction false} BoundsOverRun(hw: HwFrame, s: State, events: seq<Event>, i: nat)
    requires Inv(s) && Possible(hw, s, events) && i < MAX_TASKS
    ensures SlotBounds(RunTo(hw, s, events).tables, i).Some?
       <==> SlotBounds(s.tables, i).Some? || EverSettled(hw, s, events, i)
    decreases |events|
  {
    if Settled(s, i) { SettledBounds(s, i); }
    if events != [] {
      var s' := Apply(hw, s, events[0]);
      StepInv(hw, s, events[0]);
      BoundsOverRun(hw, s', events[1..], i);
      if SlotBounds(s.tables, i).Some? { BoundsStay(hw, s, events[0], i); } else { BoundsAppear(hw, s, events[0], i); }
    }
  }

  /** The documented "no window for a free slot" holds exactly until the slot
      first has an owner: the window is absent if and only if the slot was
      never settled, whether or not it is free now. */
  lemma NoBoundsIffNeverOwned(hw: HwFrame, s0: State, events: seq<Event>, i: nat)
    requires Init(s0) && Possible(hw, s0, events) && i < MAX_TASKS
    ensures SlotBounds(RunTo(hw, s0, events).tables, i).None? <==> !EverSettled(hw, s0, events, i)
  {
    InitInv(s0);
    BoundsOverRun(hw, s0, events, i);
  }

  // -------------------------------------------------------------- a whole life

  lemma Cons(hw: HwFrame, s: State, e: Event, rest: seq<Event>)
    requires Sized(s) && Enabled(s, e) && Possible(hw, Apply(hw, s, e), rest)
    ensures Possible(hw, s, [e] + rest) && RunTo(hw, s, [e] + rest) == RunTo(hw, Apply(hw, s, e), rest)
  {
    assert ([e] + rest)[1..] == rest;
  }

  lemma {:induction false} Concat(hw: HwFrame, s: State, a: seq<Event>, b: seq<Event>)
    requires Sized(s) && Possible(hw, s, a) && Possible(hw, RunTo(hw, s, a), b)
    ensures Possible(hw, s, a + b) && RunTo(hw, s, a + b) == RunTo(hw, RunTo(hw, s, a), b)
    decreases |a|
  {
    if a == [] {
      assert a + b == b;
    } else {
      assert (a + b)[1..] == a[1..] + b && (a + b)[0] == a[0];
      Concat(hw, Apply(hw, s, a[0]), a[1..], b);
    }
  }

  /** A run can be continued by whatever is enabled where it ends. */
  lemma Then(hw: HwFrame, s: State, run: seq<Event>, e: Event)
    requires Sized(s) && Possible(hw, s, run) && Enabled(RunTo(hw, s, run), e)
    ensures Possible(hw, s, run + [e]) && RunTo(hw, s, run + [e]) == Apply(hw, RunTo(hw, s, run), e)
  {
    Cons(hw, RunTo(hw, s, run), e, []);
    assert [e] + [] == [e];
    Concat(hw, s, run, [e]);
  }

  /** Where the code goes next. */
  function Successor(pc: Pc): Pc
  {
    match pc
    case SlotChosen(id, t) => FrameWritten(id, t)
    case FrameWritten(id, t) => BitSet(id, t)
    case BitSet(_, _) => Idle
    case Picked(id) => Published(id)
    case Published(id) => Masked(id)
    case Masked(id) => Running(id, Entered)
    case Running(id, Entered) => Running(id, IrqsOn)
    case Running(id, IrqsOn) => Running(id, Stepping)
    case Running(id, Stepped(done)) => Running(id, FenceLowered(done))
    case Running(id, FenceLowered(done)) => Running(id, IrqsOff(done))
    case Running(id, IrqsOff(done)) => Returned(id, done)
    case Returned(id, done) => Unpublished(id, done)
    case Unpublished(id, done) => Checking(id, done)
    case Checking(id, done) => if done then Releasing(id) else Idle
    case Releasing(id) => PointerCleared(id)
    case PointerCleared(id) => FrameWiped(id)
    case _ => pc
  }

  predicate SlotInRange(pc: Pc)
  {
    pc.SlotChosen? || pc.FrameWritten? || pc.BitSet? ==> pc.t.slot < MAX_TASKS
  }

  lemma InvSlotInRange(s: State)
    requires Inv(s)
    ensures SlotInRange(s.pc)
  {
    if s.pc.BitSet? { assert TaskOk(s.tasks[s.pc.id]); }
  }

  /** The code goes on from `pc` by itself. */
  predicate Onward(pc: Pc)
  {
    !pc.FrameWiped? && pc != Idle && !(pc.Running? && pc.phase == Stepping)
  }

  lemma TrampolineFollows(s: State)
    requires s.pc.Running? && s.pc.phase != Stepping
    ensures TrampolineStep(s).pc == Successor(s.pc)
  {
  }

  lemma DriverFollows(s: State)
    requires Sized(s) && SlotInRange(s.pc) && !s.pc.Running? && !s.pc.FrameWiped? && s.pc != Idle
    ensures DriverStep(s).pc == Successor(s.pc)
  {
  }

  lemma AdvanceFollows(hw: HwFrame, s: State)
    requires Sized(s) && SlotInRange(s.pc) && Onward(s.pc)
    ensures Apply(hw, s, Advance).pc == Successor(s.pc)
  {
    if s.pc.Running? { TrampolineFollows(s); } else { DriverFollows(s); }
  }

  /** A run from `s0` that is possible and stands at `pc`. */
  ghost predicate Stands(hw: HwFrame, s0: State, run: seq<Event>, pc: Pc)
  {
    Sized(s0) && Possible(hw, s0, run) && RunTo(hw, s0, run).pc == pc
  }

  lemma StandsThen(hw: HwFrame, s0: State, run: seq<Event>, pc: Pc, e: Event)
    requires Stands(hw, s0, run, pc) && Enabled(RunTo(hw, s0, run), e)
    ensures Stands(hw, s0, run + [e], Apply(hw, RunTo(hw, s0, run), e).pc)
    ensures RunTo(hw, s0, run + [e]) == Apply(hw, RunTo(hw, s0, run), e)
  {
    Then(hw, s0, run, e);
  }

  lemma Follow(hw: HwFrame, s0: State, run: seq<Event>, pc: Pc) returns (longer: seq<Event>)
    requires Inv(s0) && Stands(hw, s0, run, pc) && Onward(pc)
    ensures Stands(hw, s0, longer, Successor(pc))
  {
    RunInv(hw, s0, run);
    InvSlotInRange(RunTo(hw, s0, run));
    AdvanceFollows(hw, RunTo(hw, s0, run));
    StandsThen(hw, s0, run, pc, Advance);
    longer := run + [Advance];
  }

  function Walk(pc: Pc, n: nat): Pc
    decreases n
  {
    if n == 0 then pc else Walk(Successor(pc), n - 1)
  }

  predicate Walkable(pc: Pc, n: nat)
    decreases n
  {
    n == 0 || (Onward(pc) && Walkable(Successor(pc), n - 1))
  }

  lemma {:induction false} FollowTo(hw: HwFrame, s0: State, run: seq<Event>, pc: Pc, n: nat)
    returns (longer: seq<Event>)
    requires Inv(s0) && Stands(hw, s0, run, pc) && Walkable(pc, n)
    ensures Stands(hw, s0, longer, Walk(pc, n))
    decreases n
  {
    if n == 0 { return run; }
    var next := Successor(pc);
    assert Onward(pc) && Walkable(next, n - 1) && Walk(pc, n) == Walk(next, n - 1);
    longer := Follow(hw, s0, run, pc);
    longer := FollowTo(hw, s0, longer, next, n - 1);
  }

  lemma IntoStep(id: nat)
    ensures Walkable(Picked(id), 5) && Walk(Picked(id), 5) == Running(id, Stepping)
  {
    assert Walkable(Masked(id), 3) && Walk(Masked(id), 3) == Running(id, Stepping);
  }

  lemma OutOfStep(id: nat)
    ensures Walkable(Running(id, Stepped(true)), 8) && Walk(Running(id, Stepped(true)), 8) == FrameWiped(id)
  {
    assert Walkable(Checking(id, true), 3) && Walk(Checking(id, true), 3) == FrameWiped(id);
    assert Walkable(Returned(id, true), 5) && Walk(Returned(id, true), 5) == FrameWiped(id);
  }

  lemma CreateFollows(hw: HwFrame, s: State, e: Event)
    requires Sized(s) && e.Create? && Enabled(s, e)
    ensures Apply(hw, s, e).pc.SlotChosen? && Apply(hw, s, e).pc.id == e.id
  {
  }

  lemma BitSetFollows(hw: HwFrame, s: State)
    requires Inv(s) && s.pc.BitSet?
    ensures var s' := Apply(hw, s, Advance); s.pc.id in s'.tasks && s.pc.id !in s'.spawned && s'.pc == Idle
  {
    InvSlotInRange(s);
  }

  /** A created task is registered four steps later. */
  lemma Registers(hw: HwFrame, s0: State, run: seq<Event>, e: Event) returns (longer: seq<Event>)
    requires Inv(s0) && Stands(hw, s0, run, Idle) && e.Create? && Enabled(RunTo(hw, s0, run), e)
    ensures Stands(hw, s0, longer, Idle)
    ensures e.id in RunTo(hw, s0, longer).tasks && e.id !in RunTo(hw, s0, longer).spawned
  {
    CreateFollows(hw, RunTo(hw, s0, run), e);
    var t := Apply(hw, RunTo(hw, s0, run), e).pc.t;
    StandsThen(hw, s0, run, Idle, e);
    longer := Follow(hw, s0, run + [e], SlotChosen(e.id, t));
    longer := Follow(hw, s0, longer, FrameWritten(e.id, t));
    RunInv(hw, s0, longer);
    BitSetFollows(hw, RunTo(hw, s0, longer));
    StandsThen(hw, s0, longer, BitSet(e.id, t), Advance);
    longer := longer + [Advance];
  }

  lemma SpawnFollows(hw: HwFrame, s: State, id: nat)
    requires Sized(s) && Enabled(s, Spawn(id))
    ensures var s' := Apply(hw, s, Spawn(id)); s'.pc == Idle && Enabled(s', Schedule(id))
    ensures var s' := Apply(hw, s, Spawn(id)); Apply(hw, s', Schedule(id)).pc == Picked(id)
  {
  }

  /** A registered task can be spawned and scheduled into its step window. */
  lemma Steps(hw: HwFrame, s0: State, run: seq<Event>, id: nat) returns (longer: seq<Event>)
    requires Inv(s0) && Stands(hw, s0, run, Idle)
    requires id in RunTo(hw, s0, run).tasks && id !in RunTo(hw, s0, run).spawned
    ensures Stands(hw, s0, longer, Running(id, Stepping))
  {
    SpawnFollows(hw, RunTo(hw, s0, run), id);
    StandsThen(hw, s0, run, Idle, Spawn(id));
    StandsThen(hw, s0, run + [Spawn(id)], Idle, Schedule(id));
    IntoStep(id);
    longer := FollowTo(hw, s0, run + [Spawn(id)] + [Schedule(id)], Picked(id), 5);
  }

  /** In its step window a task is preemptible: an interrupt now would stash. */
  lemma StepWindowStashes(s: State)
    requires Inv(s) && s.pc.Running? && s.pc.phase == Stepping
    ensures s.ifl && Stashes(s)
  {
    assert TaskOk(s.tasks[s.pc.id]);
  }

  /** A task whose step says it is done is released down to its bit. */
  lemma Retires(hw: HwFrame, s0: State, run: seq<Event>, id: nat) returns (longer: seq<Event>)
    requires Inv(s0) && Stands(hw, s0, run, Running(id, Stepping))
    ensures Stands(hw, s0, longer, FrameWiped(id))
  {
    StandsThen(hw, s0, run, Running(id, Stepping), StepReturns(true));
    OutOfStep(id);
    longer := FollowTo(hw, s0, run + [StepReturns(true)], Running(id, Stepped(true)), 8);
  }

  /** The last store of a release frees the slot and leaves its window. */
  lemma ReleaseLeavesBounds(hw: HwFrame, s: State, id: nat)
    requires Inv(s) && s.pc == FrameWiped(id)
    ensures var s' := Apply(hw, s, Advance); var i := s.tasks[id].slot;
            i < MAX_TASKS && i !in s'.tables.occ && SlotBounds(s'.tables, i).Some? && s'.pc == Idle
  {
    assert TaskOk(s.tasks[id]);
  }

  /** The documented property fails: from boot, any task's whole life is a
      possible run, and at its end its slot is free with a window recorded. */
  lemma FreeSlotWithBounds(hw: HwFrame, s0: State, e: Event) returns (run: seq<Event>, i: nat)
    requires Init(s0) && e.Create? && Enabled(s0, e)
    ensures i < MAX_TASKS && Stands(hw, s0, run, Idle)
    ensures var s := RunTo(hw, s0, run); i !in s.tables.occ && SlotBounds(s.tables, i).Some?
  {
    InitInv(s0);
    run := Registers(hw, s0, [], e);
    run := Steps(hw, s0, run, e.id);
    run := Retires(hw, s0, run, e.id);
    RunInv(hw, s0, run);
    ReleaseLeavesBounds(hw, RunTo(hw, s0, run), e.id);
    i := RunTo(hw, s0, run).tasks[e.id].slot;
    StandsThen(hw, s0, run, FrameWiped(e.id), Advance);
    run := run + [Advance];
  }

  // ------------------------------------------------------- verdicts and release

  /** The code carries the verdict that `id` is done. */
  predicate Doomed(pc: Pc, id: nat)
  {
    match pc
    case Running(i, Stepped(done)) => i == id && done
    case Running(i, FenceLowered(done)) => i == id && done
    case Running(i, IrqsOff(done)) => i == id && done
    case Returned(i, done) => i == id && done
    case Unpublished(i, done) => i == id && done
    case Checking(i, done) => i == id && done
    case Releasing(i) => i == id
    case PointerCleared(i) => i == id
    case FrameWiped(i) => i == id
    case _ => false
  }

  /** Somewhere in the run a step of `id` returned that it is done. */
  ghost predicate SaidDone(hw: HwFrame, s: State, events: seq<Event>, id: nat)
    requires Sized(s)
    decreases |events|
  {
    events != [] &&
    ((events[0] == StepReturns(true) && s.pc == Running(id, Stepping))
     || SaidDone(hw, Apply(hw, s, events[0]), events[1..], id))
  }

  /** Until a step of `id` says it is done, no step of the machine takes `id`
      away. */
  lemma NotDoomedStep(hw: HwFrame, s: State, e: Event, id: nat)
    requires Inv(s) && Enabled(s, e) && !Doomed(s.pc, id) && !(e == StepReturns(true) && s.pc == Running(id, Stepping))
    ensures var s' := Apply(hw, s, e);
            && !Doomed(s'.pc, id) && (id in s.tasks ==> id in s'.tasks) && (id in s.spawned ==> id in s'.spawned)
  {
    if e == Advance {
      if s.pc.Running? { TrampolineSpares(s, id); } else { DriverSpares(s, id); }
    }
  }

  lemma TrampolineSpares(s: State, id: nat)
    requires s.pc.Running? && !Doomed(s.pc, id)
    ensures !Doomed(TrampolineStep(s).pc, id)
    ensures TrampolineStep(s).tasks == s.tasks && TrampolineStep(s).spawned == s.spawned
  {
  }

  lemma DriverSpares(s: State, id: nat)
    requires Sized(s) && !Doomed(s.pc, id)
    ensures var s' := DriverStep(s);
            && !Doomed(s'.pc, id) && (id in s.tasks ==> id in s'.tasks) && (id in s.spawned ==> id in s'.spawned)
  {
  }

  /** A task goes only when it said so: from any reachable state in which the
      code does not already carry its verdict, a run that takes `id` off the
      spawned or the live tasks contains a step of `id` that returned done. */
  lemma {:induction false} LeavesOnlyWhenDone(hw: HwFrame, s: State, events: seq<Event>, id: nat)
    requires Inv(s) && Possible(hw, s, events) && !Doomed(s.pc, id)
    requires var z := RunTo(hw, s, events); (id in s.tasks && id !in z.tasks) || (id in s.spawned && id !in z.spawned)
    ensures SaidDone(hw, s, events, id)
    decreases |events|
  {
    var e := events[0];
    if !(e == StepReturns(true) && s.pc == Running(id, Stepping)) {
      StepInv(hw, s, e);
      NotDoomedStep(hw, s, e, id);
      LeavesOnlyWhenDone(hw, Apply(hw, s, e), events[1..], id);
    }
  }

  function AdvanceCount(events: seq<Event>): nat
    decreases |events|
  {
    if events == [] then 0 else (if events[0] == Advance then 1 else 0) + AdvanceCount(events[1..])
  }

  /** The frames agree except in slot `i`. */
  ghost predicate FramesExcept(s: State, s': State, i: nat)
    requires Sized(s) && Sized(s')
  {
    forall j :: 0 <= j < MAX_TASKS && j != i ==> s'.tables.frames[j] == s.tables.frames[j]
  }

  /** Nothing but `id`'s own frame changed. */
  ghost predicate StillQueued(s: State, s': State, id: nat)
    requires Sized(s) && Sized(s')
  {
    && s'.tasks == s.tasks && s'.spawned == s.spawned && s'.ptrs == s.ptrs
    && s'.tables.bounds == s.tables.bounds && s'.tables.occ == s.tables.occ && FramesExcept(s, s', SlotOf(s, id))
  }

  /** `id` is gone, its slot's pointer and bit are clear and its frame is wiped;
      every other task has all it had, and the window stays. */
  ghost predicate GoneFrom(s: State, s': State, id: nat)
    requires Sized(s) && Sized(s')
  {
    var i := SlotOf(s, id);
    && s'.tasks == s.tasks - {id} && s'.spawned == s.spawned - {id} && s'.ptrs == s.ptrs[i := None]
    && s'.tables.bounds == s.tables.bounds && s'.tables.occ == s.tables.occ - {i}
    && FramesExcept(s, s', i) && s'.tables.frames[i] == ZERO
  }

  /** The code carries the verdict `done` on `id`, or is back at idle. */
  predicate Bears(pc: Pc, id: nat, done: bool)
  {
    || pc == Idle
    || (pc.Running? && pc.id == id && (pc.phase.Stepped? || pc.phase.FenceLowered? || pc.phase.IrqsOff?) && pc.phase.done == done)
    || ((pc.Returned? || pc.Unpublished? || pc.Checking?) && pc.id == id && pc.done == done)
    || (done && (pc.Releasing? || pc.PointerCleared? || pc.FrameWiped?) && pc.id == id)
  }

  /** Between a step's verdict and idle: what the state at `s'.pc` owes to the
      state `s` the step returned in. */
  ghost predicate Settling(s: State, s': State, id: nat, done: bool)
    requires Sized(s) && Sized(s')
  {
    && Bears(s'.pc, id, done)
    && if s'.pc.PointerCleared? then PointerGone(s, s', id)
       else if s'.pc.FrameWiped? then PointerGone(s, s', id) && s'.tables.frames[SlotOf(s, id)] == ZERO
       else if s'.pc == Idle && done then GoneFrom(s, s', id)
       else StillQueued(s, s', id)
  }

  ghost predicate PointerGone(s: State, s': State, id: nat)
    requires Sized(s) && Sized(s')
  {
    && s'.tasks == s.tasks && s'.spawned == s.spawned - {id} && s'.ptrs == s.ptrs[SlotOf(s, id) := None]
    && s'.tables.bounds == s.tables.bounds && s'.tables.occ == s.tables.occ && FramesExcept(s, s', SlotOf(s, id))
  }

  /** Code steps from a verdict to idle. */
  function ToGo(pc: Pc): nat
  {
    match pc
    case Running(_, Stepped(d)) => if d then 9 else 6
    case Running(_, FenceLowered(d)) => if d then 8 else 5
    case Running(_, IrqsOff(d)) => if d then 7 else 4
    case Returned(_, d) => if d then 6 else 3
    case Unpublished(_, d) => if d then 5 else 2
    case Checking(_, d) => if d then 4 else 1
    case Releasing(_) => 3
    case PointerCleared(_) => 2
    case FrameWiped(_) => 1
    case _ => 0
  }

  lemma SettlingTimer(hw: HwFrame, s: State, s': State, e: Event, id: nat, done: bool)
    requires Sized(s) && Inv(s') && Settling(s, s', id, done) && s'.pc != Idle && e.Timer? && Enabled(s', e)
    ensures var t := Apply(hw, s', e); t.pc == s'.pc && Settling(s, t, id, done)
  {
    if Stashes(s') { StashOwner(s'); }
  }

  lemma SettlingTrampoline(s: State, s': State, id: nat, done: bool)
    requires Sized(s) && Sized(s') && Settling(s, s', id, done) && s'.pc.Running?
    ensures var t := TrampolineStep(s'); ToGo(t.pc) == ToGo(s'.pc) - 1 && Settling(s, t, id, done)
  {
  }

  lemma SettlingDriver(s: State, s': State, id: nat, done: bool)
    requires Sized(s) && Sized(s') && Settling(s, s', id, done) && s'.pc != Idle && !s'.pc.Running?
    ensures var t := DriverStep(s'); ToGo(t.pc) == ToGo(s'.pc) - 1 && Settling(s, t, id, done)
  {
  }

  lemma SettlingStep(hw: HwFrame, s: State, s': State, e: Event, id: nat, done: bool)
    requires Sized(s) && Inv(s') && Settling(s, s', id, done) && s'.pc != Idle && Enabled(s', e)
    ensures var t := Apply(hw, s', e);
            && Settling(s, t, id, done) && ToGo(t.pc) == ToGo(s'.pc) - (if e == Advance then 1 else 0)
  {
    if e == Advance {
      if s'.pc.Running? { SettlingTrampoline(s, s', id, done); } else { SettlingDriver(s, s', id, done); }
    } else {
      SettlingTimer(hw, s, s', e, id, done);
    }
  }

  /** A prefix of a possible run is possible, and its next event enabled. */
  lemma {:induction false} PossibleAt(hw: HwFrame, s: State, events: seq<Event>, n: nat)
    requires Sized(s) && Possible(hw, s, events) && n < |events|
    ensures Possible(hw, s, events[..n]) && Enabled(RunTo(hw, s, events[..n]), events[n])
    ensures RunTo(hw, s, events[..n + 1]) == Apply(hw, RunTo(hw, s, events[..n]), events[n])
    decreases |events|
  {
    if n == 0 {
      assert events[..1][1..] == [];
    } else {
      assert events[..n][1..] == events[1..][..n - 1] && events[..n + 1][1..] == events[1..][..n];
      PossibleAt(hw, Apply(hw, s, events[0]), events[1..], n - 1);
    }
  }

  lemma {:induction false} AdvanceCountSnoc(events: seq<Event>, n: nat)
    requires n < |events|
    ensures AdvanceCount(events[..n + 1]) == AdvanceCount(events[..n]) + if events[n] == Advance then 1 else 0
    decreases |events|
  {
    if n == 0 {
      assert events[..1][1..] == [];
    } else {
      assert events[..n][1..] == events[1..][..n - 1] && events[..n + 1][1..] == events[1..][..n];
      AdvanceCountSnoc(events[1..], n - 1);
    }
  }

  /** Idle, with what the verdict calls for. */
  ghost predicate AtRest(s: State, z: State, id: nat, done: bool)
    requires Sized(s)
  {
    Sized(z) && z.pc == Idle && if done then GoneFrom(s, z, id) else StillQueued(s, z, id)
  }

  /** One of the first `n` states of the run is at rest. */
  ghost predicate RestsBy(hw: HwFrame, s: State, s1: State, events: seq<Event>, n: nat, id: nat, done: bool)
    requires Sized(s) && Sized(s1) && n <= |events|
  {
    exists m :: 0 <= m <= n && AtRest(s, RunTo(hw, s1, events[..m]), id, done)
  }

  /** After `n` events the code is still on its way, one step nearer for each
      step it made. */
  ghost predicate OnItsWay(hw: HwFrame, s: State, s1: State, events: seq<Event>, n: nat, id: nat, done: bool)
    requires Sized(s) && Sized(s1) && n <= |events|
  {
    var z := RunTo(hw, s1, events[..n]);
    z.pc != Idle && Settling(s, z, id, done) && ToGo(z.pc) + AdvanceCount(events[..n]) == ToGo(s1.pc)
  }

  lemma SettleOnce(hw: HwFrame, s: State, s1: State, events: seq<Event>, n: nat, id: nat, done: bool)
    requires Sized(s) && Inv(s1) && Possible(hw, s1, events) && n < |events| && OnItsWay(hw, s, s1, events, n, id, done)
    ensures RestsBy(hw, s, s1, events, n + 1, id, done) || OnItsWay(hw, s, s1, events, n + 1, id, done)
  {
    PossibleAt(hw, s1, events, n);
    RunInv(hw, s1, events[..n]);
    AdvanceCountSnoc(events, n);
    SettlingStep(hw, s, RunTo(hw, s1, events[..n]), events[n], id, done);
    RestsOrGoesOn(hw, s, s1, events, n + 1, id, done);
  }

  lemma RestsOrGoesOn(hw: HwFrame, s: State, s1: State, events: seq<Event>, n: nat, id: nat, done: bool)
    requires Sized(s) && Sized(s1) && n <= |events| && Settling(s, RunTo(hw, s1, events[..n]), id, done)
    ensures RunTo(hw, s1, events[..n]).pc == Idle ==> RestsBy(hw, s, s1, events, n, id, done)
  {
    var z := RunTo(hw, s1, events[..n]);
    if z.pc == Idle { assert AtRest(s, z, id, done); }
  }

  /** Whatever interrupts come in between, enough code steps after a verdict
      reach idle with what the verdict calls for. */
  lemma {:induction false} Settles(hw: HwFrame, s: State, s1: State, events: seq<Event>, n: nat, id: nat, done: bool)
    requires Sized(s) && Inv(s1) && Possible(hw, s1, events) && n <= |events| && OnItsWay(hw, s, s1, events, 0, id, done)
    ensures RestsBy(hw, s, s1, events, n, id, done) || OnItsWay(hw, s, s1, events, n, id, done)
    decreases n
  {
    if n > 0 {
      Settles(hw, s, s1, events, n - 1, id, done);
      if OnItsWay(hw, s, s1, events, n - 1, id, done) { SettleOnce(hw, s, s1, events, n - 1, id, done); }
    }
  }

  lemma VerdictStarts(hw: HwFrame, s: State, events: seq<Event>, id: nat, done: bool)
    requires Sized(s) && s.pc == Running(id, Stepping)
    ensures OnItsWay(hw, s, Apply(hw, s, StepReturns(done)), events, 0, id, done)
    ensures ToGo(Apply(hw, s, StepReturns(done)).pc) == if done then 9 else 6
  {
    assert events[..0] == [];
  }

  lemma RestsInTheEnd(hw: HwFrame, s: State, s1: State, events: seq<Event>, id: nat, done: bool)
    requires Sized(s) && Inv(s1) && Possible(hw, s1, events) && AdvanceCount(events) >= ToGo(s1.pc)
    requires OnItsWay(hw, s, s1, events, 0, id, done)
    ensures RestsBy(hw, s, s1, events, |events|, id, done)
  {
    Settles(hw, s, s1, events, |events|, id, done);
    assert events[..|events|] == events;
    if OnItsWay(hw, s, s1, events, |events|, id, done) { NotThereYet(RunTo(hw, s1, events).pc, id, done); }
  }

  lemma NotThereYet(pc: Pc, id: nat, done: bool)
    requires Bears(pc, id, done) && pc != Idle
    ensures ToGo(pc) > 0
  {
  }

  /** The verdict decides: after a step of `id` returns, every run with enough
      code steps comes to idle; then a task that is not done is queued as
      before, with its slot, pointer and window, and a task that is done is
      gone with its pointer, frame and bit, and nobody else has lost
      anything. */
  lemma VerdictDecides(hw: HwFrame, s: State, events: seq<Event>, id: nat, done: bool) returns (n: nat)
    requires Inv(s) && s.pc == Running(id, Stepping) && Possible(hw, s, [StepReturns(done)] + events)
    requires AdvanceCount(events) >= if done then 9 else 6
    ensures n <= |events| && AtRest(s, RunTo(hw, Apply(hw, s, StepReturns(done)), events[..n]), id, done)
  {
    assert ([StepReturns(done)] + events)[1..] == events;
    var s1 := Apply(hw, s, StepReturns(done));
    StepInv(hw, s, StepReturns(done));
    VerdictStarts(hw, s, events, id, done);
    RestsInTheEnd(hw, s, s1, events, id, done);
    n :| 0 <= n <= |events| && AtRest(s, RunTo(hw, s1, events[..n]), id, done);
  }

  // ------------------------------------------------------------- registration

  /** The new task has the lowest free slot; its frame would enter `entry` with
      selector `cs` one word below `top`, registers zero and interrupts on; its
      bit is set and its window recorded; nothing else changed. */
  ghost predicate Registered(s: State, s': State, e: Event)
    requires Sized(s) && Sized(s') && e.Create?
  {
    && e.id in s'.tasks
    && var t := s'.tasks[e.id];
       && t.slot < 7 && t.slot !in s.tables.occ && (forall j :: 0 <= j < t.slot ==> j in s.tables.occ)
       && t.template.rip == e.entry && t.template.cs == e.cs && t.template.rsp == e.top - 8
       && t.template.rflags == 0x202 && t.template.gprs == ZERO_GPRS && t.template.magic == 0x5052_4545_4D50_5434
       && t.bottom == e.bottom && t.top == e.top
       && s'.tables == Tables(s.tables.frames[t.slot := t.template], s.tables.bounds[t.slot := (e.bottom, e.top)],
                              s.tables.occ + {t.slot})
       && s'.tasks == s.tasks[e.id := t] && s'.spawned == s.spawned && s'.ptrs == s.ptrs
  }

  /** On the way there: what has been stored so far. */
  ghost predicate Registering(s: State, s': State, e: Event, t: Task)
    requires Sized(s) && Sized(s') && e.Create? && t.slot < MAX_TASKS
  {
    match s'.pc
    case SlotChosen(i, u) => i == e.id && u == t && s' == s.(pc := s'.pc)
    case FrameWritten(i, u) => i == e.id && u == t && s' == s.(pc := s'.pc, tables := WriteFrame(s.tables, t.slot, t.template))
    case BitSet(i, u) =>
      && i == e.id && u == t
      && s' == s.(pc := s'.pc, tasks := s.tasks[e.id := t],
                  tables := WriteFrame(s.tables, t.slot, t.template).(occ := s.tables.occ + {t.slot}))
    case Idle => Registered(s, s', e)
    case _ => false
  }

  function StoresLeft(pc: Pc): nat
  {
    match pc
    case SlotChosen(_, _) => 3
    case FrameWritten(_, _) => 2
    case BitSet(_, _) => 1
    case _ => 0
  }

  /** The task `Create` makes. */
  ghost predicate NewTask(s: State, e: Event, t: Task)
    requires Sized(s) && e.Create?
  {
    && t.slot < 7 && t.slot !in s.tables.occ && (forall j :: 0 <= j < t.slot ==> j in s.tables.occ)
    && t.bottom == e.bottom && t.top == e.top && e.top >= 8
    && t.template == FullFrame(ZERO_GPRS, e.top - 8, e.entry, e.cs, 0x202, 0x5052_4545_4D50_5434)
  }

  lemma RegisteringStep(hw: HwFrame, s: State, s': State, f: Event, e: Event, t: Task)
    requires Inv(s') && Sized(s) && e.Create? && NewTask(s, e, t) && Registering(s, s', e, t) && s'.pc != Idle
    requires Enabled(s', f)
    ensures var u := Apply(hw, s', f);
            && Registering(s, u, e, t) && (f == Advance ==> StoresLeft(u.pc) == StoresLeft(s'.pc) - 1)
            && (f != Advance ==> u.pc == s'.pc)
  {
  }

  /** One of the first `n` states of the run has the task registered. */
  ghost predicate RegisteredBy(hw: HwFrame, s: State, s1: State, events: seq<Event>, n: nat, e: Event)
    requires Sized(s) && Sized(s1) && n <= |events| && e.Create?
  {
    exists m :: 0 <= m <= n && AllStored(s, RunTo(hw, s1, events[..m]), e)
  }

  ghost predicate AllStored(s: State, z: State, e: Event)
    requires Sized(s) && e.Create?
  {
    Sized(z) && z.pc == Idle && Registered(s, z, e)
  }

  ghost predicate StillStoring(hw: HwFrame, s: State, s1: State, events: seq<Event>, n: nat, e: Event, t: Task)
    requires Sized(s) && Sized(s1) && n <= |events| && e.Create? && t.slot < MAX_TASKS
  {
    var z := RunTo(hw, s1, events[..n]);
    z.pc != Idle && Registering(s, z, e, t) && StoresLeft(z.pc) + AdvanceCount(events[..n]) == StoresLeft(s1.pc)
  }

  lemma StoreOnce(hw: HwFrame, s: State, s1: State, events: seq<Event>, n: nat, e: Event, t: Task)
    requires Sized(s) && Inv(s1) && Possible(hw, s1, events) && n < |events| && e.Create? && NewTask(s, e, t)
    requires StillStoring(hw, s, s1, events, n, e, t)
    ensures RegisteredBy(hw, s, s1, events, n + 1, e) || StillStoring(hw, s, s1, events, n + 1, e, t)
  {
    PossibleAt(hw, s1, events, n);
    RunInv(hw, s1, events[..n]);
    AdvanceCountSnoc(events, n);
    var z := RunTo(hw, s1, events[..n]);
    RegisteringStep(hw, s, z, events[n], e, t);
    if Apply(hw, z, events[n]).pc == Idle { assert AllStored(s, RunTo(hw, s1, events[..n + 1]), e); }
  }

  lemma {:induction false} Stores(hw: HwFrame, s: State, s1: State, events: seq<Event>, n: nat, e: Event, t: Task)
    requires Sized(s) && Inv(s1) && Possible(hw, s1, events) && n <= |events| && e.Create? && NewTask(s, e, t)
    requires s1.pc != Idle && Registering(s, s1, e, t)
    ensures RegisteredBy(hw, s, s1, events, n, e) || StillStoring(hw, s, s1, events, n, e, t)
    decreases n
  {
    if n > 0 {
      Stores(hw, s, s1, events, n - 1, e, t);
      if StillStoring(hw, s, s1, events, n - 1, e, t) { StoreOnce(hw, s, s1, events, n - 1, e, t); }
    }
  }

  lemma CreateMakes(hw: HwFrame, s: State, e: Event)
    requires Sized(s) && e.Create? && Enabled(s, e)
    ensures var s' := Apply(hw, s, e); s'.pc.SlotChosen? && NewTask(s, e, s'.pc.t) && Registering(s, s', e, s'.pc.t)
  {
  }

  /** Registration completes: whatever interrupts come in between, three code
      steps after a task is created it is registered as asked. */
  lemma RegistrationCompletes(hw: HwFrame, s: State, e: Event, events: seq<Event>) returns (n: nat)
    requires Inv(s) && e.Create? && Possible(hw, s, [e] + events) && AdvanceCount(events) >= 3
    ensures n <= |events|
    ensures AllStored(s, RunTo(hw, Apply(hw, s, e), events[..n]), e)
  {
    assert ([e] + events)[1..] == events;
    StepInv(hw, s, e);
    CreateMakes(hw, s, e);
    var s1 := Apply(hw, s, e);
    Stores(hw, s, s1, events, |events|, e, s1.pc.t);
    assert events[..|events|] == events;
    n :| 0 <= n <= |events| && AllStored(s, RunTo(hw, s1, events[..n]), e);
  }
}
