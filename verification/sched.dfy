/** Tasks, the two scheduling policies, and what one pass of each does. */
module Sched {
  import opened Common

  /** `CFS_BASE_SLICE * 1024`. */
  const SLICE: nat := 102400

  datatype State = Ready | Running | Sleeping(until: nat) | Finished

  datatype Task = Task(id: nat, state: State, runs: nat, vruntime: nat, weight: nat)

  /** A ledger line. */
  datatype Entry = Entry(id: nat, runs: nat)

  datatype Scheduler = Scheduler(ready: seq<Task>, finished: seq<Entry>)

  datatype Policy = RR | CFS

  predicate Asleep(t: Task, now: nat)
  {
    t.state.Sleeping? && now < t.state.until
  }

  /** Tick readings never go back. */
  ghost predicate Clock(clock: nat -> nat)
  {
    forall i: nat, j: nat :: i <= j ==> clock(i) <= clock(j)
  }

  // -------------------------------------------------------------- pick-next

  /** Round robin: the first task, from `k`, whose tick reading finds it awake. */
  function FirstAwake(q: seq<Task>, clock: nat -> nat, k: nat): (r: nat)
    requires k <= |q|
    ensures k <= r <= |q|
    decreases |q| - k
  {
    if k == |q| || !Asleep(q[k], clock(k)) then k else FirstAwake(q, clock, k + 1)
  }

  lemma {:induction false} FirstAwakeSpec(q: seq<Task>, clock: nat -> nat, k: nat)
    requires k <= |q|
    ensures var r := FirstAwake(q, clock, k);
            && (forall j :: k <= j < r ==> q[j].state.Sleeping? && clock(j) < q[j].state.until)
            && (r < |q| ==> !(q[r].state.Sleeping? && clock(r) < q[r].state.until))
    decreases |q| - k
  {
    if k < |q| && Asleep(q[k], clock(k)) { FirstAwakeSpec(q, clock, k + 1); }
  }

  /** `i` is the first task of least vruntime among those not sleeping past
      `now`; `|q|` if there is none. */
  ghost predicate IsPick(q: seq<Task>, now: nat, i: nat)
  {
    && i <= |q|
    && (i == |q| ==> forall j :: 0 <= j < |q| ==> q[j].state.Sleeping? && now < q[j].state.until)
    && (i < |q| ==>
          && !(q[i].state.Sleeping? && now < q[i].state.until)
          && (forall j :: 0 <= j < |q| && !(q[j].state.Sleeping? && now < q[j].state.until) ==>
                q[i].vruntime <= q[j].vruntime && (j < i ==> q[i].vruntime < q[j].vruntime)))
  }

  function PickMin(q: seq<Task>, now: nat): (i: nat)
    ensures i <= |q|
    decreases |q|
  {
    if q == [] then 0
    else
      var n := |q| - 1;
      var p := PickMin(q[..n], now);
      if Asleep(q[n], now) then (if p == n then n + 1 else p)
      else if p == n || q[n].vruntime < q[p].vruntime then n
      else p
  }

  lemma {:induction false} PickMinSpec(q: seq<Task>, now: nat)
    ensures IsPick(q, now, PickMin(q, now))
    decreases |q|
  {
    if q != [] { PickMinSpec(q[..|q| - 1], now); }
  }

  lemma PickUnique(q: seq<Task>, now: nat, i: nat, j: nat)
    requires IsPick(q, now, i) && IsPick(q, now, j)
    ensures i == j
  {
  }

  /** Least vruntime queued, sleepers included; 0 for an empty queue. */
  function MinVruntime(q: seq<Task>): (v: nat)
    ensures forall t :: t in q ==> v <= t.vruntime
    ensures q == [] ==> v == 0
    ensures q != [] ==> exists t :: t in q && t.vruntime == v
    decreases |q|
  {
    if q == [] then 0
    else
      var n := |q| - 1;
      var v := MinVruntime(q[..n]);
      assert q == q[..n] + [q[n]];
      if n == 0 || q[n].vruntime < v then q[n].vruntime else v
  }

  /** The queue index a pass runs; `|q|` when nobody is awake. */
  function Pick(p: Policy, q: seq<Task>, clock: nat -> nat): (k: nat)
    ensures k <= |q|
  {
    match p
    case RR => FirstAwake(q, clock, 0)
    case CFS => PickMin(q, clock(0))
  }

  // -------------------------------------------------------------- one pass

  function SatAdd(a: nat, b: nat): nat
  {
    if a + b <= U64_MAX then a + b else U64_MAX
  }

  /** What one run costs a task of weight `w`. */
  function SliceOf(w: nat): nat
  {
    SLICE / (if w == 0 then 1 else w)
  }

  function Slice(t: Task): nat
  {
    SliceOf(t.weight)
  }

  /** The trampoline: one step, counted, with the step's verdict. */
  function Ran(t: Task, alive: bool): Task
  {
    t.(runs := t.runs + 1, state := if alive then Ready else Finished)
  }

  /** A woken sleeper is raised to the least vruntime queued. */
  function Woken(t: Task, rest: seq<Task>): Task
  {
    if t.state.Sleeping? && t.vruntime < MinVruntime(rest) then t.(vruntime := MinVruntime(rest)) else t
  }

  /** The queue without task `k`: round robin also sends the sleepers it
      passed over to the back. */
  function Rest(p: Policy, q: seq<Task>, k: nat): seq<Task>
    requires k < |q|
  {
    match p
    case RR => q[k + 1..] + q[..k]
    case CFS => q[..k] + q[k + 1..]
  }

  function Served(p: Policy, q: seq<Task>, k: nat, alive: bool): Task
    requires k < |q|
  {
    match p
    case RR => Ran(q[k], alive)
    case CFS =>
      var t := Ran(Woken(q[k], Rest(p, q, k)), alive);
      t.(vruntime := SatAdd(t.vruntime, Slice(t)))
  }

  /** `schedule_once`, given the tick readings and the step's verdict. */
  function Pass(p: Policy, s: Scheduler, clock: nat -> nat, alive: bool): Scheduler
  {
    var k := Pick(p, s.ready, clock);
    if k == |s.ready| then s
    else
      var t, rest := Served(p, s.ready, k, alive), Rest(p, s.ready, k);
      if alive then s.(ready := rest + [t]) else Scheduler(rest, s.finished + [Entry(t.id, t.runs)])
  }

  predicate RanSome(p: Policy, s: Scheduler, clock: nat -> nat)
  {
    Pick(p, s.ready, clock) < |s.ready|
  }

  // ----------------------------------------------------------------- runs

  datatype Event = Spawn(task: Task) | Tick(clock: nat -> nat, alive: bool)

  function Step(p: Policy, s: Scheduler, e: Event): Scheduler
  {
    match e
    case Spawn(t) => s.(ready := s.ready + [t])
    case Tick(clock, alive) => Pass(p, s, clock, alive)
  }

  function Run(p: Policy, s: Scheduler, events: seq<Event>): Scheduler
    decreases |events|
  {
    if events == [] then s else Run(p, Step(p, s, events[0]), events[1..])
  }

  /** Passes that ran a task (the `true` returns). */
  function Successes(p: Policy, s: Scheduler, events: seq<Event>): nat
    decreases |events|
  {
    if events == [] then 0
    else
      (if events[0].Tick? && RanSome(p, s, events[0].clock) then 1 else 0)
      + Successes(p, Step(p, s, events[0]), events[1..])
  }

  /** Some pass ran task `id`. */
  predicate RunsTask(p: Policy, s: Scheduler, events: seq<Event>, id: nat)
    decreases |events|
  {
    events != [] &&
    ((events[0].Tick? && var k := Pick(p, s.ready, events[0].clock); k < |s.ready| && s.ready[k].id == id)
     || RunsTask(p, Step(p, s, events[0]), events[1..], id))
  }

  /** Ticks are read from one clock that never goes back. */
  ghost predicate Timed(now: nat, events: seq<Event>)
    decreases |events|
  {
    events == [] ||
    match events[0]
    case Spawn(_) => Timed(now, events[1..])
    case Tick(clock, _) => Clock(clock) && now <= clock(0) && Timed(clock(0), events[1..])
  }

  ghost predicate UniqueIds(q: seq<Task>)
  {
    forall i, j :: 0 <= i < j < |q| ==> q[i].id != q[j].id
  }

  /** Spawns in `events` never reuse `a` or `b` or a queued id. */
  ghost predicate FreshSpawns(p: Policy, s: Scheduler, events: seq<Event>, a: nat, b: nat)
    decreases |events|
  {
    events == [] ||
    (&& (events[0].Spawn? ==> Fresh(s.ready, events[0].task.id, a, b))
     && FreshSpawns(p, Step(p, s, events[0]), events[1..], a, b))
  }

  ghost predicate Fresh(q: seq<Task>, id: nat, a: nat, b: nat)
  {
    id != a && id != b && forall i :: 0 <= i < |q| ==> q[i].id != id
  }

  // ------------------------------------------------------------- positions

  /** Where the task now at position `x` of `n` stood before a pass picked
      `k`. */
  function CameFrom(p: Policy, n: nat, k: nat, x: nat): (i: nat)
    requires k < n && x < n
    ensures i < n
  {
    if x == n - 1 then k
    else match p
         case RR => if x < n - k - 1 then x + k + 1 else x - (n - k - 1)
         case CFS => if x < k then x else x + 1
  }

  lemma {:induction false} PassOrigin(p: Policy, s: Scheduler, clock: nat -> nat, alive: bool, x: nat)
    requires RanSome(p, s, clock) && x < |Pass(p, s, clock, alive).ready|
    ensures var n, k, q := |s.ready|, Pick(p, s.ready, clock), Pass(p, s, clock, alive).ready;
            && |q| <= n && (x == n - 1 ==> q[x] == Served(p, s.ready, k, alive) && alive)
            && (x < n - 1 ==> q[x] == s.ready[CameFrom(p, n, k, x)])
            && q[x].id == s.ready[CameFrom(p, n, k, x)].id
  {
    ServedSame(p, s.ready, Pick(p, s.ready, clock), alive);
  }

  lemma CameFromOnce(p: Policy, n: nat, k: nat, x: nat, y: nat)
    requires k < n && x < y < n
    ensures CameFrom(p, n, k, x) != CameFrom(p, n, k, y)
  {
  }

  lemma {:induction false} PassKeepsUnique(p: Policy, s: Scheduler, clock: nat -> nat, alive: bool)
    requires UniqueIds(s.ready)
    ensures UniqueIds(Pass(p, s, clock, alive).ready)
  {
    var after := Pass(p, s, clock, alive).ready;
    if RanSome(p, s, clock) {
      forall x, y | 0 <= x < y < |after| ensures after[x].id != after[y].id {
        PassOrigin(p, s, clock, alive, x);
        PassOrigin(p, s, clock, alive, y);
        CameFromOnce(p, |s.ready|, Pick(p, s.ready, clock), x, y);
      }
    }
  }

  // --------------------------------------------------------------- sleepers

  lemma RestKeeps(p: Policy, q: seq<Task>, k: nat, i: nat)
    requires k < |q| && i < |q| && i != k
    ensures q[i] in Rest(p, q, k)
  {
    match p
    case RR => assert Rest(p, q, k)[if i > k then i - k - 1 else |q| - k - 1 + i] == q[i];
    case CFS => assert Rest(p, q, k)[if i < k then i else i - 1] == q[i];
  }

  /** Every tick reading of the history is before `u`. */
  ghost predicate AllBefore(events: seq<Event>, u: nat)
  {
    forall i, k: nat :: 0 <= i < |events| && events[i].Tick? ==> events[i].clock(k) < u
  }

  lemma {:induction false} PassLetsSleep(p: Policy, s: Scheduler, clock: nat -> nat, alive: bool, t: Task)
    requires t in s.ready && t.state.Sleeping? && forall k: nat :: clock(k) < t.state.until
    ensures t in Pass(p, s, clock, alive).ready
  {
    FirstAwakeSpec(s.ready, clock, 0);
    PickMinSpec(s.ready, clock(0));
    var k := Pick(p, s.ready, clock);
    if k < |s.ready| {
      var i :| 0 <= i < |s.ready| && s.ready[i] == t;
      RestKeeps(p, s.ready, k, i);
    }
  }

  /** A sleeper is left alone: through every history that stays before its tick,
      it is queued exactly as it was, not having run. */
  lemma {:induction false} SleeperSleeps(p: Policy, s: Scheduler, events: seq<Event>, t: Task)
    requires t in s.ready && t.state.Sleeping? && AllBefore(events, t.state.until)
    ensures t in Run(p, s, events).ready
    decreases |events|
  {
    if events != [] {
      if events[0].Tick? { PassLetsSleep(p, s, events[0].clock, events[0].alive, t); }
      SleeperSleeps(p, Step(p, s, events[0]), events[1..], t);
    }
  }

  /** In particular one that was just spawned, with every field as given. */
  lemma {:induction false} SpawnedSleeps(p: Policy, s: Scheduler, t: Task, events: seq<Event>)
    requires t.state.Sleeping? && AllBefore(events, t.state.until)
    ensures t in Run(p, s, [Spawn(t)] + events).ready
  {
    assert ([Spawn(t)] + events)[1..] == events;
    var next := Step(p, s, Spawn(t));
    assert next.ready[|s.ready|] == t;
    SleeperSleeps(p, next, events, t);
  }

  /** From its tick on, a sleeper is eligible: the pass runs somebody, under
      round robin nobody behind it and under CFS nobody above it. */
  lemma {:induction false} SleeperWakes(p: Policy, s: Scheduler, clock: nat -> nat, i: nat)
    requires i < |s.ready| && s.ready[i].state.Sleeping? && s.ready[i].state.until <= clock(0) && Clock(clock)
    ensures RanSome(p, s, clock)
    ensures var k := Pick(p, s.ready, clock); if p == RR then k <= i else s.ready[k].vruntime <= s.ready[i].vruntime
  {
    FirstAwakeSpec(s.ready, clock, 0);
    PickMinSpec(s.ready, clock(0));
    assert clock(0) <= clock(i);
  }

  /** The tick reading a pass tests the task at `k` against. */
  function Reading(p: Policy, clock: nat -> nat, k: nat): nat
  {
    if p == RR then clock(k) else clock(0)
  }

  /** Whoever a pass runs does not sleep past the reading, and a pass runs nobody
      only if everybody does; round robin passes over sleepers only. */
  lemma {:induction false} PassRunsAwake(p: Policy, s: Scheduler, clock: nat -> nat)
    ensures var k := Pick(p, s.ready, clock);
            && (k < |s.ready| ==> !(s.ready[k].state.Sleeping? && Reading(p, clock, k) < s.ready[k].state.until))
            && (forall j :: 0 <= j < |s.ready| && (k == |s.ready| || (p == RR && j < k)) ==>
                  s.ready[j].state.Sleeping? && Reading(p, clock, j) < s.ready[j].state.until)
  {
    FirstAwakeSpec(s.ready, clock, 0);
    PickMinSpec(s.ready, clock(0));
  }

  // ---------------------------------------------------------- conservation

  function Ids(q: seq<Task>): (m: multiset<nat>)
  {
    if q == [] then multiset{} else multiset{q[0].id} + Ids(q[1..])
  }

  function DoneIds(l: seq<Entry>): (m: multiset<nat>)
  {
    if l == [] then multiset{} else multiset{l[0].id} + DoneIds(l[1..])
  }

  function AllIds(s: Scheduler): multiset<nat>
  {
    Ids(s.ready) + DoneIds(s.finished)
  }

  function QueuedRuns(q: seq<Task>): nat
  {
    if q == [] then 0 else q[0].runs + QueuedRuns(q[1..])
  }

  function DoneRuns(l: seq<Entry>): nat
  {
    if l == [] then 0 else l[0].runs + DoneRuns(l[1..])
  }

  function TotalRuns(s: Scheduler): nat
  {
    QueuedRuns(s.ready) + DoneRuns(s.finished)
  }

  lemma {:induction false} QueueConcat(a: seq<Task>, b: seq<Task>)
    ensures Ids(a + b) == Ids(a) + Ids(b) && QueuedRuns(a + b) == QueuedRuns(a) + QueuedRuns(b)
    decreases |a|
  {
    if a == [] {
      assert a + b == b;
    } else {
      assert (a + b)[1..] == a[1..] + b;
      QueueConcat(a[1..], b);
    }
  }

  lemma {:induction false} DoneConcat(a: seq<Entry>, b: seq<Entry>)
    ensures DoneIds(a + b) == DoneIds(a) + DoneIds(b) && DoneRuns(a + b) == DoneRuns(a) + DoneRuns(b)
    decreases |a|
  {
    if a == [] {
      assert a + b == b;
    } else {
      assert (a + b)[1..] == a[1..] + b;
      DoneConcat(a[1..], b);
    }
  }

  lemma RestConserves(p: Policy, q: seq<Task>, k: nat)
    requires k < |q|
    ensures Ids(q) == Ids(Rest(p, q, k)) + multiset{q[k].id}
    ensures QueuedRuns(q) == QueuedRuns(Rest(p, q, k)) + q[k].runs
  {
    QueueSplit(q, k);
    QueueConcat(q[..k], q[k + 1..]);
    QueueConcat(q[k + 1..], q[..k]);
  }

  lemma QueueSplit(q: seq<Task>, k: nat)
    requires k < |q|
    ensures Ids(q) == Ids(q[..k]) + Ids(q[k + 1..]) + multiset{q[k].id}
    ensures QueuedRuns(q) == QueuedRuns(q[..k]) + QueuedRuns(q[k + 1..]) + q[k].runs
  {
    var a, b := q[..k], q[k..];
    assert q == a + b;
    QueueConcat(a, b);
    QueueHead(b);
    assert b[1..] == q[k + 1..];
  }

  lemma QueueHead(q: seq<Task>)
    requires q != []
    ensures Ids(q) == multiset{q[0].id} + Ids(q[1..]) && QueuedRuns(q) == q[0].runs + QueuedRuns(q[1..])
  {
  }

  lemma ServedSame(p: Policy, q: seq<Task>, k: nat, alive: bool)
    requires k < |q|
    ensures var t := Served(p, q, k, alive);
            && t.id == q[k].id && t.runs == q[k].runs + 1 && t.weight == q[k].weight
            && t.state == (if alive then Ready else Finished)
            && t.vruntime >= (if q[k].vruntime <= U64_MAX then q[k].vruntime else 0)
  {
  }

  lemma QueuePush(q: seq<Task>, t: Task)
    ensures Ids(q + [t]) == Ids(q) + multiset{t.id} && QueuedRuns(q + [t]) == QueuedRuns(q) + t.runs
  {
    QueueConcat(q, [t]);
    assert [t][1..] == [];
  }

  lemma DonePush(l: seq<Entry>, e: Entry)
    ensures DoneIds(l + [e]) == DoneIds(l) + multiset{e.id} && DoneRuns(l + [e]) == DoneRuns(l) + e.runs
  {
    DoneConcat(l, [e]);
    assert [e][1..] == [];
  }

  /** One pass loses no task, invents none, and adds exactly one run. */
  lemma {:induction false} PassConserves(p: Policy, s: Scheduler, clock: nat -> nat, alive: bool)
    ensures AllIds(Pass(p, s, clock, alive)) == AllIds(s)
    ensures TotalRuns(Pass(p, s, clock, alive)) == TotalRuns(s) + if RanSome(p, s, clock) then 1 else 0
  {
    var k := Pick(p, s.ready, clock);
    if k < |s.ready| {
      RestConserves(p, s.ready, k);
      ServedSame(p, s.ready, k, alive);
      var t := Served(p, s.ready, k, alive);
      QueuePush(Rest(p, s.ready, k), t);
      DonePush(s.finished, Entry(t.id, t.runs));
    }
  }

  function SpawnedIds(events: seq<Event>): multiset<nat>
    decreases |events|
  {
    if events == [] then multiset{}
    else (if events[0].Spawn? then multiset{events[0].task.id} else multiset{}) + SpawnedIds(events[1..])
  }

  function SpawnedRuns(events: seq<Event>): nat
    decreases |events|
  {
    if events == [] then 0
    else (if events[0].Spawn? then events[0].task.runs else 0) + SpawnedRuns(events[1..])
  }

  lemma {:induction false} StepConserves(p: Policy, s: Scheduler, e: Event)
    ensures AllIds(Step(p, s, e)) == AllIds(s) + if e.Spawn? then multiset{e.task.id} else multiset{}
    ensures TotalRuns(Step(p, s, e))
         == TotalRuns(s) + if e.Spawn? then e.task.runs else if RanSome(p, s, e.clock) then 1 else 0
  {
    match e
    case Spawn(t) => QueuePush(s.ready, t);
    case Tick(clock, alive) => PassConserves(p, s, clock, alive);
  }

  lemma UnionAssoc(a: multiset<nat>, b: multiset<nat>, c: multiset<nat>)
    ensures (a + b) + c == a + (b + c)
  {
  }

  /** Over every history, queued plus finished ids are exactly those spawned. */
  lemma {:induction false} RunKeepsIds(p: Policy, s: Scheduler, events: seq<Event>)
    ensures AllIds(Run(p, s, events)) == AllIds(s) + SpawnedIds(events)
    decreases |events|
  {
    if events != [] {
      var e, next, rest := events[0], Step(p, s, events[0]), events[1..];
      var got := if e.Spawn? then multiset{e.task.id} else multiset{};
      StepConserves(p, s, e);
      RunKeepsIds(p, next, rest);
      UnionAssoc(AllIds(s), got, SpawnedIds(rest));
    }
  }

  /** Over every history, the ledger's runs count the passes that returned
      true. */
  lemma {:induction false} RunCountsRuns(p: Policy, s: Scheduler, events: seq<Event>)
    ensures TotalRuns(Run(p, s, events)) == TotalRuns(s) + SpawnedRuns(events) + Successes(p, s, events)
    decreases |events|
  {
    if events != [] {
      StepConserves(p, s, events[0]);
      RunCountsRuns(p, Step(p, s, events[0]), events[1..]);
    }
  }
}
