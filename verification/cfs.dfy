/** The fair scheduler: run the awake task with the least weighted runtime. */
module Cfs {
  import opened Common
  import opened Sched

  class CfsScheduler {
    var ready: seq<Task>
    var finished: seq<Entry>
    var nextId: nat

    ghost function View(): Scheduler
      reads this
    {
      Scheduler(ready, finished)
    }

    constructor ()
      ensures View() == Scheduler([], []) && nextId == 1
    {
      ready, finished, nextId := [], [], 1;
    }

    method Spawn(t: Task)
      requires t.weight > 0
      modifies this`ready
      ensures View() == Step(CFS, old(View()), Event.Spawn(t)) && ready == old(ready) + [t]
    {
      ready := ready + [t];
    }

    method NextId() returns (id: nat)
      modifies this`nextId
      ensures id == old(nextId) && nextId == id + 1
    {
      id := nextId;
      nextId := nextId + 1;
    }

    /** Scan for the awake task with the least vruntime, earliest on a tie. */
    method PickMinIndex(now: nat) returns (k: nat)
      ensures IsPick(ready, now, k)
    {
      k := |ready|;
      for i := 0 to |ready|
        invariant k == |ready| || k < i
        invariant k == |ready| ==> forall j :: 0 <= j < i ==> Asleep(ready[j], now)
        invariant k < |ready| ==> IsPick(ready[..i], now, k)
      {
        var t := ready[i];
        if !Asleep(t, now) && (k == |ready| || t.vruntime < ready[k].vruntime) {
          k := i;
        }
      }
      assert ready[..|ready|] == ready;
    }

    /** Smallest vruntime queued, sleepers included. */
    method MinQueued() returns (v: nat)
      ensures v == MinVruntime(ready)
    {
      v := 0;
      for i := 0 to |ready|
        invariant v == MinVruntime(ready[..i])
      {
        MinPrefix(ready, i);
        if i == 0 || ready[i].vruntime < v { v := ready[i].vruntime; }
      }
      assert ready[..|ready|] == ready;
    }

    method ScheduleOnce(clock: nat -> nat, alive: bool) returns (ran: bool)
      modifies this`ready, this`finished
      ensures View() == Pass(CFS, old(View()), clock, alive)
      ensures ran == RanSome(CFS, old(View()), clock)
    {
      ghost var q, s := ready, View();
      var now := clock(0);
      var idx := PickMinIndex(now);
      PickMinSpec(q, now);
      PickUnique(q, now, idx, PickMin(q, now));
      if idx == |ready| { return false; }
      var task := ready[idx];
      ready := ready[..idx] + ready[idx + 1..];
      task := Wake(task);
      task := Ran(task.(state := Running), alive);
      var w := if task.weight == 0 then 1 else task.weight;
      task := task.(vruntime := SatAdd(task.vruntime, SLICE / w));
      PassPicked(s, clock, alive, idx, task);
      if task.state == Ready {
        ready := ready + [task];
      } else {
        finished := finished + [Entry(task.id, task.runs)];
      }
      return true;
    }

    /** Clamp a woken sleeper to the least vruntime still queued. */
    method Wake(t: Task) returns (task: Task)
      ensures task == Woken(t, ready)
    {
      task := t;
      if task.state.Sleeping? {
        var floor := MinQueued();
        if task.vruntime < floor { task := task.(vruntime := floor); }
      }
    }
  }

  lemma {:induction false} PassPicked(s: Scheduler, clock: nat -> nat, alive: bool, k: nat, t: Task)
    requires k < |s.ready| && Pick(CFS, s.ready, clock) == k
    requires var rest := s.ready[..k] + s.ready[k + 1..]; var r := Ran(Woken(s.ready[k], rest), alive);
             t == r.(vruntime := SatAdd(r.vruntime, Slice(r)))
    ensures var rest, after := s.ready[..k] + s.ready[k + 1..], Pass(CFS, s, clock, alive);
            && RanSome(CFS, s, clock) && (t.state == Ready <==> alive)
            && (alive ==> after == Scheduler(rest + [t], s.finished))
            && (!alive ==> after == Scheduler(rest, s.finished + [Entry(t.id, t.runs)]))
  {
  }

  /** What one run costs, in numbers: 102400 over the weight, at least 1, and
      saturating. */
  function Charged(v: nat, weight: nat): nat
  {
    var cost := 102400 / (if weight == 0 then 1 else weight);
    if v + cost <= 0xFFFF_FFFF_FFFF_FFFF then v + cost else 0xFFFF_FFFF_FFFF_FFFF
  }

  /** A CFS pass by its shape: of the tasks not sleeping past the reading, the
      first of least vruntime runs once; the others keep their order; the task
      goes to the back, or to the ledger, charged for the run, a sleeper from the
      least vruntime queued if it was below. */
  lemma {:induction false} PassRunsLeast(s: Scheduler, clock: nat -> nat, alive: bool, k: nat)
    requires k < |s.ready| && IsPick(s.ready, clock(0), k)
    ensures var t, rest, after := s.ready[k], s.ready[..k] + s.ready[k + 1..], Pass(CFS, s, clock, alive);
            && (alive ==> after == Scheduler(rest + [Task(t.id, Ready, t.runs + 1, NewVruntime(t, rest), t.weight)], s.finished))
            && (!alive ==> after == Scheduler(rest, s.finished + [Entry(t.id, t.runs + 1)]))
  {
    PickMinSpec(s.ready, clock(0));
    PickUnique(s.ready, clock(0), k, Pick(CFS, s.ready, clock));
    ServedCharged(s.ready, k, alive);
  }

  /** A run charges the task from its own vruntime, or from the least of `rest` if
      it slept and was below. */
  function NewVruntime(t: Task, rest: seq<Task>): nat
  {
    Charged(if t.state.Sleeping? && t.vruntime < MinVruntime(rest) then MinVruntime(rest) else t.vruntime, t.weight)
  }

  lemma ServedCharged(q: seq<Task>, k: nat, alive: bool)
    requires k < |q|
    ensures Served(CFS, q, k, alive)
         == Task(q[k].id, if alive then Ready else Finished, q[k].runs + 1,
                 NewVruntime(q[k], q[..k] + q[k + 1..]), q[k].weight)
  {
  }

  lemma MinPrefix(q: seq<Task>, i: nat)
    requires i < |q|
    ensures var v := MinVruntime(q[..i]);
            MinVruntime(q[..i + 1]) == if i == 0 || q[i].vruntime < v then q[i].vruntime else v
  {
    assert q[..i + 1][..i] == q[..i];
  }

  // ------------------------------------------------------ weighted fairness

  /** Neither `a` nor `b` sleeps, and `a` is within one of its slices of the
      larger of `v0` and where `b` stands. */
  ghost predicate Abreast(q: seq<Task>, a: nat, b: nat, v0: nat)
  {
    forall i, j :: 0 <= i < |q| && 0 <= j < |q| && q[i].id == a && q[j].id == b ==> Near(q[i], q[j], v0)
  }

  ghost predicate Near(ta: Task, tb: Task, v0: nat)
  {
    && Counting(ta) && Counting(tb)
    && ta.vruntime <= (if tb.vruntime < v0 then v0 else tb.vruntime) + Slice(ta)
  }

  /** Awake for good, with a vruntime that fits its 64 bits. */
  ghost predicate Counting(t: Task)
  {
    !t.state.Sleeping? && t.vruntime <= U64_MAX
  }

  lemma ServedCounts(q: seq<Task>, k: nat)
    requires k < |q| && Counting(q[k])
    ensures var t := Served(CFS, q, k, true);
            && Counting(t) && t.weight == q[k].weight && t.runs == q[k].runs + 1
            && t.vruntime == SatAdd(q[k].vruntime, Slice(t))
  {
  }

  lemma {:induction false} PassAbreast(s: Scheduler, clock: nat -> nat, alive: bool, a: nat, b: nat, v0: nat)
    requires a != b && UniqueIds(s.ready) && Abreast(s.ready, a, b, v0)
    ensures Abreast(Pass(CFS, s, clock, alive).ready, a, b, v0)
  {
    var after := Pass(CFS, s, clock, alive).ready;
    if RanSome(CFS, s, clock) {
      var n, k := |s.ready|, Pick(CFS, s.ready, clock);
      PickMinSpec(s.ready, clock(0));
      forall x, y | 0 <= x < |after| && 0 <= y < |after| && after[x].id == a && after[y].id == b
        ensures Near(after[x], after[y], v0)
      {
        PassOrigin(CFS, s, clock, alive, x);
        PassOrigin(CFS, s, clock, alive, y);
        var i, j := CameFrom(CFS, n, k, x), CameFrom(CFS, n, k, y);
        assert Near(s.ready[i], s.ready[j], v0);
        if i == k || j == k { ServedCounts(s.ready, k); }
      }
    }
  }

  lemma SpawnAbreast(q: seq<Task>, t: Task, a: nat, b: nat, v0: nat)
    requires UniqueIds(q) && Abreast(q, a, b, v0) && Fresh(q, t.id, a, b)
    ensures UniqueIds(q + [t]) && Abreast(q + [t], a, b, v0)
  {
  }

  lemma {:induction false} RunAbreast(s: Scheduler, events: seq<Event>, a: nat, b: nat, v0: nat)
    requires a != b && UniqueIds(s.ready) && Abreast(s.ready, a, b, v0) && FreshSpawns(CFS, s, events, a, b)
    ensures UniqueIds(Run(CFS, s, events).ready) && Abreast(Run(CFS, s, events).ready, a, b, v0)
    decreases |events|
  {
    if events != [] {
      match events[0] {
        case Spawn(t) => SpawnAbreast(s.ready, t, a, b, v0);
        case Tick(clock, alive) =>
          PassKeepsUnique(CFS, s, clock, alive);
          PassAbreast(s, clock, alive, a, b, v0);
      }
      RunAbreast(Step(CFS, s, events[0]), events[1..], a, b, v0);
    }
  }

  /** Fairness from any state: of two tasks awake in it, whatever their pasts,
      the one at `v0` then is in every later state within one slice of the
      larger of `v0` and where the other has got to. So neither a woken sleeper
      nor a late arrival is ever more than a slice ahead of a task it has
      caught up with. */
  lemma {:induction false} FairFromAnyState(s: Scheduler, events: seq<Event>, a: nat, b: nat, v0: nat)
    requires a != b && UniqueIds(s.ready) && FreshSpawns(CFS, s, events, a, b)
    requires forall i :: 0 <= i < |s.ready| && (s.ready[i].id == a || s.ready[i].id == b) ==> Counting(s.ready[i])
    requires forall i :: 0 <= i < |s.ready| && s.ready[i].id == a ==> s.ready[i].vruntime <= v0
    ensures Abreast(Run(CFS, s, events).ready, a, b, v0)
  {
    RunAbreast(s, events, a, b, v0);
  }

  // ----------------------------------------------- fairness in runs and weights

  function SatMul(r: nat, s: nat): nat
  {
    if r * s <= U64_MAX then r * s else U64_MAX
  }

  lemma SatMulStep(r: nat, s: nat)
    ensures SatAdd(SatMul(r, s), s) == SatMul(r + 1, s)
  {
    assert (r + 1) * s == r * s + s;
  }

  /** A task that never slept: its vruntime is its runs times its slice. */
  ghost predicate Accrued(t: Task)
  {
    Counting(t) && t.vruntime == SatMul(t.runs, Slice(t))
  }

  /** `id`, if queued, has accrued all it has. */
  ghost predicate AllAccrued(q: seq<Task>, id: nat)
  {
    forall i :: 0 <= i < |q| && q[i].id == id ==> Accrued(q[i])
  }

  lemma {:induction false} PassAccrues(s: Scheduler, clock: nat -> nat, alive: bool, id: nat)
    requires AllAccrued(s.ready, id)
    ensures AllAccrued(Pass(CFS, s, clock, alive).ready, id)
  {
    var after := Pass(CFS, s, clock, alive).ready;
    if RanSome(CFS, s, clock) {
      var k := Pick(CFS, s.ready, clock);
      forall x | 0 <= x < |after| && after[x].id == id ensures Accrued(after[x]) {
        PassOrigin(CFS, s, clock, alive, x);
        if x == |s.ready| - 1 {
          ServedCounts(s.ready, k);
          SatMulStep(s.ready[k].runs, Slice(s.ready[k]));
        }
      }
    }
  }

  lemma {:induction false} RunAccrues(s: Scheduler, events: seq<Event>, a: nat, b: nat, id: nat)
    requires AllAccrued(s.ready, id) && FreshSpawns(CFS, s, events, a, b) && (id == a || id == b)
    ensures AllAccrued(Run(CFS, s, events).ready, id)
    decreases |events|
  {
    if events != [] {
      if events[0].Tick? { PassAccrues(s, events[0].clock, events[0].alive, id); }
      RunAccrues(Step(CFS, s, events[0]), events[1..], a, b, id);
    }
  }

  /** Neither `a` nor `b` has run or slept yet. */
  ghost predicate NotYetRun(q: seq<Task>, a: nat, b: nat)
  {
    forall i :: 0 <= i < |q| && (q[i].id == a || q[i].id == b) ==>
      q[i].state == Ready && q[i].runs == 0 && q[i].vruntime == 0
  }

  /** A task queued ready before it ran has, in every later state that still
      queues it, a vruntime of 102400 over its weight for each of its runs,
      saturated at 64 bits. */
  lemma {:induction false} VruntimeCountsRuns(s: Scheduler, events: seq<Event>, id: nat, i: nat)
    requires NotYetRun(s.ready, id, id) && FreshSpawns(CFS, s, events, id, id)
    requires var q := Run(CFS, s, events).ready; i < |q| && q[i].id == id && q[i].weight > 0
    ensures var t := Run(CFS, s, events).ready[i]; var full := t.runs * (102400 / t.weight);
            t.vruntime == if full <= 0xFFFF_FFFF_FFFF_FFFF then full else 0xFFFF_FFFF_FFFF_FFFF
  {
    RunAccrues(s, events, id, id, id);
  }

  /** Weighted fairness: of two tasks queued ready before either ran, neither
      gets more than one slice ahead in weighted runtime while both are queued,
      whatever else wakes, spawns or finishes, up to 64-bit saturation. */
  lemma {:induction false} WeightedFairness(s: Scheduler, events: seq<Event>, a: nat, b: nat)
    requires a != b && UniqueIds(s.ready) && NotYetRun(s.ready, a, b) && FreshSpawns(CFS, s, events, a, b)
    ensures var q := Run(CFS, s, events).ready;
            forall i, j :: 0 <= i < |q| && 0 <= j < |q| && q[i].id == a && q[j].id == b ==>
              OneSliceAhead(q[i], q[j])
  {
    RunAbreast(s, events, a, b, 0);
    RunAccrues(s, events, a, b, a);
    RunAccrues(s, events, a, b, b);
    var q := Run(CFS, s, events).ready;
    forall i, j | 0 <= i < |q| && 0 <= j < |q| && q[i].id == a && q[j].id == b ensures OneSliceAhead(q[i], q[j]) {
      assert Near(q[i], q[j], 0);
      NearMeans(q[i], q[j]);
    }
  }

  ghost predicate OneSliceAhead(ta: Task, tb: Task)
  {
    ta.runs * Slice(ta) <= U64_MAX ==> (ta.runs - 1) * Slice(ta) <= tb.runs * Slice(tb)
  }

  lemma NearMeans(ta: Task, tb: Task)
    requires Accrued(ta) && Accrued(tb) && Near(ta, tb, 0)
    ensures OneSliceAhead(ta, tb)
  {
    assert (ta.runs - 1) * Slice(ta) == ta.runs * Slice(ta) - Slice(ta);
  }

  /** Runs of `ta` against runs of `tb` are as their weights, up to one run and
      the rounding of one division. */
  ghost predicate Proportional(ta: Task, tb: Task)
  {
    ta.runs >= 1 && ta.weight >= 1 && tb.weight >= 1 && ta.runs * Slice(ta) <= U64_MAX ==>
      (ta.runs - 1) * (SLICE - ta.weight + 1) * tb.weight <= tb.runs * SLICE * ta.weight
  }

  /** The same in terms of the weights themselves: in every reachable state,
      runs are proportional to weight. */
  lemma {:induction false} ShareByWeight(s: Scheduler, events: seq<Event>, i: nat, j: nat)
    requires var q := Run(CFS, s, events).ready;
             && i < |q| && j < |q| && q[i].id != q[j].id
             && NotYetRun(s.ready, q[i].id, q[j].id) && FreshSpawns(CFS, s, events, q[i].id, q[j].id)
    requires UniqueIds(s.ready)
    ensures Proportional(Run(CFS, s, events).ready[i], Run(CFS, s, events).ready[j])
  {
    var q := Run(CFS, s, events).ready;
    WeightedFairness(s, events, q[i].id, q[j].id);
    SliceMeansWeight(q[i], q[j]);
  }

  lemma SliceMeansWeight(ta: Task, tb: Task)
    requires OneSliceAhead(ta, tb)
    ensures Proportional(ta, tb)
  {
    if ta.runs >= 1 && ta.weight >= 1 && tb.weight >= 1 && ta.runs * Slice(ta) <= U64_MAX {
      var x, y := ta.runs - 1, tb.runs;
      SliceOfWeight(ta);
      SliceOfWeight(tb);
      ScaleShare(x, Slice(ta), ta.weight, y, Slice(tb), tb.weight);
      Bounds(x, SLICE - ta.weight + 1, Slice(ta) * ta.weight, tb.weight);
      Bounds(y, Slice(tb) * tb.weight, SLICE, ta.weight);
    }
  }

  lemma MulLe(a: int, b: int, c: nat)
    requires a <= b
    ensures a * c <= b * c
  {
  }

  lemma SliceOfWeight(t: Task)
    requires t.weight >= 1
    ensures SLICE - t.weight + 1 <= Slice(t) * t.weight <= SLICE
  {
  }

  /** `x * si <= y * sj`, scaled by both weights. */
  lemma ScaleShare(x: nat, si: nat, wi: nat, y: nat, sj: nat, wj: nat)
    requires x * si <= y * sj
    ensures x * (si * wi) * wj <= y * (sj * wj) * wi
  {
    MulLe(x * si, y * sj, wi * wj);
    assert x * (si * wi) * wj == x * si * (wi * wj);
    assert y * (sj * wj) * wi == y * sj * (wi * wj);
  }

  lemma Bounds(x: nat, lo: int, hi: int, w: nat)
    requires lo <= hi
    ensures x * lo * w <= x * hi * w
  {
    MulLe(lo, hi, x);
    MulLe(x * lo, x * hi, w);
  }

  // ------------------------------------------------------------ sleeper clamp

  lemma SlicePositive(t: Task)
    requires t.weight <= SLICE
    ensures Slice(t) >= 1
  {
  }

  /** A long nap banks nothing: right after its first run a woken sleeper stands
      strictly above the queue's minimum, so it does not run again while a
      task at that minimum is awake. */
  lemma {:induction false} WokenYields(s: Scheduler, clock: nat -> nat, next: nat -> nat, j: nat)
    requires var k := Pick(CFS, s.ready, clock); k < |s.ready| && s.ready[k].state.Sleeping? && s.ready[k].weight <= SLICE
    requires var rest := Rest(CFS, s.ready, Pick(CFS, s.ready, clock));
             && j < |rest| && rest[j].vruntime == MinVruntime(rest) < U64_MAX && !Asleep(rest[j], next(0))
    ensures var after := Pass(CFS, s, clock, true).ready;
            && |after| == |s.ready| && after[|after| - 1].id == s.ready[Pick(CFS, s.ready, clock)].id
            && after[|after| - 1].vruntime > after[j].vruntime
            && Pick(CFS, after, next) < |after| - 1
  {
    var k := Pick(CFS, s.ready, clock);
    var rest, t := Rest(CFS, s.ready, k), Served(CFS, s.ready, k, true);
    SlicePositive(s.ready[k]);
    assert Pass(CFS, s, clock, true).ready == rest + [t];
    PickMinSpec(rest + [t], next(0));
  }
}
