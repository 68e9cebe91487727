/** Round robin: the queue loop, and how long and how unevenly a task can
    wait under it. */
module RoundRobin {
  import opened Sched

  class RoundRobinScheduler {
    var ready: seq<Task>
    var finished: seq<Entry>
    var nextId: nat

    ghost function View(): Scheduler
      reads this
    {
      Scheduler(ready, finished)
    }

    constructor ()
      ensures View() == Scheduler([], []) && nextId == 1
    {
      ready, finished, nextId := [], [], 1;
    }

    method Spawn(t: Task)
      modifies this`ready
      ensures View() == Step(RR, old(View()), Event.Spawn(t)) && ready == old(ready) + [t]
    {
      ready := ready + [t];
    }

    method NextId() returns (id: nat)
      modifies this`nextId
      ensures id == old(nextId) && nextId == id + 1
    {
      id := nextId;
      nextId := nextId + 1;
    }

    /** One pass: sleepers met on the way go to the back, the first awake task
        runs once, and a pass that finds nobody restores the queue's order.
        `clock(k)` is the tick reading at the `k`-th pop. */
    method ScheduleOnce(clock: nat -> nat, alive: bool) returns (ran: bool)
      modifies this`ready, this`finished
      ensures View() == Pass(RR, old(View()), clock, alive)
      ensures ran == RanSome(RR, old(View()), clock)
    {
      ghost var q := ready;
      var len := |ready|;
      if len == 0 {
        PassNobody(old(View()), clock, alive);
        return false;
      }
      for k := 0 to len
        invariant ready == q[k..] + q[..k] && finished == old(finished)
        invariant forall j :: 0 <= j < k ==> Asleep(q[j], clock(j))
      {
        Rotation(q, k);
        var task := ready[0];
        ready := ready[1..];
        if Asleep(task, clock(k)) {
          ready := ready + [task];
          continue;
        }
        assert ready == q[k + 1..] + q[..k];
        task := Ran(task.(state := Running), alive);
        assert task == Ran(q[k], alive);
        PassAwake(old(View()), clock, alive, k);
        if task.state == Ready {
          ready := ready + [task];
        } else {
          finished := finished + [Entry(task.id, task.runs)];
        }
        return true;
      }
      PassNobody(old(View()), clock, alive);
      return false;
    }
  }

  lemma Rotation(q: seq<Task>, k: nat)
    requires k < |q|
    ensures var r := q[k..] + q[..k];
            r[0] == q[k] && r[1..] == q[k + 1..] + q[..k] && r[1..] + [q[k]] == q[k + 1..] + q[..k + 1]
  {
  }

  lemma {:induction false} PassAwake(s: Scheduler, clock: nat -> nat, alive: bool, k: nat)
    requires k < |s.ready| && !(s.ready[k].state.Sleeping? && clock(k) < s.ready[k].state.until)
    requires forall j :: 0 <= j < k ==> s.ready[j].state.Sleeping? && clock(j) < s.ready[j].state.until
    ensures RanSome(RR, s, clock)
    ensures var t, rest, after := Ran(s.ready[k], alive), s.ready[k + 1..] + s.ready[..k], Pass(RR, s, clock, alive);
            && (alive ==> after == Scheduler(rest + [t], s.finished))
            && (!alive ==> after == Scheduler(rest, s.finished + [Entry(t.id, t.runs)]))
  {
    FirstAwakeSpec(s.ready, clock, 0);
  }

  lemma {:induction false} PassNobody(s: Scheduler, clock: nat -> nat, alive: bool)
    requires forall j :: 0 <= j < |s.ready| ==> s.ready[j].state.Sleeping? && clock(j) < s.ready[j].state.until
    ensures !RanSome(RR, s, clock) && Pass(RR, s, clock, alive) == s
  {
    FirstAwakeSpec(s.ready, clock, 0);
  }

  // ------------------------------------------------------- bounded waiting

  /** A pass that does not run the awake task at position `i` moves it at least
      one place forward. */
  lemma {:induction false} PassAdvances(s: Scheduler, now: nat, clock: nat -> nat, alive: bool, i: nat)
    requires i < |s.ready| && !Asleep(s.ready[i], now) && Clock(clock) && now <= clock(0)
    ensures var k := Pick(RR, s.ready, clock); var after := Pass(RR, s, clock, alive);
            && k <= i
            && (k < i ==> i - k - 1 < |after.ready| && after.ready[i - k - 1] == s.ready[i])
  {
    assert clock(0) <= clock(i);
    FirstAwakeSpec(s.ready, clock, 0);
  }

  /** Bounded waiting: over every history, however sleepers rotate, tasks
      arrive and ticks advance, an awake task at position `i` is passed over at
      most `i` times, so it runs within `i + 1` successful passes. */
  lemma {:induction false} BoundedWaiting(s: Scheduler, now: nat, events: seq<Event>, i: nat)
    requires i < |s.ready| && !Asleep(s.ready[i], now) && Timed(now, events)
    requires !RunsTask(RR, s, events, s.ready[i].id)
    ensures Successes(RR, s, events) <= i
    decreases |events|
  {
    if events != [] {
      var e, next := events[0], Step(RR, s, events[0]);
      match e {
        case Spawn(t) => BoundedWaiting(next, now, events[1..], i);
        case Tick(clock, alive) =>
          PassAdvances(s, now, clock, alive, i);
          var k := Pick(RR, s.ready, clock);
          BoundedWaiting(next, clock(0), events[1..], i - k - 1);
      }
    }
  }

  // ------------------------------------------------------------------ lag

  /** Tasks `a` and `b`, while queued, are awake and their run counts are equal
      when `a` stands first, one apart when `b` does. */
  ghost predicate InStep(q: seq<Task>, a: nat, b: nat)
  {
    forall i, j :: 0 <= i < |q| && 0 <= j < |q| && q[i].id == a && q[j].id == b ==>
      q[i].state == Ready && q[j].state == Ready && q[i].runs == q[j].runs + if i < j then 0 else 1
  }

  lemma {:induction false} PassInStep(s: Scheduler, clock: nat -> nat, alive: bool, a: nat, b: nat)
    requires a != b && UniqueIds(s.ready) && InStep(s.ready, a, b)
    ensures InStep(Pass(RR, s, clock, alive).ready, a, b)
  {
    var after := Pass(RR, s, clock, alive).ready;
    if RanSome(RR, s, clock) {
      var n, k := |s.ready|, Pick(RR, s.ready, clock);
      FirstAwakeSpec(s.ready, clock, 0);
      forall x, y | 0 <= x < |after| && 0 <= y < |after| && after[x].id == a && after[y].id == b
        ensures after[x].state == Ready && after[y].state == Ready
             && after[x].runs == after[y].runs + if x < y then 0 else 1
      {
        PassOrigin(RR, s, clock, alive, x);
        PassOrigin(RR, s, clock, alive, y);
        var i, j := CameFrom(RR, n, k, x), CameFrom(RR, n, k, y);
        assert s.ready[i].id == a && s.ready[j].id == b;
        assert k <= i && k <= j;
      }
    }
  }

  /** Round-robin lag: two tasks queued awake with equal run counts never
      differ by more than one run while both are queued, whatever else is
      spawned, sleeps, wakes or finishes. */
  lemma {:induction false} LagAtMostOne(s: Scheduler, events: seq<Event>, a: nat, b: nat)
    requires a != b && UniqueIds(s.ready) && InStep(s.ready, a, b) && FreshSpawns(RR, s, events, a, b)
    ensures UniqueIds(Run(RR, s, events).ready) && InStep(Run(RR, s, events).ready, a, b)
    decreases |events|
  {
    if events != [] {
      var next := Step(RR, s, events[0]);
      match events[0] {
        case Spawn(t) => SpawnInStep(s.ready, t, a, b);
        case Tick(clock, alive) =>
          PassKeepsUnique(RR, s, clock, alive);
          PassInStep(s, clock, alive, a, b);
      }
      LagAtMostOne(next, events[1..], a, b);
    }
  }

  lemma SpawnInStep(q: seq<Task>, t: Task, a: nat, b: nat)
    requires UniqueIds(q) && InStep(q, a, b) && Fresh(q, t.id, a, b)
    ensures UniqueIds(q + [t]) && InStep(q + [t], a, b)
  {
  }
}
