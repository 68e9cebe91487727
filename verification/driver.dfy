/** The driver loop of the boot demo: one schedule per awaited tick, two runaway
    guards, and a ledger at the end. */
module Driver {
  import opened Sched

  const RUNAWAY_GUARD: nat := 100

  datatype Outcome =
    | Completed(s: Scheduler, schedules: nat)
    | AsleepForever(s: Scheduler)
    | Runaway(s: Scheduler)

  /** The step verdict of the task a pass will run: task `id` stays alive until
      its `budget(id)`-th run. */
  function Verdict(p: Policy, s: Scheduler, clock: nat -> nat, budget: nat -> nat): bool
  {
    var k := Pick(p, s.ready, clock);
    k < |s.ready| && s.ready[k].runs + 1 < budget(s.ready[k].id)
  }

  datatype Turn = Idle | Ran(s: Scheduler)

  /** One `schedule_once` call: idle, or the scheduler after one step. */
  function ScheduleOnce(p: Policy, s: Scheduler, clock: nat -> nat, budget: nat -> nat): Turn
  {
    if RanSome(p, s, clock) then Turn.Ran(Pass(p, s, clock, Verdict(p, s, clock, budget))) else Idle
  }

  /** The scheduler as the driver sees it: what its `n`-th call does. */
  type Calls = (Scheduler, nat) -> Turn

  function CallsOf(p: Policy, budget: nat -> nat, clock: nat -> nat -> nat): Calls
  {
    (s: Scheduler, n: nat) => ScheduleOnce(p, s, clock(n), budget)
  }

  /** The loop from its `n`-th iteration on. */
  function DriveFrom(once: Calls, s: Scheduler, n: nat, schedules: nat, asleep: nat): Outcome
    requires schedules <= RUNAWAY_GUARD && asleep <= RUNAWAY_GUARD
    decreases RUNAWAY_GUARD - schedules, RUNAWAY_GUARD - asleep, s
  {
    if s.ready == [] then Completed(s, schedules)
    else
      match once(s, n)
      case Idle =>
        if asleep + 1 > RUNAWAY_GUARD then AsleepForever(s)
        else DriveFrom(once, s, n + 1, schedules, asleep + 1)
      case Ran(next) =>
        if schedules + 1 > RUNAWAY_GUARD then Runaway(next)
        else DriveFrom(once, next, n + 1, schedules + 1, 0)
  }

  /** The loop itself; it always ends, because one of the guards would fire. */
  method Drive(once: Calls, tasks: seq<Task>) returns (r: Outcome)
    ensures r == DriveFrom(once, Scheduler(tasks, []), 0, 0, 0)
    ensures exists stop: nat :: Stops(once, Scheduler(tasks, []), stop) && Answers(once, Scheduler(tasks, []), stop, r)
  {
    ghost var stop := DriveAnswers(once, Scheduler(tasks, []));
    var sched := Scheduler(tasks, []);
    ghost var goal := DriveFrom(once, sched, 0, 0, 0);
    var schedules, asleepPasses, n := 0, 0, 0;
    while |sched.ready| > 0
      invariant 0 <= schedules <= RUNAWAY_GUARD && 0 <= asleepPasses <= RUNAWAY_GUARD && 0 <= n
      invariant DriveFrom(once, sched, n, schedules, asleepPasses) == goal
      decreases RUNAWAY_GUARD - schedules, RUNAWAY_GUARD - asleepPasses
    {
      var turn := once(sched, n);
      n := n + 1;
      if turn.Idle? {
        asleepPasses := asleepPasses + 1;
        if asleepPasses > RUNAWAY_GUARD { return AsleepForever(sched); }
        continue;
      }
      sched := turn.s;
      asleepPasses := 0;
      schedules := schedules + 1;
      if schedules > RUNAWAY_GUARD { return Runaway(sched); }
    }
    return Completed(sched, schedules);
  }

  // --------------------------------------------------- what the loop answers

  /** The scheduler after the first `n` calls, whatever the guards say. */
  function StateAt(once: Calls, s: Scheduler, n: nat): Scheduler
    decreases n
  {
    if n == 0 then s
    else
      var t := StateAt(once, s, n - 1);
      match once(t, n - 1)
      case Idle => t
      case Ran(next) => next
  }

  /** How many of the first `n` calls ran a task. */
  function RanBy(once: Calls, s: Scheduler, n: nat): nat
    decreases n
  {
    if n == 0 then 0 else RanBy(once, s, n - 1) + if once(StateAt(once, s, n - 1), n - 1).Ran? then 1 else 0
  }

  /** How many calls in a row, up to the `n`-th, found nobody awake. */
  function IdleBy(once: Calls, s: Scheduler, n: nat): nat
    decreases n
  {
    if n == 0 || once(StateAt(once, s, n - 1), n - 1).Ran? then 0 else IdleBy(once, s, n - 1) + 1
  }

  /** After `n` calls there is a reason to stop: nobody queued, more than 100
      schedules, or more than 100 idle calls in a row. */
  predicate Stops(once: Calls, s: Scheduler, n: nat)
  {
    StateAt(once, s, n).ready == [] || RanBy(once, s, n) > 100 || IdleBy(once, s, n) > 100
  }

  /** What the source reports for that reason, the guards first. */
  predicate Answers(once: Calls, s: Scheduler, n: nat, r: Outcome)
  {
    match r
    case Runaway(t) => t == StateAt(once, s, n) && RanBy(once, s, n) > 100
    case AsleepForever(t) => t == StateAt(once, s, n) && RanBy(once, s, n) <= 100 && IdleBy(once, s, n) > 100
    case Completed(t, k) =>
      t == StateAt(once, s, n) && t.ready == [] && k == RanBy(once, s, n) <= 100 && IdleBy(once, s, n) <= 100
  }

  lemma {:induction false} DriveOn(once: Calls, s: Scheduler, n: nat) returns (stop: nat)
    requires RanBy(once, s, n) <= 100 && IdleBy(once, s, n) <= 100
    ensures stop >= n && Stops(once, s, stop) && forall m :: n <= m < stop ==> !Stops(once, s, m)
    ensures Answers(once, s, stop, DriveFrom(once, StateAt(once, s, n), n, RanBy(once, s, n), IdleBy(once, s, n)))
    decreases 100 - RanBy(once, s, n), 100 - IdleBy(once, s, n)
  {
    if StateAt(once, s, n).ready == [] { return n; }
    if RanBy(once, s, n + 1) > 100 || IdleBy(once, s, n + 1) > 100 { return n + 1; }
    stop := DriveOn(once, s, n + 1);
  }

  /** What the loop answers, for every scheduler and every start: it stops at the
      first call after which there is a reason to, and reports that reason.
      So it is completed only with nobody queued, a runaway only after more than
      100 schedules, and asleep for ever exactly if 101 idle calls in a row come
      before either. */
  lemma {:induction false} DriveAnswers(once: Calls, s: Scheduler) returns (stop: nat)
    ensures Stops(once, s, stop) && forall m: nat :: m < stop ==> !Stops(once, s, m)
    ensures Answers(once, s, stop, DriveFrom(once, s, 0, 0, 0))
  {
    stop := DriveOn(once, s, 0);
  }

  // ----------------------------------------------------------- completion

  /** Every wait ends on a tick later than the last, and schedules read the
      clock after their wait. */
  ghost predicate TicksKeepComing(start: nat, awaited: nat -> nat, clock: nat -> nat -> nat)
  {
    && start < awaited(0) && (forall m: nat, n: nat :: m < n ==> awaited(m) < awaited(n))
    && (forall n: nat :: Clock(clock(n)) && awaited(n) <= clock(n)(0))
  }

  lemma {:induction false} TicksGained(start: nat, awaited: nat -> nat, clock: nat -> nat -> nat, n: nat)
    requires TicksKeepComing(start, awaited, clock)
    ensures awaited(n) >= start + 1 + n
  {
    if n > 0 {
      TicksGained(start, awaited, clock, n - 1);
      assert awaited(n - 1) < awaited(n);
    }
  }

  ghost predicate InBudget(q: seq<Task>, budget: nat -> nat, latest: nat)
  {
    forall i :: 0 <= i < |q| ==>
      q[i].runs < budget(q[i].id) && (q[i].state.Sleeping? ==> q[i].state.until <= latest)
  }

  ghost predicate Settled(l: seq<Entry>, budget: nat -> nat)
  {
    forall i :: 0 <= i < |l| ==> l[i].runs == budget(l[i].id)
  }

  /** Runs still to come. */
  function Left(q: seq<Task>, budget: nat -> nat): int
    decreases |q|
  {
    if q == [] then 0 else budget(q[0].id) - q[0].runs + Left(q[1..], budget)
  }

  lemma {:induction false} LeftConcat(a: seq<Task>, b: seq<Task>, budget: nat -> nat)
    ensures Left(a + b, budget) == Left(a, budget) + Left(b, budget)
    decreases |a|
  {
    if a == [] {
      assert a + b == b;
    } else {
      assert (a + b)[1..] == a[1..] + b;
      LeftConcat(a[1..], b, budget);
    }
  }

  lemma {:induction false} LeftRest(p: Policy, q: seq<Task>, k: nat, budget: nat -> nat)
    requires k < |q|
    ensures Left(q, budget) == Left(Rest(p, q, k), budget) + budget(q[k].id) - q[k].runs
  {
    var a, b := q[..k], q[k..];
    assert q == a + b && b[1..] == q[k + 1..];
    LeftConcat(a, b, budget);
    LeftConcat(a, b[1..], budget);
    LeftConcat(b[1..], a, budget);
  }

  lemma {:induction false} LeftPush(q: seq<Task>, t: Task, budget: nat -> nat)
    ensures Left(q + [t], budget) == Left(q, budget) + budget(t.id) - t.runs
  {
    LeftConcat(q, [t], budget);
    assert [t][1..] == [];
  }

  lemma {:induction false} LeftPositive(q: seq<Task>, budget: nat -> nat, latest: nat)
    requires InBudget(q, budget, latest)
    ensures Left(q, budget) >= |q|
    decreases |q|
  {
    if q != [] {
      assert InBudget(q[1..], budget, latest);
      LeftPositive(q[1..], budget, latest);
    }
  }

  lemma {:induction false} RestInBudget(p: Policy, q: seq<Task>, k: nat, budget: nat -> nat, latest: nat)
    requires k < |q| && InBudget(q, budget, latest)
    ensures InBudget(Rest(p, q, k), budget, latest)
  {
    var r := Rest(p, q, k);
    forall i | 0 <= i < |r|
      ensures r[i].runs < budget(r[i].id) && (r[i].state.Sleeping? ==> r[i].state.until <= latest)
    {
      assert exists j :: 0 <= j < |q| && q[j] == r[i] by {
        assert r[i] == q[if p == RR then (if i < |q| - k - 1 then i + k + 1 else i - (|q| - k - 1)) else (if i < k then i else i + 1)];
      }
    }
  }

  /** A pass that runs someone spends exactly one run of the budget. */
  lemma {:induction false} PassSpends(p: Policy, s: Scheduler, clock: nat -> nat, budget: nat -> nat, latest: nat)
    requires InBudget(s.ready, budget, latest) && Settled(s.finished, budget) && RanSome(p, s, clock)
    ensures var after := Pass(p, s, clock, Verdict(p, s, clock, budget));
            && InBudget(after.ready, budget, latest) && Settled(after.finished, budget)
            && Left(after.ready, budget) == Left(s.ready, budget) - 1
  {
    var k, alive := Pick(p, s.ready, clock), Verdict(p, s, clock, budget);
    var t, rest := Served(p, s.ready, k, alive), Rest(p, s.ready, k);
    ServedSame(p, s.ready, k, alive);
    LeftRest(p, s.ready, k, budget);
    RestInBudget(p, s.ready, k, budget, latest);
    LeftPush(rest, t, budget);
  }

  /** A pass that runs nobody met a sleeper whose tick is still ahead. */
  lemma {:induction false} PassAsleep(p: Policy, s: Scheduler, clock: nat -> nat)
    requires s.ready != [] && !RanSome(p, s, clock)
    ensures Asleep(s.ready[0], clock(0))
  {
    FirstAwakeSpec(s.ready, clock, 0);
    PickMinSpec(s.ready, clock(0));
  }

  /** The loop ended normally after `total` schedules with every task of `ids`
      at its budget. */
  ghost predicate Paid(r: Outcome, total: int, ids: multiset<nat>, budget: nat -> nat)
  {
    && r.Completed? && r.schedules == total
    && r.s.ready == [] && Settled(r.s.finished, budget) && AllIds(r.s) == ids
  }

  /** The loop's state on the way to `Ends(_, total, ids, _)`. */
  ghost predicate OnCourse(s: Scheduler, budget: nat -> nat, start: nat, n: nat, schedules: nat, asleep: nat,
                           total: int, ids: multiset<nat>)
  {
    && InBudget(s.ready, budget, start + RUNAWAY_GUARD) && Settled(s.finished, budget)
    && schedules + Left(s.ready, budget) == total && schedules <= total && AllIds(s) == ids
    && schedules <= RUNAWAY_GUARD && asleep <= n && asleep <= RUNAWAY_GUARD
  }

  /** `Paid`, or stopped by the schedule guard if the total is beyond it. */
  ghost predicate Ends(r: Outcome, total: int, ids: multiset<nat>, budget: nat -> nat)
  {
    if total <= RUNAWAY_GUARD then Paid(r, total, ids, budget) else r.Runaway?
  }

  lemma {:induction false} RanOnCourse(p: Policy, s: Scheduler, budget: nat -> nat, start: nat, clock: nat -> nat,
                                       n: nat, schedules: nat, asleep: nat, total: int, ids: multiset<nat>)
    requires OnCourse(s, budget, start, n, schedules, asleep, total, ids)
    ensures var turn := ScheduleOnce(p, s, clock, budget);
            turn.Ran? ==> GoodTurn(turn, budget, start, n, schedules, total, ids)
  {
    if RanSome(p, s, clock) {
      var alive := Verdict(p, s, clock, budget);
      PassConserves(p, s, clock, alive);
      PassSpends(p, s, clock, budget, start + RUNAWAY_GUARD);
      LeftPositive(Pass(p, s, clock, alive).ready, budget, start + RUNAWAY_GUARD);
    }
  }

  /** An idle call comes early enough for the guard, any other spends one run
      and stays on course. */
  ghost predicate GoodTurn(t: Turn, budget: nat -> nat, start: nat, n: nat, schedules: nat,
                           total: int, ids: multiset<nat>)
  {
    match t
    case Idle => n < RUNAWAY_GUARD - 1
    case Ran(next) =>
      && schedules < total
      && (schedules < RUNAWAY_GUARD ==> OnCourse(next, budget, start, n + 1, schedules + 1, 0, total, ids))
  }

  ghost predicate KeepsCourse(once: Calls, budget: nat -> nat, start: nat, total: int, ids: multiset<nat>)
  {
    forall s: Scheduler, n: nat, schedules: nat, asleep: nat
      {:trigger GoodTurn(once(s, n), budget, start, n, schedules, total, ids), OnCourse(s, budget, start, n, schedules, asleep, total, ids)} ::
      OnCourse(s, budget, start, n, schedules, asleep, total, ids) && s.ready != [] ==>
        GoodTurn(once(s, n), budget, start, n, schedules, total, ids)
  }

  lemma {:induction false} TurnIsGood(once: Calls, s: Scheduler, budget: nat -> nat, start: nat,
                                      n: nat, schedules: nat, asleep: nat, total: int, ids: multiset<nat>)
    requires KeepsCourse(once, budget, start, total, ids) && s.ready != []
    requires OnCourse(s, budget, start, n, schedules, asleep, total, ids)
    ensures GoodTurn(once(s, n), budget, start, n, schedules, total, ids)
  {
  }

  lemma {:induction false} EmptyEnds(s: Scheduler, budget: nat -> nat, start: nat, n: nat, schedules: nat, asleep: nat,
                                     total: int, ids: multiset<nat>)
    requires OnCourse(s, budget, start, n, schedules, asleep, total, ids) && s.ready == []
    ensures Ends(Completed(s, schedules), total, ids, budget)
  {
  }

  lemma {:induction false} IdleOnCourse(s: Scheduler, budget: nat -> nat, start: nat, n: nat, schedules: nat, asleep: nat,
                                        total: int, ids: multiset<nat>)
    requires OnCourse(s, budget, start, n, schedules, asleep, total, ids) && n < RUNAWAY_GUARD - 1
    ensures asleep + 1 < RUNAWAY_GUARD && OnCourse(s, budget, start, n + 1, schedules, asleep + 1, total, ids)
  {
  }

  lemma {:induction false} DriveEnds(once: Calls, s: Scheduler, budget: nat -> nat, start: nat,
                                     n: nat, schedules: nat, asleep: nat, total: int, ids: multiset<nat>)
    requires KeepsCourse(once, budget, start, total, ids)
    requires OnCourse(s, budget, start, n, schedules, asleep, total, ids)
    ensures Ends(DriveFrom(once, s, n, schedules, asleep), total, ids, budget)
    decreases total - schedules, RUNAWAY_GUARD - n
  {
    if s.ready == [] {
      EmptyEnds(s, budget, start, n, schedules, asleep, total, ids);
    } else {
      TurnIsGood(once, s, budget, start, n, schedules, asleep, total, ids);
      match once(s, n) {
        case Idle =>
          IdleOnCourse(s, budget, start, n, schedules, asleep, total, ids);
          DriveEnds(once, s, budget, start, n + 1, schedules, asleep + 1, total, ids);
        case Ran(next) =>
          if schedules < RUNAWAY_GUARD { DriveEnds(once, next, budget, start, n + 1, schedules + 1, 0, total, ids); }
      }
    }
  }

  lemma {:induction false} PoliciesKeepCourse(p: Policy, budget: nat -> nat, start: nat, awaited: nat -> nat, clock: nat -> nat -> nat,
                                              total: int, ids: multiset<nat>)
    requires TicksKeepComing(start, awaited, clock)
    ensures KeepsCourse(CallsOf(p, budget, clock), budget, start, total, ids)
  {
    var once := CallsOf(p, budget, clock);
    forall s: Scheduler, n: nat, schedules: nat, asleep: nat
      | OnCourse(s, budget, start, n, schedules, asleep, total, ids) && s.ready != []
      ensures GoodTurn(once(s, n), budget, start, n, schedules, total, ids)
    {
      assert once(s, n) == ScheduleOnce(p, s, clock(n), budget);
      PolicyTurn(p, s, budget, start, awaited, clock, n, schedules, asleep, total, ids);
    }
  }

  lemma {:induction false} PolicyTurn(p: Policy, s: Scheduler, budget: nat -> nat, start: nat, awaited: nat -> nat,
                                      clock: nat -> nat -> nat, n: nat, schedules: nat, asleep: nat, total: int, ids: multiset<nat>)
    requires TicksKeepComing(start, awaited, clock) && s.ready != []
    requires OnCourse(s, budget, start, n, schedules, asleep, total, ids)
    ensures GoodTurn(ScheduleOnce(p, s, clock(n), budget), budget, start, n, schedules, total, ids)
  {
    RanOnCourse(p, s, budget, start, clock(n), n, schedules, asleep, total, ids);
    if ScheduleOnce(p, s, clock(n), budget).Idle? { StillAsleep(p, s, budget, start, awaited, clock, n); }
  }

  /** An idle pass can only happen in the first hundred iterations. */
  lemma {:induction false} StillAsleep(p: Policy, s: Scheduler, budget: nat -> nat, start: nat,
                                       awaited: nat -> nat, clock: nat -> nat -> nat, n: nat)
    requires TicksKeepComing(start, awaited, clock) && InBudget(s.ready, budget, start + RUNAWAY_GUARD)
    requires s.ready != [] && ScheduleOnce(p, s, clock(n), budget).Idle?
    ensures n < RUNAWAY_GUARD - 1
  {
    PassAsleep(p, s, clock(n));
    TicksGained(start, awaited, clock, n);
    assert awaited(n) <= clock(n)(0);
  }

  /** The demo's promise, for either policy: if nobody naps more than 100 ticks
      past loop entry, the loop completes exactly when the budgets add up to at
      most 100. Then it took the budgeted number of schedules and every ledger
      line shows its task's budget; otherwise the schedule guard stops it. */
  lemma {:induction false} DemoCompletes(p: Policy, tasks: seq<Task>, budget: nat -> nat, start: nat,
                                         awaited: nat -> nat, clock: nat -> nat -> nat)
    requires TicksKeepComing(start, awaited, clock)
    requires forall i :: 0 <= i < |tasks| ==> tasks[i].runs == 0 && budget(tasks[i].id) >= 1
    requires forall i :: 0 <= i < |tasks| && tasks[i].state.Sleeping? ==> tasks[i].state.until <= start + 100
    ensures var r := DriveFrom(CallsOf(p, budget, clock), Scheduler(tasks, []), 0, 0, 0);
            && (r.Completed? <==> Left(tasks, budget) <= 100) && !r.AsleepForever?
            && (r.Completed? ==> r.schedules == Left(tasks, budget) && LedgerSettled(r.s, tasks, budget))
  {
    var s := Scheduler(tasks, []);
    LeftPositive(tasks, budget, start + RUNAWAY_GUARD);
    var once := CallsOf(p, budget, clock);
    PoliciesKeepCourse(p, budget, start, awaited, clock, Left(tasks, budget), AllIds(s));
    DriveEnds(once, s, budget, start, 0, 0, 0, Left(tasks, budget), AllIds(s));
    var r := DriveFrom(once, s, 0, 0, 0);
    if Left(tasks, budget) <= RUNAWAY_GUARD {
      LedgerSorted(r.s);
      LedgerOfFinished(r.s, budget);
    }
  }

  /** Nobody is queued, and the ledger lists every task once, by id, at its
      budget. */
  ghost predicate LedgerSettled(s: Scheduler, tasks: seq<Task>, budget: nat -> nat)
  {
    && s.ready == [] && Settled(Ledger(s), budget)
    && DoneIds(Ledger(s)) == Ids(tasks) && SortedById(Ledger(s))
  }

  // ------------------------------------------------------------------ ledger

  function QueueLines(q: seq<Task>): (l: seq<Entry>)
    ensures DoneIds(l) == Ids(q)
  {
    if q == [] then [] else [Entry(q[0].id, q[0].runs)] + QueueLines(q[1..])
  }

  function Insert(e: Entry, l: seq<Entry>): seq<Entry>
  {
    if l == [] || e.id <= l[0].id then [e] + l else [l[0]] + Insert(e, l[1..])
  }

  /** Stable sort by id. */
  function SortById(l: seq<Entry>): seq<Entry>
  {
    if l == [] then [] else Insert(l[0], SortById(l[1..]))
  }

  /** `ledger`: queued and finished lines together, by id. */
  function Ledger(s: Scheduler): seq<Entry>
  {
    SortById(QueueLines(s.ready) + s.finished)
  }

  ghost predicate SortedById(l: seq<Entry>)
  {
    forall i, j :: 0 <= i < j < |l| ==> l[i].id <= l[j].id
  }

  function Count(l: seq<Entry>, e: Entry): nat
  {
    if l == [] then 0 else (if l[0] == e then 1 else 0) + Count(l[1..], e)
  }

  lemma {:induction false} InsertCount(x: Entry, l: seq<Entry>, e: Entry)
    ensures Count(Insert(x, l), e) == Count(l, e) + if e == x then 1 else 0
    decreases |l|
  {
    if l != [] && l[0].id < x.id {
      InsertCount(x, l[1..], e);
      assert Insert(x, l)[1..] == Insert(x, l[1..]);
    } else {
      assert Insert(x, l)[1..] == l;
    }
  }

  lemma {:induction false} InsertIds(x: Entry, l: seq<Entry>)
    ensures DoneIds(Insert(x, l)) == DoneIds(l) + multiset{x.id}
    decreases |l|
  {
    if l != [] && l[0].id < x.id {
      InsertIds(x, l[1..]);
      assert Insert(x, l)[1..] == Insert(x, l[1..]);
    } else {
      assert Insert(x, l)[1..] == l;
    }
  }

  lemma {:induction false} InsertMembers(x: Entry, l: seq<Entry>, e: Entry)
    ensures e in Insert(x, l) <==> e == x || e in l
    decreases |l|
  {
    if l != [] && l[0].id < x.id {
      InsertMembers(x, l[1..], e);
      assert l == [l[0]] + l[1..];
    }
  }

  lemma {:induction false} InsertSorted(x: Entry, l: seq<Entry>)
    requires SortedById(l)
    ensures SortedById(Insert(x, l))
    decreases |l|
  {
    if l != [] && l[0].id < x.id {
      var r := Insert(x, l[1..]);
      InsertSorted(x, l[1..]);
      forall i | 0 <= i < |r| ensures l[0].id <= r[i].id { InsertMembers(x, l[1..], r[i]); }
    }
  }

  lemma {:induction false} SortSorts(l: seq<Entry>)
    ensures SortedById(SortById(l)) && DoneIds(SortById(l)) == DoneIds(l)
    decreases |l|
  {
    if l != [] {
      SortSorts(l[1..]);
      InsertSorted(l[0], SortById(l[1..]));
      InsertIds(l[0], SortById(l[1..]));
    }
  }

  lemma {:induction false} SortCount(l: seq<Entry>, e: Entry)
    ensures Count(SortById(l), e) == Count(l, e) && (e in SortById(l) <==> e in l)
    decreases |l|
  {
    if l != [] {
      SortCount(l[1..], e);
      InsertCount(l[0], SortById(l[1..]), e);
      InsertMembers(l[0], SortById(l[1..]), e);
      assert l == [l[0]] + l[1..];
    }
  }

  /** The ledger is sorted by id and is a permutation of the queued and
      finished lines. */
  lemma LedgerSorted(s: Scheduler)
    ensures SortedById(Ledger(s)) && DoneIds(Ledger(s)) == AllIds(s)
    ensures forall e :: Count(Ledger(s), e) == Count(QueueLines(s.ready) + s.finished, e)
  {
    var l := QueueLines(s.ready) + s.finished;
    SortSorts(l);
    DoneConcat(QueueLines(s.ready), s.finished);
    forall e ensures Count(Ledger(s), e) == Count(l, e) { SortCount(l, e); }
  }

  lemma {:induction false} QueueLinesOf(q: seq<Task>)
    ensures |QueueLines(q)| == |q| && forall i :: 0 <= i < |q| ==> QueueLines(q)[i] == Entry(q[i].id, q[i].runs)
    decreases |q|
  {
    if q != [] { QueueLinesOf(q[1..]); }
  }

  lemma {:induction false} SortLength(l: seq<Entry>)
    ensures |SortById(l)| == |l|
    decreases |l|
  {
    if l != [] {
      SortLength(l[1..]);
      InsertLength(l[0], SortById(l[1..]));
    }
  }

  lemma {:induction false} InsertLength(e: Entry, l: seq<Entry>)
    ensures |Insert(e, l)| == |l| + 1
    decreases |l|
  {
    if l != [] { InsertLength(e, l[1..]); }
  }

  /** The ledger's lines: one for each queued and each finished task, with its id
      and its runs, and no other. */
  lemma LedgerLines(s: Scheduler, e: Entry)
    ensures |Ledger(s)| == |s.ready| + |s.finished|
    ensures e in Ledger(s) <==> e in s.finished || exists t :: t in s.ready && t.id == e.id && t.runs == e.runs
  {
    var lines := QueueLines(s.ready);
    QueueLinesOf(s.ready);
    SortLength(lines + s.finished);
    SortCount(lines + s.finished, e);
    if e in lines {
      var i :| 0 <= i < |lines| && lines[i] == e;
      assert s.ready[i] in s.ready;
    }
    if t :| t in s.ready && t.id == e.id && t.runs == e.runs {
      var i :| 0 <= i < |s.ready| && s.ready[i] == t;
      assert lines[i] == e;
    }
  }

  lemma {:induction false} LedgerOfFinished(s: Scheduler, budget: nat -> nat)
    requires s.ready == [] && Settled(s.finished, budget)
    ensures Settled(Ledger(s), budget)
  {
    assert QueueLines(s.ready) + s.finished == s.finished;
    var l := Ledger(s);
    forall i | 0 <= i < |l| ensures l[i].runs == budget(l[i].id) { SortCount(s.finished, l[i]); }
  }
}
