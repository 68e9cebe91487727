/** When the fair scheduler starves a task, and when it cannot.

    A task of weight above 102400 accrues nothing per run. Awake and below
    another task, it stays there and that task never runs; nothing else can
    hold a task back for ever. */
module Starvation {
  import opened Common
  import opened Sched
  import opened Cfs

  /** A run adds nothing to this task's vruntime. */
  predicate Heavy(t: Task)
  {
    t.weight > SLICE
  }

  lemma HeavySlice(t: Task)
    ensures Slice(t) == 0 <==> Heavy(t)
  {
    if !Heavy(t) { SlicePositive(t); }
  }

  // ----------------------------------------------------------------- deficit

  /** Passes `t` can still win from a task at `v`; `tie` is 1 if `t` stands
      ahead of it in the queue. */
  function Claim(t: Task, v: nat, tie: nat): nat
  {
    if t.vruntime < v then v - t.vruntime else if t.vruntime == v then tie else 0
  }

  function Claims(q: seq<Task>, v: nat, tie: nat): nat
    decreases |q|
  {
    if q == [] then 0 else Claim(q[0], v, tie) + Claims(q[1..], v, tie)
  }

  /** Passes the others can still win from the task at `i`. */
  function Deficit(q: seq<Task>, i: nat): nat
    requires i < |q|
  {
    Claims(q[..i], q[i].vruntime, 1) + Claims(q[i + 1..], q[i].vruntime, 0)
  }

  lemma {:induction false} ClaimsConcat(a: seq<Task>, b: seq<Task>, v: nat, tie: nat)
    ensures Claims(a + b, v, tie) == Claims(a, v, tie) + Claims(b, v, tie)
    decreases |a|
  {
    if a == [] {
      assert a + b == b;
    } else {
      assert (a + b)[1..] == a[1..] + b;
      ClaimsConcat(a[1..], b, v, tie);
    }
  }

  lemma ClaimsDrop(q: seq<Task>, k: nat, v: nat, tie: nat)
    requires k < |q|
    ensures Claims(q, v, tie) == Claims(q[..k] + q[k + 1..], v, tie) + Claim(q[k], v, tie)
  {
    var a, b := q[..k], q[k..];
    assert q == a + b && b[1..] == q[k + 1..];
    ClaimsConcat(a, b, v, tie);
    ClaimsConcat(a, q[k + 1..], v, tie);
  }

  /** Where the task at `i` stands once the one at `k` has left. */
  function Shifted(i: nat, k: nat): nat
    requires i != k
  {
    if k < i then i - 1 else i
  }

  lemma DeficitAhead(q: seq<Task>, k: nat, i: nat)
    requires k < i < |q|
    ensures var rest := q[..k] + q[k + 1..];
            rest[i - 1] == q[i] && Deficit(q, i) == Deficit(rest, i - 1) + Claim(q[k], q[i].vruntime, 1)
  {
    var rest := q[..k] + q[k + 1..];
    ClaimsDrop(q[..i], k, q[i].vruntime, 1);
    assert rest[..i - 1] == q[..i][..k] + q[..i][k + 1..] && rest[i..] == q[i + 1..];
  }

  lemma DeficitBehind(q: seq<Task>, k: nat, i: nat)
    requires i < k < |q|
    ensures var rest := q[..k] + q[k + 1..];
            rest[i] == q[i] && Deficit(q, i) == Deficit(rest, i) + Claim(q[k], q[i].vruntime, 0)
  {
    var rest, tail := q[..k] + q[k + 1..], q[i + 1..];
    ClaimsDrop(tail, k - i - 1, q[i].vruntime, 0);
    assert rest[..i] == q[..i] && rest[i + 1..] == tail[..k - i - 1] + tail[k - i..];
  }

  lemma DeficitPush(q: seq<Task>, t: Task, i: nat)
    requires i < |q|
    ensures (q + [t])[i] == q[i] && Deficit(q + [t], i) == Deficit(q, i) + Claim(t, q[i].vruntime, 0)
  {
    assert (q + [t])[..i] == q[..i] && (q + [t])[i + 1..] == q[i + 1..] + [t];
    ClaimsConcat(q[i + 1..], [t], q[i].vruntime, 0);
    assert [t][1..] == [];
  }

  // ---------------------------------------------------------------- blockers

  /** Awake, heavy and below `v`: it will be there at every later pass. */
  predicate Blocker(t: Task, v: nat)
  {
    !t.state.Sleeping? && Heavy(t) && t.vruntime < v
  }

  ghost predicate Unblocked(q: seq<Task>, v: nat)
  {
    forall j :: 0 <= j < |q| ==> !Blocker(q[j], v)
  }

  lemma FloorBelow(q: seq<Task>, k: nat, i: nat)
    requires k < |q| && i < |q| && i != k
    ensures MinVruntime(Rest(CFS, q, k)) <= q[i].vruntime
  {
    assert Rest(CFS, q, k)[Shifted(i, k)] == q[i];
    assert q[i] in Rest(CFS, q, k);
  }

  /** A task below `v` that ran has moved up, unless it is a blocker now. */
  lemma ServedClaims(q: seq<Task>, k: nat, v: nat)
    requires k < |q| && q[k].vruntime < v <= U64_MAX && !Blocker(q[k], v)
    requires !Blocker(Served(CFS, q, k, true), v)
    ensures Claim(Served(CFS, q, k, true), v, 0) < Claim(q[k], v, 0)
  {
    HeavySlice(q[k]);
  }

  lemma ServedNotBelow(q: seq<Task>, k: nat, alive: bool)
    requires k < |q| && q[k].vruntime <= U64_MAX
    ensures Served(CFS, q, k, alive).vruntime >= q[k].vruntime
  {
  }

  /** The queue after a pass that picked `k`. */
  function Requeued(q: seq<Task>, k: nat, alive: bool): seq<Task>
    requires k < |q|
  {
    Rest(CFS, q, k) + if alive then [Served(CFS, q, k, alive)] else []
  }

  lemma RequeuedKeeps(q: seq<Task>, k: nat, alive: bool, i: nat)
    requires k < |q| && i < |q| && i != k
    ensures var i', after := Shifted(i, k), Requeued(q, k, alive);
            && i' < |after| && after[i'] == q[i]
            && Deficit(after, i') + Claim(q[k], q[i].vruntime, if k < i then 1 else 0)
            == Deficit(q, i) + if alive then Claim(Served(CFS, q, k, alive), q[i].vruntime, 0) else 0
  {
    var rest := Rest(CFS, q, k);
    if k < i { DeficitAhead(q, k, i); } else { DeficitBehind(q, k, i); }
    DeficitPush(rest, Served(CFS, q, k, alive), Shifted(i, k));
    assert rest + [] == rest;
  }

  lemma {:induction false} PassRequeues(s: Scheduler, clock: nat -> nat, alive: bool)
    requires RanSome(CFS, s, clock)
    ensures Pass(CFS, s, clock, alive).ready == Requeued(s.ready, Pick(CFS, s.ready, clock), alive)
  {
    assert Rest(CFS, s.ready, Pick(CFS, s.ready, clock)) + [] == Rest(CFS, s.ready, Pick(CFS, s.ready, clock));
  }

  /** Whoever is picked over the awake task at `i` is below it, or level and
      ahead. */
  lemma {:induction false} PickedOver(q: seq<Task>, clock: nat -> nat, i: nat)
    requires i < |q| && !Asleep(q[i], clock(0)) && Pick(CFS, q, clock) != i
    ensures var k := Pick(CFS, q, clock);
            && k < |q| && q[k].vruntime <= q[i].vruntime && (i < k ==> q[k].vruntime < q[i].vruntime)
            && !Asleep(q[k], clock(0))
  {
    PickMinSpec(q, clock(0));
  }

  /** The starvation measure: a pass that runs another task, and neither finds
      nor leaves a blocker, strictly lowers the deficit of the awake task at
      `i`. Clamp and saturation are included. */
  lemma {:induction false} PassLowersDeficit(s: Scheduler, clock: nat -> nat, alive: bool, i: nat) returns (i': nat)
    requires i < |s.ready| && !Asleep(s.ready[i], clock(0)) && s.ready[i].vruntime <= U64_MAX
    requires Pick(CFS, s.ready, clock) != i && Unblocked(s.ready, s.ready[i].vruntime)
    requires Unblocked(Pass(CFS, s, clock, alive).ready, s.ready[i].vruntime)
    ensures var after := Pass(CFS, s, clock, alive).ready;
            && RanSome(CFS, s, clock) && i' < |after| && after[i'] == s.ready[i]
            && Deficit(after, i') < Deficit(s.ready, i)
  {
    var q, k, v := s.ready, Pick(CFS, s.ready, clock), s.ready[i].vruntime;
    PickedOver(q, clock, i);
    PassRequeues(s, clock, alive);
    RequeuedKeeps(q, k, alive, i);
    i' := Shifted(i, k);
    if alive {
      var after := Requeued(q, k, alive);
      assert after[|after| - 1] == Served(CFS, q, k, alive);
      if q[k].vruntime < v { ServedClaims(q, k, v); } else { ServedNotBelow(q, k, alive); }
    }
  }

  // ------------------------------------------------------------ bounded waiting

  /** No state of the run holds a blocker below `v`. */
  ghost predicate ClearRun(s: Scheduler, events: seq<Event>, v: nat)
    decreases |events|
  {
    Unblocked(s.ready, v) && (events == [] || ClearRun(Step(CFS, s, events[0]), events[1..], v))
  }

  /** What newcomers can win from a task at `v`. */
  function SpawnClaims(events: seq<Event>, v: nat): nat
    decreases |events|
  {
    if events == [] then 0
    else (if events[0].Spawn? then Claim(events[0].task, v, 0) else 0) + SpawnClaims(events[1..], v)
  }

  /** Over every history in which no blocker appears, heavy sleepers and
      arrivals included, an awake task is passed over at most as often as its
      deficit and the newcomers' claims allow. */
  lemma {:induction false} WaitBounded(s: Scheduler, now: nat, events: seq<Event>, i: nat)
    requires i < |s.ready| && !Asleep(s.ready[i], now) && s.ready[i].vruntime <= U64_MAX && Timed(now, events)
    requires ClearRun(s, events, s.ready[i].vruntime) && !RunsTask(CFS, s, events, s.ready[i].id)
    ensures Successes(CFS, s, events) <= Deficit(s.ready, i) + SpawnClaims(events, s.ready[i].vruntime)
    decreases |events|
  {
    if events != [] {
      match events[0] {
        case Spawn(t) =>
          DeficitPush(s.ready, t, i);
          WaitBounded(Step(CFS, s, events[0]), now, events[1..], i);
        case Tick(clock, alive) =>
          var i' := PassLowersDeficit(s, clock, alive, i);
          WaitBounded(Step(CFS, s, events[0]), clock(0), events[1..], i');
      }
    }
  }

  /** Every task below `v` accrues something when it runs. */
  ghost predicate LightBelow(q: seq<Task>, v: nat)
  {
    forall j :: 0 <= j < |q| && q[j].vruntime < v ==> !Heavy(q[j])
  }

  ghost predicate LightSpawns(events: seq<Event>, v: nat)
  {
    forall j :: 0 <= j < |events| && events[j].Spawn? && events[j].task.vruntime < v ==> !Heavy(events[j].task)
  }

  lemma {:induction false} PassLight(s: Scheduler, clock: nat -> nat, alive: bool, i: nat)
    requires i < |s.ready| && !Asleep(s.ready[i], clock(0)) && s.ready[i].vruntime <= U64_MAX
    requires Pick(CFS, s.ready, clock) != i && LightBelow(s.ready, s.ready[i].vruntime)
    ensures LightBelow(Pass(CFS, s, clock, alive).ready, s.ready[i].vruntime)
  {
    var q, k, v := s.ready, Pick(CFS, s.ready, clock), s.ready[i].vruntime;
    PickedOver(q, clock, i);
    PassRequeues(s, clock, alive);
    ServedNotBelow(q, k, alive);
    ServedSame(CFS, q, k, alive);
    RestMembers(q, k);
  }

  lemma RestMembers(q: seq<Task>, k: nat)
    requires k < |q|
    ensures forall x :: 0 <= x < |Rest(CFS, q, k)| ==> Rest(CFS, q, k)[x] == q[if x < k then x else x + 1]
  {
  }

  lemma {:induction false} PassKeeps(s: Scheduler, clock: nat -> nat, alive: bool, i: nat) returns (i': nat)
    requires i < |s.ready| && !Asleep(s.ready[i], clock(0)) && Pick(CFS, s.ready, clock) != i
    ensures RanSome(CFS, s, clock)
    ensures var after := Pass(CFS, s, clock, alive).ready; i' < |after| && after[i'] == s.ready[i]
  {
    PickedOver(s.ready, clock, i);
    PassRequeues(s, clock, alive);
    RequeuedKeeps(s.ready, Pick(CFS, s.ready, clock), alive, i);
    i' := Shifted(i, Pick(CFS, s.ready, clock));
  }

  lemma {:induction false} LightRunIsClear(s: Scheduler, now: nat, events: seq<Event>, i: nat)
    requires i < |s.ready| && !Asleep(s.ready[i], now) && s.ready[i].vruntime <= U64_MAX && Timed(now, events)
    requires LightBelow(s.ready, s.ready[i].vruntime) && LightSpawns(events, s.ready[i].vruntime)
    requires !RunsTask(CFS, s, events, s.ready[i].id)
    ensures ClearRun(s, events, s.ready[i].vruntime)
    decreases |events|
  {
    if events != [] {
      var v, rest := s.ready[i].vruntime, events[1..];
      assert LightSpawns(rest, v) by { TailLight(events, v); }
      match events[0] {
        case Spawn(t) =>
          LightRunIsClear(Step(CFS, s, events[0]), now, rest, i);
        case Tick(clock, alive) =>
          PassLight(s, clock, alive, i);
          var i' := PassKeeps(s, clock, alive, i);
          LightRunIsClear(Step(CFS, s, events[0]), clock(0), rest, i');
      }
    }
  }

  lemma {:induction false} TailLight(events: seq<Event>, v: nat)
    requires events != [] && LightSpawns(events, v)
    ensures LightSpawns(events[1..], v) && (events[0].Spawn? && events[0].task.vruntime < v ==> !Heavy(events[0].task))
  {
  }

  /** No starvation: if every task below it, and every newcomer below it,
      weighs at most 102400, an awake task is passed over at most as often as
      its deficit and the newcomers' claims allow. */
  lemma {:induction false} NoStarvation(s: Scheduler, now: nat, events: seq<Event>, i: nat)
    requires i < |s.ready| && !Asleep(s.ready[i], now) && s.ready[i].vruntime <= U64_MAX && Timed(now, events)
    requires LightBelow(s.ready, s.ready[i].vruntime) && LightSpawns(events, s.ready[i].vruntime)
    requires !RunsTask(CFS, s, events, s.ready[i].id)
    ensures Successes(CFS, s, events) <= Deficit(s.ready, i) + SpawnClaims(events, s.ready[i].vruntime)
  {
    LightRunIsClear(s, now, events, i);
    WaitBounded(s, now, events, i);
  }

  // --------------------------------------------------------------- starvation

  /** A blocker keeps its place: whatever the pass does, the task at `i` is not
      picked, and the blocker is there afterwards unless its own step ended
      it. */
  lemma {:induction false} BlockedPass(s: Scheduler, clock: nat -> nat, alive: bool, i: nat, j: nat) returns (i': nat, j': nat)
    requires i < |s.ready| && j < |s.ready| && s.ready[i].vruntime <= U64_MAX
    requires Blocker(s.ready[j], s.ready[i].vruntime) && (Pick(CFS, s.ready, clock) == j ==> alive)
    ensures Pick(CFS, s.ready, clock) != i && RanSome(CFS, s, clock)
    ensures var after := Pass(CFS, s, clock, alive).ready;
            && i' < |after| && after[i'] == s.ready[i]
            && j' < |after| && Blocker(after[j'], s.ready[i].vruntime) && after[j'].id == s.ready[j].id
  {
    var q, k := s.ready, Pick(CFS, s.ready, clock);
    PickMinSpec(q, clock(0));
    PassRequeues(s, clock, alive);
    RequeuedKeeps(q, k, alive, i);
    i' := Shifted(i, k);
    if k == j {
      HeavySlice(q[j]);
      var after := Requeued(q, k, alive);
      assert after[|after| - 1] == Served(CFS, q, k, alive);
      j' := |after| - 1;
    } else {
      RequeuedKeeps(q, k, alive, j);
      j' := Shifted(j, k);
    }
  }

  /** Whenever task `id` runs in this history, its step keeps it alive. */
  predicate KeepsAlive(s: Scheduler, events: seq<Event>, id: nat)
    decreases |events|
  {
    events == [] ||
    (&& (events[0].Tick? ==> var k := Pick(CFS, s.ready, events[0].clock); k < |s.ready| && s.ready[k].id == id ==> events[0].alive)
     && KeepsAlive(Step(CFS, s, events[0]), events[1..], id))
  }

  function TickCount(events: seq<Event>): nat
    decreases |events|
  {
    if events == [] then 0 else (if events[0].Tick? then 1 else 0) + TickCount(events[1..])
  }

  /** Starvation: with a blocker below it, a task never runs while the blocker
      lives, though every pass runs somebody, whatever else is queued, spawned,
      wakes or finishes. */
  lemma {:induction false} BlockerStarves(s: Scheduler, events: seq<Event>, i: nat, j: nat)
    requires i < |s.ready| && j < |s.ready| && s.ready[i].vruntime <= U64_MAX && UniqueIds(s.ready)
    requires Blocker(s.ready[j], s.ready[i].vruntime)
    requires FreshSpawns(CFS, s, events, s.ready[i].id, s.ready[j].id) && KeepsAlive(s, events, s.ready[j].id)
    ensures !RunsTask(CFS, s, events, s.ready[i].id) && Successes(CFS, s, events) == TickCount(events)
    decreases |events|
  {
    if events != [] {
      var next := Step(CFS, s, events[0]);
      match events[0] {
        case Spawn(t) => BlockerStarves(next, events[1..], i, j);
        case Tick(clock, alive) =>
          var i', j' := BlockedPass(s, clock, alive, i, j);
          PassKeepsUnique(CFS, s, clock, alive);
          NotPicked(s.ready, i, Pick(CFS, s.ready, clock));
          BlockerStarves(next, events[1..], i', j');
      }
    }
  }

  lemma NotPicked(q: seq<Task>, i: nat, k: nat)
    requires UniqueIds(q) && i < |q| && k < |q| && i != k
    ensures q[k].id != q[i].id
  {
  }

  // --------------------------------------------------------- the exact condition

  /** A history of passes that leaves `id` waiting. */
  ghost predicate PassedOver(s: Scheduler, now: nat, events: seq<Event>, id: nat)
  {
    NoSpawns(events) && Timed(now, events) && !RunsTask(CFS, s, events, id)
  }

  ghost predicate NoSpawns(events: seq<Event>)
  {
    forall i :: 0 <= i < |events| ==> events[i].Tick?
  }

  ghost predicate WaitsAtMost(s: Scheduler, now: nat, id: nat, n: nat)
  {
    forall events :: PassedOver(s, now, events, id) ==> Successes(CFS, s, events) <= n
  }

  /** Some number bounds how many passes can go by before `id` runs. */
  ghost predicate NeverStarves(s: Scheduler, now: nat, id: nat)
  {
    exists n: nat :: WaitsAtMost(s, now, id, n)
  }

  /** Some history leaves `id` waiting with a blocker below `v`. */
  ghost predicate CanBlock(s: Scheduler, now: nat, id: nat, v: nat)
  {
    exists events :: PassedOver(s, now, events, id) && !Unblocked(Run(CFS, s, events).ready, v)
  }

  lemma {:induction false} PassedOverCons(s: Scheduler, now: nat, e: Event, rest: seq<Event>, id: nat)
    requires e.Tick? && Clock(e.clock) && now <= e.clock(0)
    requires var k := Pick(CFS, s.ready, e.clock); k < |s.ready| ==> s.ready[k].id != id
    requires PassedOver(Step(CFS, s, e), e.clock(0), rest, id)
    ensures PassedOver(s, now, [e] + rest, id)
    ensures Run(CFS, s, [e] + rest) == Run(CFS, Step(CFS, s, e), rest)
    ensures Successes(CFS, s, [e] + rest) == (if RanSome(CFS, s, e.clock) then 1 else 0) + Successes(CFS, Step(CFS, s, e), rest)
  {
    assert ([e] + rest)[1..] == rest;
  }

  lemma {:induction false} CanBlockEarlier(s: Scheduler, now: nat, e: Event, id: nat, v: nat)
    requires e.Tick? && Clock(e.clock) && now <= e.clock(0)
    requires var k := Pick(CFS, s.ready, e.clock); k < |s.ready| ==> s.ready[k].id != id
    requires CanBlock(Step(CFS, s, e), e.clock(0), id, v)
    ensures CanBlock(s, now, id, v)
  {
    var rest :| PassedOver(Step(CFS, s, e), e.clock(0), rest, id) && !Unblocked(Run(CFS, Step(CFS, s, e), rest).ready, v);
    PassedOverCons(s, now, e, rest, id);
  }

  lemma {:induction false} PassedOverTail(s: Scheduler, now: nat, events: seq<Event>, id: nat)
    requires events != [] && PassedOver(s, now, events, id)
    ensures events[0].Tick? && PassedOver(Step(CFS, s, events[0]), events[0].clock(0), events[1..], id)
  {
  }

  lemma {:induction false} NoBlockIsClear(s: Scheduler, now: nat, events: seq<Event>, id: nat, v: nat)
    requires PassedOver(s, now, events, id) && !CanBlock(s, now, id, v)
    ensures ClearRun(s, events, v)
    decreases |events|
  {
    assert PassedOver(s, now, [], id) && Run(CFS, s, []) == s;
    if events != [] {
      var e := events[0];
      PassedOverTail(s, now, events, id);
      if CanBlock(Step(CFS, s, e), e.clock(0), id, v) { CanBlockEarlier(s, now, e, id, v); }
      NoBlockIsClear(Step(CFS, s, e), e.clock(0), events[1..], id, v);
    }
  }

  /** Half of the condition: if no blocker can appear, the deficit bounds the
      wait. */
  lemma UnblockedNeverStarves(s: Scheduler, now: nat, i: nat)
    requires i < |s.ready| && !Asleep(s.ready[i], now) && s.ready[i].vruntime <= U64_MAX
    requires !CanBlock(s, now, s.ready[i].id, s.ready[i].vruntime)
    ensures NeverStarves(s, now, s.ready[i].id)
  {
    var id, n := s.ready[i].id, Deficit(s.ready, i);
    forall events | PassedOver(s, now, events, id) ensures Successes(CFS, s, events) <= n {
      NoBlockIsClear(s, now, events, id, s.ready[i].vruntime);
      WaitBounded(s, now, events, i);
      TicksClaimNothing(events, s.ready[i].vruntime);
    }
    assert WaitsAtMost(s, now, id, n);
  }

  lemma {:induction false} TicksClaimNothing(events: seq<Event>, v: nat)
    requires NoSpawns(events)
    ensures SpawnClaims(events, v) == 0
    decreases |events|
  {
    if events != [] { TicksClaimNothing(events[1..], v); }
  }

  /** `n` passes on one clock, every step surviving. */
  function Passes(clock: nat -> nat, n: nat): (events: seq<Event>)
    ensures |events| == n && forall j :: 0 <= j < n ==> events[j] == Tick(clock, true)
  {
    if n == 0 then [] else [Tick(clock, true)] + Passes(clock, n - 1)
  }

  lemma {:induction false} PassesGoOn(s: Scheduler, now: nat, clock: nat -> nat, events: seq<Event>, a: nat, b: nat)
    requires Clock(clock) && now <= clock(0) && forall j :: 0 <= j < |events| ==> events[j] == Tick(clock, true)
    ensures Timed(now, events) && FreshSpawns(CFS, s, events, a, b) && KeepsAlive(s, events, b)
    ensures TickCount(events) == |events|
    decreases |events|
  {
    if events != [] { PassesGoOn(Step(CFS, s, events[0]), clock(0), clock, events[1..], a, b); }
  }

  /** A blocker already there: any number of passes can go by. */
  lemma BlockedNow(s: Scheduler, now: nat, i: nat, n: nat) returns (events: seq<Event>)
    requires i < |s.ready| && s.ready[i].vruntime <= U64_MAX && UniqueIds(s.ready)
    requires !Unblocked(s.ready, s.ready[i].vruntime)
    ensures PassedOver(s, now, events, s.ready[i].id) && Successes(CFS, s, events) == n
  {
    var j :| 0 <= j < |s.ready| && Blocker(s.ready[j], s.ready[i].vruntime);
    var clock := (_: nat) => now;
    events := Passes(clock, n);
    PassesGoOn(s, now, clock, events, s.ready[i].id, s.ready[j].id);
    BlockerStarves(s, events, i, j);
  }

  /** A blocker that can appear: the same, after the history that leads there. */
  lemma {:induction false} BlockedLater(s: Scheduler, now: nat, lead: seq<Event>, i: nat, n: nat) returns (events: seq<Event>)
    requires i < |s.ready| && !Asleep(s.ready[i], now) && s.ready[i].vruntime <= U64_MAX && UniqueIds(s.ready)
    requires PassedOver(s, now, lead, s.ready[i].id) && !Unblocked(Run(CFS, s, lead).ready, s.ready[i].vruntime)
    ensures PassedOver(s, now, events, s.ready[i].id) && Successes(CFS, s, events) >= n
    decreases |lead|
  {
    if lead == [] {
      events := BlockedNow(s, now, i, n);
    } else {
      var e := lead[0];
      PassedOverTail(s, now, lead, s.ready[i].id);
      var i' := PassKeeps(s, e.clock, e.alive, i);
      PassKeepsUnique(CFS, s, e.clock, e.alive);
      events := BlockedLater(Step(CFS, s, e), e.clock(0), lead[1..], i', n);
      PassedOverCons(s, now, e, events, s.ready[i].id);
      events := [e] + events;
    }
  }

  lemma BlockableStarves(s: Scheduler, now: nat, i: nat)
    requires i < |s.ready| && !Asleep(s.ready[i], now) && s.ready[i].vruntime <= U64_MAX && UniqueIds(s.ready)
    requires CanBlock(s, now, s.ready[i].id, s.ready[i].vruntime)
    ensures !NeverStarves(s, now, s.ready[i].id)
  {
    var id, v := s.ready[i].id, s.ready[i].vruntime;
    var lead :| PassedOver(s, now, lead, id) && !Unblocked(Run(CFS, s, lead).ready, v);
    forall n: nat ensures !WaitsAtMost(s, now, id, n) {
      var events := BlockedLater(s, now, lead, i, n + 1);
    }
  }

  /** Exactly when: an awake task's wait is bounded if and only if no history
      that leaves it waiting leads to a blocker below it. */
  lemma StarvationIff(s: Scheduler, now: nat, i: nat)
    requires i < |s.ready| && !Asleep(s.ready[i], now) && s.ready[i].vruntime <= U64_MAX && UniqueIds(s.ready)
    ensures NeverStarves(s, now, s.ready[i].id) <==> !CanBlock(s, now, s.ready[i].id, s.ready[i].vruntime)
  {
    if CanBlock(s, now, s.ready[i].id, s.ready[i].vruntime) {
      BlockableStarves(s, now, i);
    } else {
      UnblockedNeverStarves(s, now, i);
    }
  }

  /** On the queue itself: where no heavy task below it is asleep, an awake
      task's wait is bounded if and only if every task below it weighs at most
      102400. */
  lemma NeverStarvesIffLight(s: Scheduler, now: nat, i: nat)
    requires i < |s.ready| && !Asleep(s.ready[i], now) && s.ready[i].vruntime <= U64_MAX && UniqueIds(s.ready)
    requires forall j :: 0 <= j < |s.ready| && Heavy(s.ready[j]) && s.ready[j].vruntime < s.ready[i].vruntime ==>
               !s.ready[j].state.Sleeping?
    ensures NeverStarves(s, now, s.ready[i].id) <==> LightBelow(s.ready, s.ready[i].vruntime)
  {
    var id, v := s.ready[i].id, s.ready[i].vruntime;
    StarvationIff(s, now, i);
    if LightBelow(s.ready, v) {
      LightNeverBlocks(s, now, i);
    } else {
      assert PassedOver(s, now, [], id) && Run(CFS, s, []) == s;
    }
  }

  lemma LightNeverBlocks(s: Scheduler, now: nat, i: nat)
    requires i < |s.ready| && !Asleep(s.ready[i], now) && s.ready[i].vruntime <= U64_MAX
    requires LightBelow(s.ready, s.ready[i].vruntime)
    ensures !CanBlock(s, now, s.ready[i].id, s.ready[i].vruntime)
  {
    var id, v := s.ready[i].id, s.ready[i].vruntime;
    forall events | PassedOver(s, now, events, id) ensures Unblocked(Run(CFS, s, events).ready, v) {
      LightRunIsClear(s, now, events, i);
      ClearAtEnd(s, events, v);
    }
  }

  lemma {:induction false} ClearAtEnd(s: Scheduler, events: seq<Event>, v: nat)
    requires ClearRun(s, events, v)
    ensures Unblocked(Run(CFS, s, events).ready, v)
    decreases |events|
  {
    if events != [] { ClearAtEnd(Step(CFS, s, events[0]), events[1..], v); }
  }

  // ------------------------------------------------------------- heavy sleepers

  /** What a heavy sleeper becomes when it first runs: a blocker of the task at
      `i` if and only if some other queued task stands below that task, for then
      the clamp stops short of it. */
  lemma HeavySleeperLands(q: seq<Task>, k: nat, i: nat)
    requires k < |q| && i < |q| && Heavy(q[k]) && q[k].state.Sleeping? && q[k].vruntime < q[i].vruntime <= U64_MAX
    ensures Blocker(Served(CFS, q, k, true), q[i].vruntime)
       <==> exists m :: 0 <= m < |q| && m != k && q[m].vruntime < q[i].vruntime
  {
    var rest := Rest(CFS, q, k);
    HeavySlice(q[k]);
    RestMembers(q, k);
    FloorBelow(q, k, i);
    if m :| 0 <= m < |q| && m != k && q[m].vruntime < q[i].vruntime {
      FloorBelow(q, k, m);
    } else {
      assert forall t :: t in rest ==> t.vruntime >= q[i].vruntime;
    }
  }

  /** Below `v` there is at most the one task at `h`, and it sleeps. */
  ghost predicate LoneSleeper(q: seq<Task>, v: nat, h: nat)
  {
    forall j :: 0 <= j < |q| && q[j].vruntime < v ==> j == h && q[j].state.Sleeping?
  }

  /** A sleeper with nobody else below `v` is raised to `v`. */
  lemma LoneServed(q: seq<Task>, k: nat, alive: bool, i: nat)
    requires k < |q| && i < |q| && i != k && q[i].vruntime <= U64_MAX && LoneSleeper(q, q[i].vruntime, k)
    requires q[k].vruntime <= q[i].vruntime
    ensures Served(CFS, q, k, alive).vruntime >= q[i].vruntime
  {
    var rest := Rest(CFS, q, k);
    RestMembers(q, k);
    assert rest[Shifted(i, k)] == q[i];
    assert forall t :: t in rest ==> t.vruntime >= q[i].vruntime;
  }

  lemma RestLone(q: seq<Task>, k: nat, v: nat, h: nat) returns (h': nat)
    requires k < |q| && LoneSleeper(q, v, h)
    ensures LoneSleeper(Rest(CFS, q, k), v, h')
  {
    RestMembers(q, k);
    h' := if h <= k then h else h - 1;
  }

  lemma {:induction false} PassLone(s: Scheduler, clock: nat -> nat, alive: bool, i: nat, h: nat) returns (h': nat)
    requires i < |s.ready| && !Asleep(s.ready[i], clock(0)) && s.ready[i].vruntime <= U64_MAX
    requires Pick(CFS, s.ready, clock) != i && LoneSleeper(s.ready, s.ready[i].vruntime, h)
    ensures LoneSleeper(Pass(CFS, s, clock, alive).ready, s.ready[i].vruntime, h')
  {
    var q, k := s.ready, Pick(CFS, s.ready, clock);
    PickedOver(q, clock, i);
    PassRequeues(s, clock, alive);
    if k == h { LoneServed(q, k, alive, i); } else { ServedNotBelow(q, k, alive); }
    h' := RestLone(q, k, q[i].vruntime, h);
  }

  lemma {:induction false} LoneRunIsClear(s: Scheduler, now: nat, events: seq<Event>, i: nat, h: nat)
    requires i < |s.ready| && !Asleep(s.ready[i], now) && s.ready[i].vruntime <= U64_MAX
    requires LoneSleeper(s.ready, s.ready[i].vruntime, h) && PassedOver(s, now, events, s.ready[i].id)
    ensures ClearRun(s, events, s.ready[i].vruntime)
    decreases |events|
  {
    if events != [] {
      var e := events[0];
      PassedOverTail(s, now, events, s.ready[i].id);
      var i' := PassKeeps(s, e.clock, e.alive, i);
      var h' := PassLone(s, e.clock, e.alive, i, h);
      LoneRunIsClear(Step(CFS, s, e), e.clock(0), events[1..], i', h');
    }
  }

  /** A heavy sleeper alone below a task does not starve it. */
  lemma LoneSleeperHarmless(s: Scheduler, now: nat, i: nat, h: nat)
    requires i < |s.ready| && !Asleep(s.ready[i], now) && s.ready[i].vruntime <= U64_MAX
    requires LoneSleeper(s.ready, s.ready[i].vruntime, h)
    ensures NeverStarves(s, now, s.ready[i].id)
  {
    var id, v := s.ready[i].id, s.ready[i].vruntime;
    forall events | PassedOver(s, now, events, id) ensures Unblocked(Run(CFS, s, events).ready, v) {
      LoneRunIsClear(s, now, events, i, h);
      ClearAtEnd(s, events, v);
    }
    UnblockedNeverStarves(s, now, i);
  }

  /** At time `at` the task at `m` would not be picked before the one at `h`. */
  predicate NotAhead(q: seq<Task>, h: nat, m: nat, at: nat)
    requires h < |q| && m < |q|
  {
    Asleep(q[m], at) || q[h].vruntime < q[m].vruntime || (q[h].vruntime == q[m].vruntime && h < m)
  }

  /** `h` is a heavy sleeper awake at `at`, and `m` another task; both stand
      below `i`, and `m` will still be there when `h` is picked. */
  predicate Ambush(q: seq<Task>, i: nat, h: nat, m: nat, at: nat)
  {
    && i < |q| && h < |q| && m < |q| && m != h
    && Heavy(q[h]) && q[h].state.Sleeping? && !Asleep(q[h], at)
    && q[h].vruntime < q[i].vruntime <= U64_MAX && q[m].vruntime < q[i].vruntime
    && NotAhead(q, h, m, at)
  }

  lemma {:induction false} AmbushPick(q: seq<Task>, clock: nat -> nat, i: nat, h: nat, m: nat)
    requires Ambush(q, i, h, m, clock(0))
    ensures var k := Pick(CFS, q, clock); k < |q| && k != i && k != m
  {
    PickMinSpec(q, clock(0));
  }

  lemma AmbushStays(q: seq<Task>, k: nat, i: nat, h: nat, m: nat, at: nat)
    requires Ambush(q, i, h, m, at) && k < |q| && k != i && k != h && k != m
    ensures Ambush(Rest(CFS, q, k), Shifted(i, k), Shifted(h, k), Shifted(m, k), at)
    ensures Rest(CFS, q, k)[Shifted(i, k)] == q[i]
  {
    RestMembers(q, k);
  }

  /** A heavy sleeper that will wake while another task stands below the task at
      `i` can become its blocker. */
  lemma {:induction false} AmbushBlocks(s: Scheduler, now: nat, clock: nat -> nat, i: nat, h: nat, m: nat)
    requires Clock(clock) && now <= clock(0) && UniqueIds(s.ready) && Ambush(s.ready, i, h, m, clock(0))
    ensures CanBlock(s, now, s.ready[i].id, s.ready[i].vruntime)
    decreases |s.ready|
  {
    var q, k := s.ready, Pick(CFS, s.ready, clock);
    var id, v := q[i].id, q[i].vruntime;
    AmbushPick(q, clock, i, h, m);
    NotPicked(q, i, k);
    var e := Tick(clock, k == h);
    PassRequeues(s, clock, k == h);
    var next := Step(CFS, s, e);
    if k == h {
      HeavySleeperLands(q, k, i);
      assert next.ready[|next.ready| - 1] == Served(CFS, q, k, true);
      assert PassedOver(next, clock(0), [], id) && Run(CFS, next, []) == next;
    } else {
      PassKeepsUnique(CFS, s, clock, false);
      AmbushStays(q, k, i, h, m, clock(0));
      assert next.ready == Rest(CFS, q, k);
      AmbushBlocks(next, clock(0), clock, Shifted(i, k), Shifted(h, k), Shifted(m, k));
    }
    CanBlockEarlier(s, now, e, id, v);
  }

  /** So such a pair below an awake task starves it. */
  lemma {:induction false} HeavySleeperStarves(s: Scheduler, now: nat, clock: nat -> nat, i: nat, h: nat, m: nat)
    requires Clock(clock) && now <= clock(0) && UniqueIds(s.ready) && Ambush(s.ready, i, h, m, clock(0))
    requires !Asleep(s.ready[i], now)
    ensures !NeverStarves(s, now, s.ready[i].id)
  {
    AmbushBlocks(s, now, clock, i, h, m);
    BlockableStarves(s, now, i);
  }

  // ------------------------------------- a heavy sleeper among awake light tasks

  /** The first vruntime at or past `bar` that runs of `slice` reach from `x`. */
  function Landing(x: nat, slice: nat, bar: nat): (y: nat)
    requires slice > 0
    ensures y >= bar && y > x
    decreases if x < bar then bar - x else 0, x
  {
    if x + slice >= bar then x + slice else Landing(x + slice, slice, bar)
  }

  /** The task at `j` is picked before the one at `h` as long as both are awake. */
  predicate Ahead(q: seq<Task>, j: nat, h: nat)
    requires j < |q| && h < |q|
  {
    q[j].vruntime < q[h].vruntime || (q[j].vruntime == q[h].vruntime && j < h)
  }

  predicate HeavySleeper(t: Task, v: nat)
  {
    Heavy(t) && t.state.Sleeping? && t.vruntime < v
  }

  /** The task at `j` runs before the heavy sleeper at `h` does, and its runs
      carry it from below `h` straight to `v` or beyond. */
  predicate Overtakes(q: seq<Task>, j: nat, h: nat, v: nat)
    requires j < |q| && h < |q|
  {
    !Heavy(q[j]) && Ahead(q, j, h) && (Slice(q[j]) > 0 ==> Landing(q[j].vruntime, Slice(q[j]), q[h].vruntime) >= v)
  }

  /** No heavy task is awake below `v`, and beside a heavy sleeper below `v`
      every other task below `v` overtakes it. */
  ghost predicate Harmless(q: seq<Task>, v: nat)
  {
    && Unblocked(q, v)
    && forall h, j :: 0 <= h < |q| && 0 <= j < |q| && j != h && HeavySleeper(q[h], v) && q[j].vruntime < v ==>
         Overtakes(q, j, h, v)
  }

  /** Light tasks below `v` are awake. */
  ghost predicate LightAwake(q: seq<Task>, v: nat)
  {
    forall j :: 0 <= j < |q| && q[j].vruntime < v && !Heavy(q[j]) ==> !q[j].state.Sleeping?
  }

  lemma RestHarmless(q: seq<Task>, k: nat, v: nat)
    requires k < |q| && Harmless(q, v) && LightAwake(q, v)
    ensures Harmless(Rest(CFS, q, k), v) && LightAwake(Rest(CFS, q, k), v)
  {
    var r := Rest(CFS, q, k);
    RestMembers(q, k);
    forall h, j | 0 <= h < |r| && 0 <= j < |r| && j != h && HeavySleeper(r[h], v) && r[j].vruntime < v
      ensures Overtakes(r, j, h, v)
    {
      var h0, j0 := if h < k then h else h + 1, if j < k then j else j + 1;
      assert Overtakes(q, j0, h0, v);
    }
  }

  /** Appending a task at or past `v`. */
  lemma PushPast(r: seq<Task>, t: Task, v: nat)
    requires Harmless(r, v) && LightAwake(r, v) && t.vruntime >= v
    ensures Harmless(r + [t], v) && LightAwake(r + [t], v)
  {
    var q := r + [t];
    forall h, j | 0 <= h < |q| && 0 <= j < |q| && j != h && HeavySleeper(q[h], v) && q[j].vruntime < v
      ensures Overtakes(q, j, h, v)
    {
      assert Overtakes(r, j, h, v);
    }
  }

  /** Appending an awake light task below `v` that overtakes every heavy
      sleeper. */
  lemma PushLight(r: seq<Task>, t: Task, v: nat)
    requires Harmless(r, v) && LightAwake(r, v) && !Heavy(t) && !t.state.Sleeping?
    requires forall h :: 0 <= h < |r| && HeavySleeper(r[h], v) ==> Overtakes(r + [t], |r|, h, v)
    ensures Harmless(r + [t], v) && LightAwake(r + [t], v)
  {
    var q := r + [t];
    forall h, j | 0 <= h < |q| && 0 <= j < |q| && j != h && HeavySleeper(q[h], v) && q[j].vruntime < v
      ensures Overtakes(q, j, h, v)
    {
      if j < |r| { assert Overtakes(r, j, h, v); }
    }
  }

  lemma OvertakesOn(x: nat, slice: nat, bar: nat, v: nat)
    requires slice > 0 && Landing(x, slice, bar) >= v && x + slice < v
    ensures x + slice < bar && Landing(x + slice, slice, bar) >= v
  {
  }

  /** A light task that ran is past `v` or still overtakes. */
  lemma LightServed(q: seq<Task>, k: nat, v: nat)
    requires k < |q| && Harmless(q, v) && LightAwake(q, v) && q[k].vruntime < v <= U64_MAX && !Heavy(q[k])
    ensures Harmless(Requeued(q, k, true), v) && LightAwake(Requeued(q, k, true), v)
  {
    var r, t := Rest(CFS, q, k), Served(CFS, q, k, true);
    RestHarmless(q, k, v);
    RestMembers(q, k);
    HeavySlice(q[k]);
    if t.vruntime >= v {
      PushPast(r, t, v);
    } else {
      forall h | 0 <= h < |r| && HeavySleeper(r[h], v) ensures Overtakes(r + [t], |r|, h, v) {
        assert Overtakes(q, k, if h < k then h else h + 1, v);
        OvertakesOn(q[k].vruntime, Slice(q[k]), r[h].vruntime, v);
      }
      PushLight(r, t, v);
    }
  }

  lemma {:induction false} NoneAhead(q: seq<Task>, clock: nat -> nat, j: nat)
    requires var k := Pick(CFS, q, clock); k < |q| && j < |q| && j != k && !Asleep(q[j], clock(0))
    ensures !Ahead(q, j, Pick(CFS, q, clock))
  {
    PickMinSpec(q, clock(0));
  }

  /** When a heavy sleeper below `v` is picked, nobody else is left below it. */
  lemma {:induction false} HeavyAlone(q: seq<Task>, clock: nat -> nat, v: nat)
    requires Harmless(q, v) && LightAwake(q, v)
    requires var k := Pick(CFS, q, clock); k < |q| && HeavySleeper(q[k], v)
    ensures LoneSleeper(q, v, Pick(CFS, q, clock))
  {
    var k := Pick(CFS, q, clock);
    forall j | 0 <= j < |q| && j != k ensures q[j].vruntime >= v || (Asleep(q[j], clock(0)) && Heavy(q[j])) {
      if !Asleep(q[j], clock(0)) { NoneAhead(q, clock, j); }
    }
  }

  lemma {:induction false} PassHarmless(s: Scheduler, clock: nat -> nat, alive: bool, i: nat)
    requires i < |s.ready| && !Asleep(s.ready[i], clock(0)) && s.ready[i].vruntime <= U64_MAX
    requires Pick(CFS, s.ready, clock) != i
    requires Harmless(s.ready, s.ready[i].vruntime) && LightAwake(s.ready, s.ready[i].vruntime)
    ensures var after := Pass(CFS, s, clock, alive).ready;
            Harmless(after, s.ready[i].vruntime) && LightAwake(after, s.ready[i].vruntime)
  {
    var q, k, v := s.ready, Pick(CFS, s.ready, clock), s.ready[i].vruntime;
    PickedOver(q, clock, i);
    PassRequeues(s, clock, alive);
    RestHarmless(q, k, v);
    if !alive {
      assert Rest(CFS, q, k) + [] == Rest(CFS, q, k);
    } else if q[k].vruntime < v && !Heavy(q[k]) {
      LightServed(q, k, v);
    } else {
      if q[k].vruntime < v {
        HeavyAlone(q, clock, v);
        LoneServed(q, k, true, i);
      } else {
        ServedNotBelow(q, k, true);
      }
      PushPast(Rest(CFS, q, k), Served(CFS, q, k, true), v);
    }
  }

  lemma {:induction false} HarmlessRunIsClear(s: Scheduler, now: nat, events: seq<Event>, i: nat)
    requires i < |s.ready| && !Asleep(s.ready[i], now) && s.ready[i].vruntime <= U64_MAX
    requires Harmless(s.ready, s.ready[i].vruntime) && LightAwake(s.ready, s.ready[i].vruntime)
    requires PassedOver(s, now, events, s.ready[i].id)
    ensures ClearRun(s, events, s.ready[i].vruntime)
    decreases |events|
  {
    if events != [] {
      var e := events[0];
      PassedOverTail(s, now, events, s.ready[i].id);
      var i' := PassKeeps(s, e.clock, e.alive, i);
      PassHarmless(s, e.clock, e.alive, i);
      HarmlessRunIsClear(Step(CFS, s, e), e.clock(0), events[1..], i');
    }
  }

  lemma {:induction false} HarmlessNeverBlocks(s: Scheduler, now: nat, i: nat)
    requires i < |s.ready| && !Asleep(s.ready[i], now) && s.ready[i].vruntime <= U64_MAX
    requires Harmless(s.ready, s.ready[i].vruntime) && LightAwake(s.ready, s.ready[i].vruntime)
    ensures !CanBlock(s, now, s.ready[i].id, s.ready[i].vruntime)
  {
    var id, v := s.ready[i].id, s.ready[i].vruntime;
    forall events | PassedOver(s, now, events, id) ensures Unblocked(Run(CFS, s, events).ready, v) {
      HarmlessRunIsClear(s, now, events, i);
      ClearAtEnd(s, events, v);
    }
  }

  /** An awake light task ahead of a heavy sleeper that its runs can carry in
      between the sleeper and the task at `i`. */
  predicate Stalks(q: seq<Task>, i: nat, h: nat, m: nat, at: nat)
  {
    && i < |q| && h < |q| && m < |q| && m != h
    && HeavySleeper(q[h], q[i].vruntime) && !Asleep(q[h], at) && q[i].vruntime <= U64_MAX
    && !Heavy(q[m]) && !q[m].state.Sleeping? && q[m].vruntime < q[i].vruntime && Ahead(q, m, h)
    && Slice(q[m]) > 0 && Landing(q[m].vruntime, Slice(q[m]), q[h].vruntime) < q[i].vruntime
  }

  lemma {:induction false} StalksPick(q: seq<Task>, clock: nat -> nat, i: nat, h: nat, m: nat)
    requires Stalks(q, i, h, m, clock(0))
    ensures var k := Pick(CFS, q, clock); k < |q| && k != i && k != h
  {
    PickMinSpec(q, clock(0));
  }

  lemma StalksStays(q: seq<Task>, k: nat, i: nat, h: nat, m: nat, at: nat)
    requires Stalks(q, i, h, m, at) && k < |q| && k != i && k != h && k != m
    ensures Stalks(Rest(CFS, q, k), Shifted(i, k), Shifted(h, k), Shifted(m, k), at)
    ensures Rest(CFS, q, k)[Shifted(i, k)] == q[i]
  {
    RestMembers(q, k);
  }

  /** One run of the stalking task: it lands in between, or stalks on from
      higher up. */
  lemma StalksOn(q: seq<Task>, i: nat, h: nat, m: nat, at: nat)
    requires Stalks(q, i, h, m, at) && m != i
    ensures var after := Requeued(q, m, true); var i', h', m' := Shifted(i, m), Shifted(h, m), |q| - 1;
            && |after| == |q| && after[i'] == q[i] && after[h'] == q[h]
            && (Ambush(after, i', h', m', at) ||
                (Stalks(after, i', h', m', at) && after[m'].vruntime > q[m].vruntime))
  {
    RestMembers(q, m);
    var after := Requeued(q, m, true);
    assert after[|q| - 1] == Served(CFS, q, m, true);
  }

  lemma {:induction false} StalkBlocks(s: Scheduler, now: nat, clock: nat -> nat, i: nat, h: nat, m: nat)
    requires Clock(clock) && now <= clock(0) && UniqueIds(s.ready) && Stalks(s.ready, i, h, m, clock(0))
    ensures CanBlock(s, now, s.ready[i].id, s.ready[i].vruntime)
    decreases |s.ready|, s.ready[i].vruntime - s.ready[m].vruntime
  {
    var q, k := s.ready, Pick(CFS, s.ready, clock);
    StalksPick(q, clock, i, h, m);
    NotPicked(q, i, k);
    var e := Tick(clock, k == m);
    PassRequeues(s, clock, k == m);
    PassKeepsUnique(CFS, s, clock, k == m);
    var next := Step(CFS, s, e);
    if k == m {
      var i', h', m' := Shifted(i, m), Shifted(h, m), |q| - 1;
      StalksOn(q, i, h, m, clock(0));
      if Ambush(next.ready, i', h', m', clock(0)) {
        AmbushBlocks(next, clock(0), clock, i', h', m');
      } else {
        StalkBlocks(next, clock(0), clock, i', h', m');
      }
    } else {
      StalksStays(q, k, i, h, m, clock(0));
      assert next.ready == Rest(CFS, q, k);
      StalkBlocks(next, clock(0), clock, Shifted(i, k), Shifted(h, k), Shifted(m, k));
    }
    CanBlockEarlier(s, now, e, q[i].id, q[i].vruntime);
  }

  /** A time not before `now` at which both tasks are awake. */
  function BothUp(now: nat, a: Task, b: Task): (at: nat)
    ensures at >= now && !Asleep(a, at) && !Asleep(b, at)
  {
    var x := if a.state.Sleeping? && a.state.until > now then a.state.until else now;
    if b.state.Sleeping? && b.state.until > x then b.state.until else x
  }

  /** A pair below the task at `i` that is not harmless can block it. */
  lemma {:induction false} PairBlocks(s: Scheduler, now: nat, i: nat, h: nat, j: nat)
    requires i < |s.ready| && h < |s.ready| && j < |s.ready| && j != h
    requires s.ready[i].vruntime <= U64_MAX && UniqueIds(s.ready)
    requires var v := s.ready[i].vruntime;
             && Unblocked(s.ready, v) && HeavySleeper(s.ready[h], v) && s.ready[j].vruntime < v
             && (Heavy(s.ready[j]) || !s.ready[j].state.Sleeping?) && !Overtakes(s.ready, j, h, v)
    ensures CanBlock(s, now, s.ready[i].id, s.ready[i].vruntime)
  {
    var q, at := s.ready, BothUp(now, s.ready[h], s.ready[j]);
    var clock := (_: nat) => at;
    if Ambush(q, i, h, j, at) {
      AmbushBlocks(s, now, clock, i, h, j);
    } else if Heavy(q[j]) {
      assert !Blocker(q[j], q[i].vruntime);
      AmbushBlocks(s, now, clock, i, j, h);
    } else {
      StalkBlocks(s, now, clock, i, h, j);
    }
  }

  lemma {:induction false} HarmfulCanBlock(s: Scheduler, now: nat, i: nat)
    requires i < |s.ready| && s.ready[i].vruntime <= U64_MAX && UniqueIds(s.ready)
    requires LightAwake(s.ready, s.ready[i].vruntime) && !Harmless(s.ready, s.ready[i].vruntime)
    ensures CanBlock(s, now, s.ready[i].id, s.ready[i].vruntime)
  {
    var q, id, v := s.ready, s.ready[i].id, s.ready[i].vruntime;
    if Unblocked(q, v) {
      var h, j :| 0 <= h < |q| && 0 <= j < |q| && j != h && HeavySleeper(q[h], v) && q[j].vruntime < v && !Overtakes(q, j, h, v);
      PairBlocks(s, now, i, h, j);
    } else {
      assert PassedOver(s, now, [], id) && Run(CFS, s, []) == s;
    }
  }

  /** Exactly when, on the queue itself and with heavy sleepers: if the light
      tasks below it are awake, an awake task's wait is bounded if and only if
      no heavy task below it is awake and, beside a heavy sleeper below it, every
      other task below it is light, runs first, and is carried by its runs
      straight past. */
  lemma {:induction false} NeverStarvesIffHarmless(s: Scheduler, now: nat, i: nat)
    requires i < |s.ready| && !Asleep(s.ready[i], now) && s.ready[i].vruntime <= U64_MAX && UniqueIds(s.ready)
    requires LightAwake(s.ready, s.ready[i].vruntime)
    ensures NeverStarves(s, now, s.ready[i].id) <==> Harmless(s.ready, s.ready[i].vruntime)
  {
    StarvationIff(s, now, i);
    if Harmless(s.ready, s.ready[i].vruntime) {
      HarmlessNeverBlocks(s, now, i);
    } else {
      HarmfulCanBlock(s, now, i);
    }
  }
}
