/** With equal weights and nobody asleep, the fair scheduler is round robin. */
module Refinement {
  import opened Sched
  import opened Driver

  /** The two schedulers' copies of a task agree on all but vruntime. */
  ghost predicate Same(r: Task, c: Task)
  {
    r.(vruntime := 0) == c.(vruntime := 0)
  }

  ghost predicate SameQueue(r: seq<Task>, c: seq<Task>)
  {
    |r| == |c| && forall i :: 0 <= i < |r| ==> Same(r[i], c[i])
  }

  /** Ready tasks of one weight, in vruntime order, at most one slice apart. */
  ghost predicate OneLap(q: seq<Task>, w: nat)
  {
    && (forall i :: 0 <= i < |q| ==> q[i].state == Ready && q[i].weight == w)
    && (forall i, j :: 0 <= i <= j < |q| ==> q[i].vruntime <= q[j].vruntime)
    && (forall i :: 0 <= i < |q| ==> q[i].vruntime <= SatAdd(q[0].vruntime, Slice(q[0])))
  }

  /** Ids of the tasks the passes ran, in order. */
  function Trace(p: Policy, s: Scheduler, events: seq<Event>): seq<nat>
    decreases |events|
  {
    if events == [] then []
    else
      (if events[0].Tick? && RanSome(p, s, events[0].clock) then [s.ready[Pick(p, s.ready, events[0].clock)].id] else [])
      + Trace(p, Step(p, s, events[0]), events[1..])
  }

  lemma {:induction false} BothPickHead(r: seq<Task>, c: seq<Task>, w: nat, clock: nat -> nat)
    requires SameQueue(r, c) && OneLap(c, w)
    ensures Pick(RR, r, clock) == 0 && Pick(CFS, c, clock) == 0
  {
    if c != [] {
      assert Same(r[0], c[0]);
      PickMinSpec(c, clock(0));
      PickUnique(c, clock(0), 0, Pick(CFS, c, clock));
    }
  }

  lemma {:induction false} HeadPass(p: Policy, s: Scheduler, clock: nat -> nat, alive: bool)
    requires s.ready != [] && Pick(p, s.ready, clock) == 0
    ensures var t, after := Served(p, s.ready, 0, alive), Pass(p, s, clock, alive);
            && after.ready == s.ready[1..] + (if alive then [t] else [])
            && after.finished == s.finished + (if alive then [] else [Entry(t.id, t.runs)])
  {
    assert Rest(p, s.ready, 0) == s.ready[1..];
  }

  lemma LapStep(q: seq<Task>, w: nat, t: Task)
    requires q != [] && OneLap(q, w) && t == Served(CFS, q, 0, true)
    ensures OneLap(q[1..], w) && OneLap(q[1..] + [t], w)
  {
    LapTail(q, w);
    LapPush(q[1..], w, t, q[0].vruntime);
  }

  /** Dropping the head keeps the lap. */
  lemma LapTail(q: seq<Task>, w: nat)
    requires q != [] && OneLap(q, w)
    ensures OneLap(q[1..], w)
    ensures forall i :: 0 <= i < |q[1..]| ==> q[0].vruntime <= q[1..][i].vruntime <= SatAdd(q[0].vruntime, SliceOf(w))
  {
    var tail := q[1..];
    forall i | 0 <= i < |tail| ensures tail[i] == q[i + 1] && q[0].vruntime <= tail[i].vruntime {}
    if tail != [] { SatAddMono(q[0].vruntime, tail[0].vruntime, SliceOf(w)); }
  }

  lemma SatAddMono(a: nat, b: nat, c: nat)
    requires a <= b
    ensures SatAdd(a, c) <= SatAdd(b, c)
  {
  }

  /** A task one slice past `v` goes behind a lap that starts at or after `v`. */
  lemma LapPush(q: seq<Task>, w: nat, t: Task, v: nat)
    requires OneLap(q, w) && t.state == Ready && t.weight == w && t.vruntime == SatAdd(v, SliceOf(w))
    requires forall i :: 0 <= i < |q| ==> v <= q[i].vruntime <= t.vruntime
    ensures OneLap(q + [t], w)
  {
    if q != [] { SatAddMono(v, q[0].vruntime, SliceOf(w)); }
  }

  lemma {:induction false} PassSame(r: Scheduler, c: Scheduler, w: nat, clock: nat -> nat, alive: bool)
    requires SameQueue(r.ready, c.ready) && OneLap(c.ready, w) && r.finished == c.finished
    ensures var r', c' := Pass(RR, r, clock, alive), Pass(CFS, c, clock, alive);
            SameQueue(r'.ready, c'.ready) && OneLap(c'.ready, w) && r'.finished == c'.finished
  {
    BothPickHead(r.ready, c.ready, w, clock);
    if c.ready != [] {
      HeadPass(RR, r, clock, alive);
      HeadPass(CFS, c, clock, alive);
      assert Same(r.ready[0], c.ready[0]);
      assert Same(Served(RR, r.ready, 0, alive), Served(CFS, c.ready, 0, alive));
      LapStep(c.ready, w, Served(CFS, c.ready, 0, true));
    }
  }

  /** CFS refines RR: from any equal-weight ready queue in step with round
      robin's, every history of passes runs the same tasks in the same order
      and leaves the same ledger, saturated vruntimes included. */
  lemma {:induction false} CfsIsRoundRobin(r: Scheduler, c: Scheduler, w: nat, events: seq<Event>)
    requires SameQueue(r.ready, c.ready) && OneLap(c.ready, w) && r.finished == c.finished
    requires forall i :: 0 <= i < |events| ==> events[i].Tick?
    ensures Trace(RR, r, events) == Trace(CFS, c, events)
    ensures var r', c' := Run(RR, r, events), Run(CFS, c, events);
            SameQueue(r'.ready, c'.ready) && r'.finished == c'.finished
    decreases |events|
  {
    if events != [] {
      var e, rest := events[0], events[1..];
      assert e.Tick?;
      PassSame(r, c, w, e.clock, e.alive);
      var r1, c1 := Step(RR, r, e), Step(CFS, c, e);
      CfsIsRoundRobin(r1, c1, w, rest);
      BothPickHead(r.ready, c.ready, w, e.clock);
      if c.ready != [] {
        assert Same(r.ready[0], c.ready[0]);
        assert Trace(RR, r, events) == [r.ready[0].id] + Trace(RR, r1, rest);
        assert Trace(CFS, c, events) == [c.ready[0].id] + Trace(CFS, c1, rest);
      }
    }
  }

  /** In particular: all tasks spawned ready with one weight before the first
      pass. */
  lemma {:induction false} EqualWeightsDegenerate(q: seq<Task>, w: nat, events: seq<Event>)
    requires forall i :: 0 <= i < |q| ==> q[i].state == Ready && q[i].weight == w && q[i].vruntime == 0
    requires forall i :: 0 <= i < |events| ==> events[i].Tick?
    ensures var s := Scheduler(q, []);
            && Trace(RR, s, events) == Trace(CFS, s, events)
            && Ledger(Run(RR, s, events)) == Ledger(Run(CFS, s, events))
  {
    var s := Scheduler(q, []);
    CfsIsRoundRobin(s, s, w, events);
    SameLines(Run(RR, s, events).ready, Run(CFS, s, events).ready);
  }

  lemma {:induction false} SameLines(r: seq<Task>, c: seq<Task>)
    requires SameQueue(r, c)
    ensures QueueLines(r) == QueueLines(c)
    decreases |r|
  {
    if r != [] {
      assert Same(r[0], c[0]);
      forall i | 0 <= i < |r| - 1 ensures Same(r[1..][i], c[1..][i]) { assert Same(r[i + 1], c[i + 1]); }
      SameLines(r[1..], c[1..]);
    }
  }
}
