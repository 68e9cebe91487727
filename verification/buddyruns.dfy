/** Whole histories of the active allocator: every sequence of allocations and
    frees, against a plain set of free frames. */
module BuddyRuns {
  import opened Common
  import opened Dyadic
  import opened FreeLists
  import opened BootMap
  import opened Carve

  datatype Op = Alloc | Dealloc(frame: nat)

  /** The allocator together with the frames its callers hold. */
  datatype Pool = Pool(lists: Lists, owned: set<nat>, ledger: nat)

  function Step(p: Pool, op: Op): (q: Pool)
    requires |p.lists| == ORDERS
    ensures |q.lists| == ORDERS
  {
    match op
    case Alloc =>
      var t := Take(p.lists, 0);
      (match t.addr
       case None => p
       case Some(a) => Pool(t.lists, p.owned + {a / FRAME_SIZE}, p.ledger + 1))
    case Dealloc(f) =>
      Pool(Merge(p.lists, 0, f * FRAME_SIZE), p.owned - {f}, if p.ledger == 0 then 0 else p.ledger - 1)
  }

  /** Callers free only frames they hold. */
  predicate Legal(p: Pool, op: Op)
  {
    op.Dealloc? ==> op.frame in p.owned
  }

  function Run(p: Pool, ops: seq<Op>): (q: Pool)
    requires |p.lists| == ORDERS
    ensures |q.lists| == ORDERS
    decreases |ops|
  {
    if ops == [] then p else Run(Step(p, ops[0]), ops[1..])
  }

  predicate LegalRun(p: Pool, ops: seq<Op>)
    requires |p.lists| == ORDERS
    decreases |ops|
  {
    ops == [] || (Legal(p, ops[0]) && LegalRun(Step(p, ops[0]), ops[1..]))
  }

  // ------------------------------------------------------- specification

  /** The specification: a plain set of free frames. */
  ghost predicate SetStep(free: set<nat>, op: Op, free': set<nat>)
  {
    match op
    case Alloc => if free == {} then free' == {} else exists f :: f in free && free' == free - {f}
    case Dealloc(f) => f !in free && free' == free + {f}
  }

  ghost predicate SetRun(free: set<nat>, ops: seq<Op>, free': set<nat>)
    decreases |ops|
  {
    if ops == [] then free' == free
    else exists mid :: SetStep(free, ops[0], mid) && SetRun(mid, ops[1..], free')
  }

  /** Free and held frames partition the universe; the ledger counts the held. */
  ghost predicate Inv(p: Pool, universe: set<nat>)
  {
    && Valid(p.lists)
    && FreeSet(p.lists) !! p.owned && FreeSet(p.lists) + p.owned == universe
    && 0 !in universe && p.ledger == |p.owned|
  }

  // --------------------------------------------------------- single steps

  lemma AllocStep(p: Pool, universe: set<nat>)
    requires Inv(p, universe)
    ensures Inv(Step(p, Alloc), universe)
    ensures SetStep(FreeSet(p.lists), Alloc, FreeSet(Step(p, Alloc).lists))
    ensures Coalesced(View(p.lists)) ==> Coalesced(View(Step(p, Alloc).lists))
    ensures Take(p.lists, 0).addr.None? <==> FreeSet(p.lists) == {}
    ensures FreeSet(p.lists) != {} ==> |Step(p, Alloc).owned| == |p.owned| + 1
  {
    TakeFrame(p.lists);
    var t := Take(p.lists, 0);
    if t.addr.Some? { TakenInv(p, Step(p, Alloc), universe, t.addr.value / FRAME_SIZE); }
  }

  lemma TakenInv(p: Pool, q: Pool, universe: set<nat>, f: nat)
    requires Inv(p, universe) && Valid(q.lists) && f in FreeSet(p.lists) && FreeSet(q.lists) == FreeSet(p.lists) - {f}
    requires q.owned == p.owned + {f} && q.ledger == p.ledger + 1
    ensures Inv(q, universe) && |q.owned| == |p.owned| + 1
  {
    MoveToOwned(FreeSet(p.lists), p.owned, universe, f);
  }

  lemma MoveToOwned(free: set<nat>, owned: set<nat>, universe: set<nat>, f: nat)
    requires f in free && free !! owned && free + owned == universe
    ensures free - {f} !! owned + {f} && (free - {f}) + (owned + {f}) == universe
    ensures |owned + {f}| == |owned| + 1
  {
  }

  lemma DeallocStep(p: Pool, universe: set<nat>, f: nat)
    requires Inv(p, universe) && f in p.owned
    ensures Inv(Step(p, Dealloc(f)), universe)
    ensures SetStep(FreeSet(p.lists), Dealloc(f), FreeSet(Step(p, Dealloc(f)).lists))
    ensures Coalesced(View(p.lists)) ==> Coalesced(View(Step(p, Dealloc(f)).lists))
  {
    assert f in universe;
    MergeFrame(p.lists, f * FRAME_SIZE, f);
    MoveToFree(FreeSet(p.lists), p.owned, universe, f);
  }

  lemma MoveToFree(free: set<nat>, owned: set<nat>, universe: set<nat>, f: nat)
    requires f in owned && free !! owned && free + owned == universe
    ensures free + {f} !! owned - {f} && (free + {f}) + (owned - {f}) == universe
    ensures |owned - {f}| == |owned| - 1 && |owned| > 0
  {
  }

  lemma StepRefines(p: Pool, universe: set<nat>, op: Op)
    requires Inv(p, universe) && Legal(p, op)
    ensures Inv(Step(p, op), universe)
    ensures SetStep(FreeSet(p.lists), op, FreeSet(Step(p, op).lists))
    ensures Coalesced(View(p.lists)) ==> Coalesced(View(Step(p, op).lists))
  {
    match op
    case Alloc => AllocStep(p, universe);
    case Dealloc(f) => DeallocStep(p, universe, f);
  }

  // ---------------------------------------------------------------- runs

  /** Every legal history refines the plain set, and keeps the lists aligned,
      disjoint, duplicate-free, clear of the zero page and coalesced. */
  lemma {:induction false} RunRefines(p: Pool, universe: set<nat>, ops: seq<Op>)
    requires Inv(p, universe) && LegalRun(p, ops)
    ensures Inv(Run(p, ops), universe)
    ensures SetRun(FreeSet(p.lists), ops, FreeSet(Run(p, ops).lists))
    ensures Coalesced(View(p.lists)) ==> Coalesced(View(Run(p, ops).lists))
    decreases |ops|
  {
    if ops != [] {
      StepRefines(p, universe, ops[0]);
      RunRefines(Step(p, ops[0]), universe, ops[1..]);
    }
  }

  /** `free_frames + allocated` is the total usable frame count in every
      reachable state. */
  lemma Conservation(p: Pool, universe: set<nat>, ops: seq<Op>)
    requires Inv(p, universe) && LegalRun(p, ops)
    ensures CountFrom(Run(p, ops).lists, 0) + Run(p, ops).ledger == |universe|
  {
    RunRefines(p, universe, ops);
    var q := Run(p, ops);
    CountIsFree(q.lists);
    DisjointUnionSize(FreeSet(q.lists), q.owned);
  }

  /** History independence: on coalesced lists the blocks listed depend only on
      which frames are held, not on the order of allocations and frees. */
  lemma HistoryIndependent(p: Pool, universe: set<nat>, ops: seq<Op>, ops': seq<Op>)
    requires Inv(p, universe) && Coalesced(View(p.lists))
    requires LegalRun(p, ops) && LegalRun(p, ops')
    requires Run(p, ops).owned == Run(p, ops').owned
    ensures View(Run(p, ops).lists) == View(Run(p, ops').lists)
  {
    RunRefines(p, universe, ops);
    RunRefines(p, universe, ops');
    SameOwnedSameView(Run(p, ops), Run(p, ops'), universe);
  }

  lemma SameOwnedSameView(p: Pool, q: Pool, universe: set<nat>)
    requires Inv(p, universe) && Inv(q, universe) && p.owned == q.owned
    requires Coalesced(View(p.lists)) && Coalesced(View(q.lists))
    ensures View(p.lists) == View(q.lists)
  {
    forall f: nat ensures Covered(View(p.lists), f) <==> Covered(View(q.lists), f) {
      assert f in FreeSet(p.lists) <==> f in universe && f !in p.owned;
      assert f in FreeSet(q.lists) <==> f in universe && f !in q.owned;
    }
    TidyOrders(p.lists);
    TidyOrders(q.lists);
    Canonical(View(p.lists), View(q.lists));
  }

  // -------------------------------------------------------------- healing

  /** Every history that returns what it took restores the listed blocks. */
  ghost predicate Heals(p: Pool)
    requires |p.lists| == ORDERS
  {
    forall ops :: LegalRun(p, ops) && Run(p, ops).owned == p.owned ==> View(Run(p, ops).lists) == View(p.lists)
  }

  lemma {:induction false} RunConcat(p: Pool, a: seq<Op>, b: seq<Op>)
    requires |p.lists| == ORDERS
    ensures Run(p, a + b) == Run(Run(p, a), b)
    ensures LegalRun(p, a + b) <==> LegalRun(p, a) && LegalRun(Run(p, a), b)
    decreases |a|
  {
    if a == [] {
      assert a + b == b;
    } else {
      assert (a + b)[0] == a[0] && (a + b)[1..] == a[1..] + b;
      RunConcat(Step(p, a[0]), a[1..], b);
    }
  }

  lemma {:induction false} Drain(p: Pool, universe: set<nat>) returns (ops: seq<Op>)
    requires Inv(p, universe)
    ensures LegalRun(p, ops) && Run(p, ops).owned == universe && p.owned <= universe
    decreases |universe| - |p.owned|
  {
    if FreeSet(p.lists) == {} {
      ops := [];
    } else {
      AllocStep(p, universe);
      OwnedBound(Step(p, Alloc), universe);
      var rest := Drain(Step(p, Alloc), universe);
      ops := [Alloc] + rest;
      assert ops[1..] == rest;
    }
  }

  lemma OwnedBound(p: Pool, universe: set<nat>)
    requires Inv(p, universe)
    ensures |p.owned| <= |universe|
  {
    DisjointUnionSize(FreeSet(p.lists), p.owned);
  }

  lemma {:induction false} Refill(p: Pool, universe: set<nat>, give: set<nat>) returns (ops: seq<Op>)
    requires Inv(p, universe) && give <= p.owned
    ensures LegalRun(p, ops) && Run(p, ops).owned == p.owned - give
    decreases |give|
  {
    if give == {} {
      ops := [];
    } else {
      var f :| f in give;
      var q := Step(p, Dealloc(f));
      assert Inv(q, universe) by { DeallocStep(p, universe, f); }
      assert q.owned == p.owned - {f};
      var rest := Refill(q, universe, give - {f});
      ops := [Dealloc(f)] + rest;
      RefillCons(p, give, f, rest);
    }
  }

  lemma RefillCons(p: Pool, give: set<nat>, f: nat, rest: seq<Op>)
    requires |p.lists| == ORDERS && f in give && give <= p.owned
    requires var q := Step(p, Dealloc(f)); LegalRun(q, rest) && Run(q, rest).owned == q.owned - (give - {f})
    ensures LegalRun(p, [Dealloc(f)] + rest) && Run(p, [Dealloc(f)] + rest).owned == p.owned - give
  {
    var ops := [Dealloc(f)] + rest;
    assert ops[0] == Dealloc(f) && ops[1..] == rest;
    assert p.owned - {f} - (give - {f}) == p.owned - give;
  }

  lemma NothingFreeIsCoalesced(p: Pool, universe: set<nat>)
    requires Inv(p, universe) && p.owned == universe
    ensures Coalesced(View(p.lists))
  {
    FirstIsFree(View(p.lists));
    assert FreeSet(p.lists) == {};
  }

  lemma FirstIsFree(V: set<Block>)
    ensures forall b :: b in V ==> First(b) in FrameSet(V)
  {
    forall b | b in V ensures First(b) in FrameSet(V) { CoversFirst(b); }
  }

  /** Taking everything and giving it back leaves a coalesced listing. */
  lemma DrainAndRefill(p: Pool, universe: set<nat>) returns (ops: seq<Op>)
    requires Inv(p, universe)
    ensures LegalRun(p, ops) && Run(p, ops).owned == p.owned && Coalesced(View(Run(p, ops).lists))
  {
    var a := Drain(p, universe);
    var q := Run(p, a);
    RunRefines(p, universe, a);
    NothingFreeIsCoalesced(q, universe);
    var b := Refill(q, universe, universe - p.owned);
    RunRefines(q, universe, b);
    RunConcat(p, a, b);
    ops := a + b;
    assert universe - (universe - p.owned) == p.owned;
  }

  /** Healing holds exactly when nothing was left to merge to begin with. */
  lemma HealsIff(p: Pool, universe: set<nat>)
    requires Inv(p, universe)
    ensures Heals(p) <==> Coalesced(View(p.lists))
  {
    if Coalesced(View(p.lists)) {
      forall ops | LegalRun(p, ops) && Run(p, ops).owned == p.owned
        ensures View(Run(p, ops).lists) == View(p.lists)
      {
        HistoryIndependent(p, universe, ops, []);
      }
    }
    if Heals(p) {
      var ops := DrainAndRefill(p, universe);
    }
  }

  // ------------------------------------------------------------ from boot

  lemma {:induction false} DistinctSize(s: seq<nat>)
    requires NoDup(s)
    ensures |ToSet(s)| == |s|
    decreases |s|
  {
    if s != [] {
      var n := |s| - 1;
      DistinctSize(s[..n]);
      assert s == s[..n] + [s[n]];
      assert ToSet(s) == ToSet(s[..n]) + {s[n]};
    }
  }

  /** The allocator after `n` bring-up calls and `activate`. */
  ghost function BootPool(regions: seq<Region>, n: nat): (p: Pool)
    ensures |p.lists| == ORDERS
  {
    var run := Bump(regions, START, n);
    Pool(Activate(regions, run.cursor), ToSet(run.handed), |run.handed|)
  }

  /** Two-phase conservation at the hand-over: free and handed-out frames are
      together exactly the usable frames, with none in both. */
  lemma BootInv(regions: seq<Region>, n: nat)
    requires MapOk(regions) && Disjoint(regions)
    ensures Inv(BootPool(regions, n), ToSet(AllFrames(regions)))
  {
    BumpRunSpec(regions, START, n);
    var run := Bump(regions, START, n);
    var rest, all := Remaining(regions, run.cursor), AllFrames(regions);
    ActivateSpec(regions, run.cursor);
    RemainingDistinct(regions, START);
    PrefixDistinct(run.handed, rest);
    DistinctSize(run.handed);
    var p := BootPool(regions, n);
    forall f: nat ensures f in FreeSet(p.lists) <==> f in rest { assert Free(p.lists, f) <==> f in rest; }
    assert FreeSet(p.lists) + p.owned == ToSet(all);
  }

  /** Healing after boot: however many frames bring-up took, the block sets
      `activate` built come back after every history that returns its frames
      exactly when no aligned run straddles a region boundary. */
  lemma BootHealsIff(regions: seq<Region>, n: nat)
    requires MapOk(regions) && Disjoint(regions)
    ensures Heals(BootPool(regions, n)) <==> NoStraddle(regions, Bump(regions, START, n).cursor)
    ensures NotTouching(regions) ==> Heals(BootPool(regions, n))
  {
    BootInv(regions, n);
    BumpRunSpec(regions, START, n);
    var c := Bump(regions, START, n).cursor;
    HealsIff(BootPool(regions, n), ToSet(AllFrames(regions)));
    ActivateCoalescedIff(regions, c);
    if NotTouching(regions) { NotTouchingNoStraddle(regions, c); }
  }

  /** From boot on, the counters always add up to the usable total. */
  lemma BootConservation(regions: seq<Region>, n: nat, ops: seq<Op>)
    requires MapOk(regions) && Disjoint(regions) && LegalRun(BootPool(regions, n), ops)
    ensures CountFrom(Run(BootPool(regions, n), ops).lists, 0) + Run(BootPool(regions, n), ops).ledger
         == |AllFrames(regions)|
  {
    BootInv(regions, n);
    Conservation(BootPool(regions, n), ToSet(AllFrames(regions)), ops);
    RemainingDistinct(regions, START);
    DistinctSize(AllFrames(regions));
  }

  // --------------------------------------------- touching regions do not heal

  const TOUCHING: seq<Region> := [Region(0x2000, 0x3000, Usable), Region(0x3000, 0x4000, Usable)]

  /** Two touching one-frame regions: both frames are free, yet a request for
      two aligned frames fails, and the listing does not heal. */
  lemma TouchingDoesNotHeal()
    ensures MapOk(TOUCHING) && Disjoint(TOUCHING)
    ensures !Heals(BootPool(TOUCHING, 0))
    ensures WhollyCovered(View(Activate(TOUCHING, START)), Block(1, 1)) && Take(Activate(TOUCHING, START), 1).addr.None?
  {
    TouchingStraddles();
    assert Bump(TOUCHING, START, 0).cursor == START;
    BootHealsIff(TOUCHING, 0);
    ActivateSpec(TOUCHING, START);
    var lists := Activate(TOUCHING, START);
    forall f: nat | Covers(Block(1, 1), f) ensures Covered(View(lists), f) { assert Free(lists, f); }
    TouchingNoPair(lists);
  }

  lemma TouchingStraddles()
    ensures MapOk(TOUCHING) && Disjoint(TOUCHING) && CursorOk(TOUCHING, START)
    ensures WhollyLeft(TOUCHING, START, Block(1, 1)) && !NoStraddle(TOUCHING, START)
  {
    var d := Block(1, 1);
    assert Lo(TOUCHING[0]) == 2 && Hi(TOUCHING[0]) == 3 && Lo(TOUCHING[1]) == 3 && Hi(TOUCHING[1]) == 4;
    assert LeftIn(TOUCHING, START, 0, 2) && LeftIn(TOUCHING, START, 1, 3);
    forall f: nat ensures Covers(d, f) <==> f == 2 || f == 3 { CoversRange(d, f); }
    RemainingMembers(TOUCHING, START, 2);
    RemainingMembers(TOUCHING, START, 3);
    assert WhollyLeft(TOUCHING, START, d);
    forall i: nat ensures !RunIn(TOUCHING, START, i, d) {
      assert Covers(d, 2) && Covers(d, 3);
      assert !(LeftIn(TOUCHING, START, i, 2) && LeftIn(TOUCHING, START, i, 3));
    }
  }

  lemma TouchingNoPair(lists: Lists)
    requires lists == Activate(TOUCHING, START)
    requires Tidy(lists) && forall b :: b in View(lists) ==> exists j :: Home(TOUCHING, START, j, b)
    ensures Take(lists, 1).addr.None?
  {
    forall o | 1 <= o < ORDERS ensures lists[o] == [] {
      if lists[o] != [] {
        var b := BlockAt(o, lists[o][0]);
        ListedInView(lists, o, 0);
        var j :| Home(TOUCHING, START, j, b);
        BytesScale(o);
      }
    }
    TakeEmptyAbove(lists, 1);
  }

  lemma {:induction false} TakeEmptyAbove(lists: Lists, o: nat)
    requires |lists| == ORDERS && forall j :: o <= j < ORDERS ==> lists[j] == []
    ensures Take(lists, o).addr.None?
    decreases ORDERS - o
  {
    if o <= MAX_ORDER { TakeEmptyAbove(lists, o + 1); }
  }
}
