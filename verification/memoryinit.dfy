/** Bring-up: map the heap from the cursor, retire the cursor, check reclaim.

    `OffsetPageTable::map_to` is foreign code. It is modelled as adding one
    entry after drawing any number of page-table frames; how many, and whether
    a huge page blocks the way, are parameters. */
module MemoryInit {
  import opened Common
  import opened Dyadic
  import opened FreeLists
  import opened BootMap
  import opened Carve
  import opened Allocators
  import opened BuddyRuns

  datatype Outcome =
    | Done
    | ZeroSize
    | RangeOverflows
    | NoHeapFrame
    | NoTableFrame
    | HugePageBlocks
    | PageAlreadyMapped
    | NoFrameToTest

  /** The page table: page number to frame number. */
  class PageMap {
    var entries: map<nat, nat>

    constructor (entries: map<nat, nat>)
      ensures this.entries == entries
    {
      this.entries := entries;
    }
  }

  /** The cursor moved from `c` to `d` by handing out exactly `drawn`. */
  ghost predicate Drew(regions: seq<Region>, c: Cursor, drawn: seq<nat>, d: Cursor)
  {
    Remaining(regions, c) == drawn + Remaining(regions, d)
  }

  /** Draw one frame during bring-up. */
  method Draw(a: BuddyFrameAllocator) returns (r: Option<nat>)
    requires a.WellFormed() && !a.active
    modifies a
    ensures a.WellFormed() && !a.active
    ensures a.handedOut == old(a.handedOut) + if r.Some? then 1 else 0
    ensures Drew(a.regions, old(a.Position()), if r.Some? then [r.value] else [], a.Position())
    ensures r.None? ==> Remaining(a.regions, a.Position()) == []
  {
    BumpSpec(a.regions, a.Position());
    var addr := a.AllocateFrame();
    r := if addr.Some? then Some(addr.value / FRAME_SIZE) else None;
  }

  lemma DrewTrans(regions: seq<Region>, c: Cursor, s: seq<nat>, d: Cursor, t: seq<nat>, e: Cursor)
    requires Drew(regions, c, s, d) && Drew(regions, d, t, e)
    ensures Drew(regions, c, s + t, e)
  {
    assert s + (t + Remaining(regions, e)) == (s + t) + Remaining(regions, e);
  }

  method MapTo(m: PageMap, a: BuddyFrameAllocator, page: nat, frame: nat, tables: nat, huge: bool)
    returns (r: Outcome, ghost drawn: seq<nat>)
    requires a.WellFormed() && !a.active
    modifies m, a
    ensures a.WellFormed() && !a.active && a.handedOut == old(a.handedOut) + |drawn|
    ensures Drew(a.regions, old(a.Position()), drawn, a.Position())
    ensures r == Done ==> page !in old(m.entries) && m.entries == old(m.entries)[page := frame]
    ensures r != Done ==> m.entries == old(m.entries)
    ensures r in {Done, NoTableFrame, HugePageBlocks, PageAlreadyMapped}
    ensures r == NoTableFrame <==> |drawn| < tables
    ensures r == NoTableFrame ==> Remaining(a.regions, a.Position()) == []
    ensures r != NoTableFrame ==> |drawn| == tables && (r == HugePageBlocks <==> huge)
    ensures r != NoTableFrame && !huge ==> (r == PageAlreadyMapped <==> page in old(m.entries))
  {
    drawn := [];
    ghost var c := a.Position();
    for k := 0 to tables
      invariant a.WellFormed() && !a.active && |drawn| == k && a.handedOut == old(a.handedOut) + |drawn|
      invariant Drew(a.regions, c, drawn, a.Position()) && m.entries == old(m.entries)
    {
      ghost var d := a.Position();
      var t := Draw(a);
      if t.None? { return NoTableFrame, drawn; }
      DrewTrans(a.regions, c, drawn, d, [t.value], a.Position());
      drawn := drawn + [t.value];
    }
    if huge { return HugePageBlocks, drawn; }
    if page in m.entries { return PageAlreadyMapped, drawn; }
    m.entries := m.entries[page := frame];
    return Done, drawn;
  }

  /** Heap pages `[first, last]` are mapped to pairwise distinct frames taken
      from `drawn`, and nothing else changed. */
  ghost predicate HeapMapped(before: map<nat, nat>, after: map<nat, nat>, first: nat, count: nat, drawn: seq<nat>)
  {
    && (forall p :: p in after <==> p in before || first <= p < first + count)
    && (forall p :: p in before ==> p in after && after[p] == before[p] && !(first <= p < first + count))
    && (forall p :: first <= p < first + count ==> p in after && after[p] in drawn)
    && (forall p, q :: first <= p < q < first + count ==> p in after && q in after && after[p] != after[q])
  }

  lemma HeapMappedStep(before: map<nat, nat>, after: map<nat, nat>, first: nat, count: nat,
                       drawn: seq<nat>, more: seq<nat>)
    requires HeapMapped(before, after, first, count, drawn)
    requires more != [] && more[0] !in drawn && first + count !in after
    ensures HeapMapped(before, after[first + count := more[0]], first, count + 1, drawn + more)
  {
    assert more[0] in drawn + more;
  }

  /** What happened at one page, from the number of frames drawn for it: none,
      its own but not all `tables`, or all of them and then a huge page, a page
      in the way, or success. */
  predicate PageVerdict(r: Outcome, mapped: bool, tables: nat, huge: bool, drawn: nat)
  {
    match r
    case NoHeapFrame => drawn == 0
    case NoTableFrame => 1 <= drawn <= tables
    case HugePageBlocks => drawn == 1 + tables && huge
    case PageAlreadyMapped => drawn == 1 + tables && !huge && mapped
    case Done => drawn == 1 + tables && !huge && !mapped
    case _ => false
  }

  /** Frames the first `k` pages need, page tables included. */
  function Need(tables: nat -> nat, first: nat, k: nat): nat
    decreases k
  {
    if k == 0 then 0 else Need(tables, first, k - 1) + 1 + tables(first + k - 1)
  }

  /** The pages before `p` are mapped, with `drawn` frames drawn for them and
      their tables. */
  ghost predicate MappedUpTo(before: map<nat, nat>, after: map<nat, nat>, first: nat, p: nat,
                             tables: nat -> nat, drawn: seq<nat>)
  {
    first <= p && HeapMapped(before, after, first, p - first, drawn) && |drawn| == Need(tables, first, p - first)
  }

  /** Mapping stopped with `r` at page `p`: the pages before it are mapped, and
      the frames drawn for it say what stopped it. */
  ghost predicate StoppedAt(r: Outcome, before: map<nat, nat>, after: map<nat, nat>, first: nat, p: nat,
                            tables: nat -> nat, huge: nat -> bool, drawn: seq<nat>)
  {
    && first <= p && HeapMapped(before, after, first, p - first, drawn) && |drawn| >= Need(tables, first, p - first)
    && PageVerdict(r, p in before, tables(p), huge(p), |drawn| - Need(tables, first, p - first))
  }

  /** Some page of the range stopped the mapping with `r`. */
  ghost predicate Stopped(r: Outcome, before: map<nat, nat>, after: map<nat, nat>, first: nat, last: nat,
                          tables: nat -> nat, huge: nat -> bool, drawn: seq<nat>)
  {
    exists p: nat :: p <= last && StoppedAt(r, before, after, first, p, tables, huge, drawn)
  }

  /** One page of the heap: a frame for it, then the page-table frames. */
  method MapPage(m: PageMap, a: BuddyFrameAllocator, page: nat, tables: nat, huge: bool)
    returns (r: Outcome, ghost drawn: seq<nat>)
    requires a.WellFormed() && !a.active
    modifies m, a
    ensures a.WellFormed() && !a.active && a.handedOut == old(a.handedOut) + |drawn|
    ensures Drew(a.regions, old(a.Position()), drawn, a.Position())
    ensures r != ZeroSize && r != RangeOverflows && r != NoFrameToTest
    ensures r == Done ==> drawn != [] && page !in old(m.entries) && m.entries == old(m.entries)[page := drawn[0]]
    ensures r != Done ==> m.entries == old(m.entries)
    ensures r == NoHeapFrame || r == NoTableFrame ==> Remaining(a.regions, a.Position()) == []
    ensures PageVerdict(r, page in old(m.entries), tables, huge, |drawn|)
  {
    ghost var c := a.Position();
    var frame := Draw(a);
    if frame.None? { return NoHeapFrame, []; }
    ghost var d := a.Position();
    ghost var more;
    r, more := MapTo(m, a, page, frame.value, tables, huge);
    DrewTrans(a.regions, c, [frame.value], d, more, a.Position());
    drawn := [frame.value] + more;
  }

  method MapPages(m: PageMap, a: BuddyFrameAllocator, first: nat, count: nat, tables: nat -> nat, huge: nat -> bool)
    returns (r: Outcome, ghost drawn: seq<nat>)
    requires a.WellFormed() && !a.active
    modifies m, a
    ensures a.WellFormed() && !a.active && a.handedOut == old(a.handedOut) + |drawn|
    ensures Drew(a.regions, old(a.Position()), drawn, a.Position())
    ensures r != ZeroSize && r != RangeOverflows && r != NoFrameToTest
    ensures r == Done ==> HeapMapped(old(m.entries), m.entries, first, count, drawn) && |drawn| == Need(tables, first, count)
    ensures r != Done ==>
              count > 0 && Stopped(r, old(m.entries), m.entries, first, first + count - 1, tables, huge, drawn)
    ensures r == NoHeapFrame || r == NoTableFrame ==> Remaining(a.regions, a.Position()) == []
  {
    drawn := [];
    ghost var c := a.Position();
    assert NoDup(Remaining(a.regions, c)) by { RemainingDistinct(a.regions, c); }
    for k := 0 to count
      invariant a.WellFormed() && !a.active && a.handedOut == old(a.handedOut) + |drawn|
      invariant Drew(a.regions, c, drawn, a.Position())
      invariant MappedUpTo(old(m.entries), m.entries, first, first + k, tables, drawn)
    {
      r, drawn := MapFrom(m, a, first, first + k, tables, huge, c, old(m.entries), drawn);
      if r != Done { return; }
    }
    r := Done;
  }

  /** Page `p` of the range, the pages before it done. */
  method MapFrom(m: PageMap, a: BuddyFrameAllocator, first: nat, p: nat, tables: nat -> nat, huge: nat -> bool,
                 ghost c: Cursor, ghost before: map<nat, nat>, ghost had: seq<nat>)
    returns (r: Outcome, ghost drawn: seq<nat>)
    requires a.WellFormed() && !a.active && NoDup(Remaining(a.regions, c)) && Drew(a.regions, c, had, a.Position())
    requires MappedUpTo(before, m.entries, first, p, tables, had)
    modifies m, a
    ensures a.WellFormed() && !a.active && |drawn| >= |had| && a.handedOut == old(a.handedOut) + |drawn| - |had|
    ensures Drew(a.regions, c, drawn, a.Position())
    ensures r == Done ==> MappedUpTo(before, m.entries, first, p + 1, tables, drawn)
    ensures r != Done ==> StoppedAt(r, before, m.entries, first, p, tables, huge, drawn)
    ensures r == NoHeapFrame || r == NoTableFrame ==> Remaining(a.regions, a.Position()) == []
  {
    ghost var d, e := a.Position(), m.entries;
    ghost var more;
    r, more := MapPage(m, a, p, tables(p), huge(p));
    drawn := had + more;
    DrewTrans(a.regions, c, had, d, more, a.Position());
    if r == Done {
      FreshFrame(a.regions, c, had, more, a.Position());
      MapNext(before, e, first, p, tables, had, more);
    } else {
      StopHere(r, before, e, first, p, tables, huge, had, more);
    }
  }

  lemma {:induction false} MapNext(before: map<nat, nat>, after: map<nat, nat>, first: nat, p: nat,
                                   tables: nat -> nat, drawn: seq<nat>, more: seq<nat>)
    requires MappedUpTo(before, after, first, p, tables, drawn) && |more| == 1 + tables(p)
    requires more[0] !in drawn && p !in after
    ensures MappedUpTo(before, after[p := more[0]], first, p + 1, tables, drawn + more)
  {
    HeapMappedStep(before, after, first, p - first, drawn, more);
  }

  lemma {:induction false} StopHere(r: Outcome, before: map<nat, nat>, after: map<nat, nat>, first: nat, p: nat,
                                    tables: nat -> nat, huge: nat -> bool, drawn: seq<nat>, more: seq<nat>)
    requires MappedUpTo(before, after, first, p, tables, drawn)
    requires PageVerdict(r, p in after, tables(p), huge(p), |more|)
    ensures StoppedAt(r, before, after, first, p, tables, huge, drawn + more)
  {
    HeapMappedMore(before, after, first, p - first, drawn, more);
  }

  lemma HeapMappedMore(before: map<nat, nat>, after: map<nat, nat>, first: nat, count: nat,
                       drawn: seq<nat>, more: seq<nat>)
    requires HeapMapped(before, after, first, count, drawn)
    ensures HeapMapped(before, after, first, count, drawn + more)
    ensures first + count in after <==> first + count in before
  {
  }

  /** The bytes `[start, start + size)` are backed: each lies in a mapped page,
      the pages added are exactly those that hold one of them, and they sit on
      pairwise distinct frames from `drawn`. */
  ghost predicate Backed(before: map<nat, nat>, after: map<nat, nat>, start: nat, size: nat, drawn: seq<nat>)
  {
    && (forall x: nat :: start <= x < start + size ==> x / 4096 in after && x / 4096 !in before)
    && (forall p :: p in after && p !in before ==> after[p] in drawn && HoldsByte(p, start, size))
    && (forall p, q :: p in after && q in after && p !in before && q !in before && p != q ==> after[p] != after[q])
    && (forall p :: p in before ==> p in after && after[p] == before[p])
  }

  /** Page `p` holds a byte of `[start, start + size)`. */
  predicate HoldsByte(p: nat, start: nat, size: nat)
  {
    start < 4096 * (p + 1) && 4096 * p < start + size
  }

  lemma PageOfByte(x: nat, start: nat, size: nat)
    requires start <= x < start + size
    ensures start / FRAME_SIZE <= x / 4096 < start / FRAME_SIZE + PageCount(start, size)
  {
  }

  lemma PageHoldsByte(p: nat, start: nat, size: nat)
    requires size > 0 && start / FRAME_SIZE <= p < start / FRAME_SIZE + PageCount(start, size)
    ensures HoldsByte(p, start, size)
  {
  }

  lemma MappedIsBacked(before: map<nat, nat>, after: map<nat, nat>, start: nat, size: nat, drawn: seq<nat>)
    requires size > 0 && HeapMapped(before, after, start / FRAME_SIZE, PageCount(start, size), drawn)
    ensures Backed(before, after, start, size, drawn)
  {
    forall x: nat | start <= x < start + size ensures x / 4096 in after && x / 4096 !in before {
      PageOfByte(x, start, size);
    }
    forall p | p in after && p !in before ensures after[p] in drawn && HoldsByte(p, start, size) {
      PageHoldsByte(p, start, size);
    }
    NewPagesDistinct(before, after, start / FRAME_SIZE, PageCount(start, size), drawn);
  }

  lemma NewPagesDistinct(before: map<nat, nat>, after: map<nat, nat>, first: nat, count: nat, drawn: seq<nat>)
    requires HeapMapped(before, after, first, count, drawn)
    ensures forall p, q :: p in after && q in after && p !in before && q !in before && p != q ==> after[p] != after[q]
  {
    forall p, q | p in after && q in after && p !in before && q !in before && p != q ensures after[p] != after[q] {
      if p < q { assert after[p] != after[q]; } else { assert after[q] != after[p]; }
    }
  }

  /** Back `[start, start + size)` with frames, one page at a time. */
  method MapHeap(m: PageMap, a: BuddyFrameAllocator, start: nat, size: nat, tables: nat -> nat, huge: nat -> bool)
    returns (r: Outcome, ghost drawn: seq<nat>)
    requires a.WellFormed() && !a.active
    modifies m, a
    ensures a.WellFormed() && !a.active && a.handedOut == old(a.handedOut) + |drawn|
    ensures Drew(a.regions, old(a.Position()), drawn, a.Position())
    ensures r != NoFrameToTest && (r == ZeroSize <==> size == 0)
    ensures r == RangeOverflows <==> size > 0 && start + size > U64_MAX
    ensures r == Done ==> Backed(old(m.entries), m.entries, start, size, drawn)
    ensures r != Done && size > 0 && start + size <= U64_MAX ==>
              Stopped(r, old(m.entries), m.entries, start / 4096, (start + size - 1) / 4096, tables, huge, drawn)
    ensures r == NoHeapFrame || r == NoTableFrame ==> Remaining(a.regions, a.Position()) == []
  {
    if size == 0 { return ZeroSize, []; }
    if start + size > U64_MAX { return RangeOverflows, []; }
    r, drawn := MapPages(m, a, start / FRAME_SIZE, PageCount(start, size), tables, huge);
    if r == Done { MappedIsBacked(old(m.entries), m.entries, start, size, drawn); }
  }

  /** Pages from the one holding `start` to the one holding the last byte. */
  function PageCount(start: nat, size: nat): nat
    requires size > 0
  {
    (start + size - 1) / FRAME_SIZE + 1 - start / FRAME_SIZE
  }

  lemma FreshFrame(regions: seq<Region>, c: Cursor, had: seq<nat>, more: seq<nat>, d: Cursor)
    requires NoDup(Remaining(regions, c)) && Drew(regions, c, had + more, d) && more != []
    ensures more[0] !in had
  {
    var all := Remaining(regions, c);
    forall i | 0 <= i < |had| ensures had[i] != more[0] {
      assert all[i] == had[i] && all[|had|] == more[0];
    }
  }

  // --------------------------------------------------------------- reclaim

  /** Boot-time reclaim check: take a frame, give it back, and find the same
      count and the same free frames (and so, by `ReclaimRestores`, the same
      blocks where nothing was left to merge). */
  method SelfTestReclaim(a: BuddyFrameAllocator) returns (r: Outcome)
    requires a.active && Valid(a.freeLists)
    modifies a
    ensures a.active && Valid(a.freeLists)
    ensures a.handedOut == old(a.handedOut)
    ensures r == Done || r == NoFrameToTest
    ensures r == NoFrameToTest <==> FreeSet(old(a.freeLists)) == {}
    ensures FreeSet(a.freeLists) == FreeSet(old(a.freeLists))
    ensures Coalesced(View(old(a.freeLists))) ==> Coalesced(View(a.freeLists))
  {
    var before, frame := TakeCounted(a);
    if frame.None? { return NoFrameToTest; }
    GiveBack(a, frame.value);
    var after := a.FreeFrames();
    assert before == after;
    r := Done;
  }

  /** `deallocate_frame` of a frame that is not free. */
  method GiveBack(a: BuddyFrameAllocator, f: nat)
    requires a.active && Valid(a.freeLists) && f != 0 && f !in FreeSet(a.freeLists)
    modifies a
    ensures a.active && Valid(a.freeLists) && FreeSet(a.freeLists) == FreeSet(old(a.freeLists)) + {f}
    ensures Coalesced(View(old(a.freeLists))) ==> Coalesced(View(a.freeLists))
    ensures a.handedOut == if old(a.handedOut) == 0 then 0 else old(a.handedOut) - 1
  {
    a.DeallocateFrame(f);
  }

  /** The first half of the check: the count drops by exactly one. */
  method TakeCounted(a: BuddyFrameAllocator) returns (before: nat, r: Option<nat>)
    requires a.active && Valid(a.freeLists)
    modifies a
    ensures a.active && Valid(a.freeLists)
    ensures Coalesced(View(old(a.freeLists))) ==> Coalesced(View(a.freeLists))
    ensures a.handedOut == old(a.handedOut) + if r.Some? then 1 else 0
    ensures before == |FreeSet(old(a.freeLists))|
    ensures TookOne(FreeSet(old(a.freeLists)), r, FreeSet(a.freeLists))
  {
    before := a.FreeFrames();
    r := TakeListed(a);
    var mid := a.FreeFrames();
    assert r.Some? ==> before == mid + 1;
  }

  /** `allocate_frame` after activation, by frame number. */
  method TakeListed(a: BuddyFrameAllocator) returns (r: Option<nat>)
    requires a.active && Valid(a.freeLists)
    modifies a
    ensures a.active && Valid(a.freeLists)
    ensures Coalesced(View(old(a.freeLists))) ==> Coalesced(View(a.freeLists))
    ensures a.handedOut == old(a.handedOut) + if r.Some? then 1 else 0
    ensures TookOne(FreeSet(old(a.freeLists)), r, FreeSet(a.freeLists))
  {
    var addr := a.AllocateFrame();
    r := if addr.Some? then Some(addr.value / FRAME_SIZE) else None;
    LeavesTook(FreeSet(old(a.freeLists)), addr, FreeSet(a.freeLists));
  }

  ghost predicate TookOne(before: set<nat>, r: Option<nat>, after: set<nat>)
  {
    match r
    case None => before == {} && after == {}
    case Some(f) => f != 0 && f !in after && before == after + {f} && |before| == |after| + 1
  }

  lemma LeavesTook(before: set<nat>, addr: Option<nat>, after: set<nat>)
    requires FrameLeaves(before, addr, after)
    ensures TookOne(before, if addr.Some? then Some(addr.value / FRAME_SIZE) else None, after)
  {
  }

  lemma ReclaimRestores(lists: Lists, after: Lists)
    requires Valid(lists) && Valid(after) && FreeSet(after) == FreeSet(lists)
    ensures Coalesced(View(lists)) && Coalesced(View(after)) ==> View(after) == View(lists)
  {
    TidyOrders(lists);
    TidyOrders(after);
    forall f: nat ensures Covered(View(lists), f) <==> Covered(View(after), f) {
      assert f in FreeSet(lists) <==> f in FreeSet(after);
    }
    if Coalesced(View(lists)) && Coalesced(View(after)) { Canonical(View(lists), View(after)); }
  }

  // ------------------------------------------------------------------ init

  /** Who owns what after bring-up: the drawn frames and the free frames
      partition the usable memory. */
  ghost predicate Owned(regions: seq<Region>, drawn: seq<nat>, free: set<nat>, handedOut: nat)
  {
    && (forall f :: f in drawn ==> f !in free)
    && ToSet(drawn) + free == ToSet(AllFrames(regions))
    && |free| + handedOut == |AllFrames(regions)|
  }

  lemma OwnedAfterDraw(regions: seq<Region>, drawn: seq<nat>, c: Cursor, free: set<nat>)
    requires Disjoint(regions) && Drew(regions, START, drawn, c) && free == ToSet(Remaining(regions, c))
    ensures Owned(regions, drawn, free, |drawn|)
  {
    var rest := Remaining(regions, c);
    RemainingDistinct(regions, START);
    PrefixDistinct(drawn, rest);
    RemainingDistinct(regions, c);
    DistinctSize(rest);
    assert ToSet(drawn) + ToSet(rest) == ToSet(drawn + rest);
  }

  lemma HeapOwned(regions: seq<Region>, boot: map<nat, nat>, entries: map<nat, nat>, start: nat, size: nat,
                  drawn: seq<nat>, free: set<nat>, handedOut: nat)
    requires Backed(boot, entries, start, size, drawn) && Owned(regions, drawn, free, handedOut)
    ensures forall p :: p in entries && p !in boot ==> entries[p] !in free
  {
  }

  lemma SomeMember(s: seq<nat>)
    ensures s != [] ==> ToSet(s) != {}
  {
    if s != [] { assert s[0] in ToSet(s); }
  }

  lemma DrewAll(regions: seq<Region>, drawn: seq<nat>, c: Cursor)
    requires Drew(regions, START, drawn, c) && Remaining(regions, c) == []
    ensures drawn == AllFrames(regions)
  {
    assert drawn + [] == drawn;
  }

  /** Heap first, then `activate`, then the reclaim check, on the page table
      `boot` left by the bootloader: heap pages sit on pairwise distinct
      frames, none of them is in a free list, and the counters add up to the
      usable total. Running out means every usable frame was drawn. */
  method Init(regions: seq<Region>, boot: map<nat, nat>, heapStart: nat, heapSize: nat,
              tables: nat -> nat, huge: nat -> bool)
    returns (r: Outcome, a: BuddyFrameAllocator, m: PageMap, ghost drawn: seq<nat>)
    requires MapOk(regions) && Disjoint(regions)
    ensures r == ZeroSize <==> heapSize == 0
    ensures r == RangeOverflows <==> heapSize > 0 && heapStart + heapSize > U64_MAX
    ensures r == NoHeapFrame || r == NoTableFrame || r == NoFrameToTest ==> drawn == AllFrames(regions)
    ensures r == Done ==>
              && a.active && Valid(a.freeLists) && FreeSet(a.freeLists) != {}
              && Backed(boot, m.entries, heapStart, heapSize, drawn)
              && (forall p :: p in m.entries && p !in boot ==> m.entries[p] !in FreeSet(a.freeLists))
              && Owned(regions, drawn, FreeSet(a.freeLists), a.handedOut)
              && (NotTouching(regions) ==> Coalesced(View(a.freeLists)))
  {
    a := new BuddyFrameAllocator(regions);
    m := new PageMap(boot);
    r, drawn := MapHeap(m, a, heapStart, heapSize, tables, huge);
    ghost var c := a.Position();
    if Remaining(regions, c) == [] { DrewAll(regions, drawn, c); }
    if r != Done { return; }
    a.Activate();
    OwnedAfterDraw(regions, drawn, c, FreeSet(a.freeLists));
    HeapOwned(regions, boot, m.entries, heapStart, heapSize, drawn, FreeSet(a.freeLists), a.handedOut);
    if NotTouching(regions) {
      NotTouchingNoStraddle(regions, c);
      ActivateCoalescedIff(regions, c);
    }
    r := SelfTestReclaim(a);
    if r == NoFrameToTest {
      SomeMember(Remaining(regions, c));
      DrewAll(regions, drawn, c);
    }
  }
}
